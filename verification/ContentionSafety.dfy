/** What every run of the contention protocol keeps. */
module ContentionSafety {
  import opened Keys
  import opened DataLayer
  import opened Contention

  // ---------------------------------------------------------------- ownership

  function PredSet(pred: Option<Node>): set<Node> {
    if pred.Some? then {pred.value} else {}
  }

  /** The nodes a thread has acquired and not yet released. */
  function Held(p: Place): set<Node> {
    match p
    case CasLeft(op, _) => {op.node}
    case Crashed(op) => {op.node}
    case GivingUp(op) => {op.node}
    case Dropping(op) => {op.node}
    case Opening(op, pred) => {op.node} + PredSet(pred)
    case Closing(op, pred) => {op.node} + PredSet(pred)
    case Serving(op, pred, _, _, _, _) => {op.node} + PredSet(pred)
    case Linking(op, pred, _, _, _) => {op.node} + PredSet(pred)
    case ReleasingRight(op, pred) => {op.node} + PredSet(pred)
    case ReleasingLeft(op, pred) => PredSet(pred)
    case _ => {}
  }

  /** An insert has a predecessor for its node, or its node is still being linked. */
  predicate OpOk(s: State, op: Op) {
    && op.node in s.nodes
    && (op.kind == Insert ==> s.nodes[op.node].backward.Some? || s.nodes[op.node].linker.Some?)
  }

  /** An insert winner holds its node's predecessor, an update winner no second node. */
  predicate PairOk(s: State, op: Op, pred: Option<Node>) {
    && OpOk(s, op)
    && pred == (if op.kind == Insert then s.nodes[op.node].backward else None)
    && (op.kind == Insert ==> pred.Some? && pred.value in s.nodes && pred.value != op.node)
  }

  /** Once it says so, an insert winner has its record's key in its buffer. */
  predicate ServerOk(op: Op, pb: Buffer, rb: Buffer, stored: bool) {
    Sound(pb) && Sound(rb) && (stored && op.kind == Insert ==> Has(rb.recs, op.key))
  }

  predicate PlaceOk(s: State, p: Place) {
    match p
    case Idle => true
    case Reading(op) => OpOk(s, op) && op.kind == Insert
    case CasRight(op, l) => OpOk(s, op) && (l.Some? ==> op.kind == Insert && s.nodes[op.node].backward == l)
    case CasLeft(op, left) => OpOk(s, op) && op.kind == Insert && s.nodes[op.node].backward == Some(left)
    case Crashed(op) => OpOk(s, op) && op.kind == Insert
    case GivingUp(op) => OpOk(s, op) && op.kind == Insert
    case Dropping(op) => OpOk(s, op) && op.kind == Insert
    case Opening(op, pred) => PairOk(s, op, pred)
    case Closing(op, pred) => PairOk(s, op, pred)
    case Serving(op, pred, _, pb, rb, stored) => PairOk(s, op, pred) && ServerOk(op, pb, rb, stored)
    case Linking(op, pred, pb, rb, _) => PairOk(s, op, pred) && ServerOk(op, pb, rb, true) && op.kind == Insert
    case ReleasingRight(op, pred) => PairOk(s, op, pred)
    case ReleasingLeft(op, pred) => PairOk(s, op, pred) && op.kind == Insert
    case _ => OpOk(s, p.op)
  }

  ghost predicate PlacesOk(s: State) {
    && s.contexts.Keys == s.places.Keys
    && (forall n {:trigger s.nodes[n]} :: n in s.nodes && s.nodes[n].backward.Some? ==>
          s.nodes[n].backward.value in s.nodes)
    && (forall t {:trigger PlaceOk(s, s.places[t])} :: t in s.places ==> PlaceOk(s, s.places[t]))
  }

  /** Everything a thread holds carries its context. */
  ghost predicate HoldsOk(s: State, t: Thread)
    requires t in s.places
  {
    forall n :: n in Held(s.places[t]) ==> n in s.nodes && s.nodes[n].ctx == Some(t)
  }

  /** node.ctx names t exactly when t is between its successful compare-and-swap and its release. */
  ghost predicate Owned(s: State) {
    && (forall n {:trigger s.nodes[n]} :: n in s.nodes && s.nodes[n].ctx.Some? ==>
          s.nodes[n].ctx.value in s.places && n in Held(s.places[s.nodes[n].ctx.value]))
    && (forall t {:trigger HoldsOk(s, t)} :: t in s.places ==> HoldsOk(s, t))
  }

  /** The node t is linking says so, and has no backward pointer. */
  ghost predicate LinkOk(s: State, t: Thread)
    requires t in s.places
  {
    var p := s.places[t];
    p.Linking? ==> p.node in s.nodes && s.nodes[p.node].linker == Some(t) && s.nodes[p.node].backward == None
  }

  /** A node is being linked by the thread that is just doing it, and by no other. */
  ghost predicate LinksOk(s: State) {
    && (forall t {:trigger LinkOk(s, t)} :: t in s.places ==> LinkOk(s, t))
    && (forall n {:trigger s.nodes[n]} :: n in s.nodes && s.nodes[n].linker.Some? ==>
          var u := s.nodes[n].linker.value;
          u in s.places && s.places[u].Linking? && s.places[u].node == n)
  }

  lemma InitOwned(s: State)
    requires Init(s)
    ensures PlacesOk(s) && Owned(s) && LinksOk(s)
  {
  }

  /** A step of a thread that links nothing, before or after. */
  lemma LinksSame(s: State, t: Thread, s': State)
    requires LinksOk(s) && s'.nodes.Keys == s.nodes.Keys && t in s'.places && s'.places == s.places[t := s'.places[t]]
    requires forall n {:trigger s'.nodes[n]} :: n in s.nodes ==>
               s'.nodes[n].backward == s.nodes[n].backward && s'.nodes[n].linker == s.nodes[n].linker
    requires (t in s.places ==> !s.places[t].Linking?) && !s'.places[t].Linking?
    ensures LinksOk(s')
  {
    forall u | u in s'.places
      ensures LinkOk(s', u)
    {
      assert u in s.places ==> LinkOk(s, u);
    }
  }

  /** A step that leaves the nodes alone and keeps a thread's holdings keeps ownership. */
  lemma OwnedSameNodes(s: State, t: Thread, s': State)
    requires Owned(s) && s'.nodes == s.nodes && t in s'.places
    requires s'.places == s.places[t := s'.places[t]]
    requires Held(s'.places[t]) == (if t in s.places then Held(s.places[t]) else {})
    ensures Owned(s')
  {
    forall u | u in s'.places
      ensures HoldsOk(s', u)
    {
      assert u in s.places ==> HoldsOk(s, u);
    }
  }

  /** A change of contexts on the nodes does not disturb where the other threads are. */
  lemma PlacesSameLinks(s: State, t: Thread, s': State)
    requires PlacesOk(s) && s'.nodes.Keys == s.nodes.Keys && s'.contexts.Keys == s.contexts.Keys
    requires forall n {:trigger s'.nodes[n]} :: n in s.nodes ==>
               s'.nodes[n].backward == s.nodes[n].backward && s'.nodes[n].linker == s.nodes[n].linker
    requires t in s.places && t in s'.places && s'.places == s.places[t := s'.places[t]] && PlaceOk(s', s'.places[t])
    ensures PlacesOk(s')
  {
    forall u | u in s'.places
      ensures PlaceOk(s', s'.places[u])
    {
      assert PlaceOk(s, s.places[u]);
    }
  }

  lemma RegisterOwned(s: State, step: Step, s': State)
    requires PlacesOk(s) && Owned(s) && LinksOk(s) && step.Register? && NextAlone(s, step, s')
    ensures PlacesOk(s') && Owned(s') && LinksOk(s')
  {
    LinksSame(s, step.t, s');
    forall u | u in s'.places
      ensures PlaceOk(s', s'.places[u])
    {
      assert u in s.places ==> PlaceOk(s, s.places[u]);
    }
    OwnedSameNodes(s, step.t, s');
  }

  /** A step of thread t that neither acquires nor releases a node. */
  ghost predicate Quiet(s: State, t: Thread, s': State) {
    && s'.nodes == s.nodes && s'.contexts.Keys == s.contexts.Keys
    && t in s.places && t in s'.places && s'.places == s.places[t := s'.places[t]]
    && Held(s'.places[t]) == Held(s.places[t]) && (PlaceOk(s, s.places[t]) ==> PlaceOk(s', s'.places[t]))
    && !s.places[t].Linking? && !s'.places[t].Linking?
  }

  lemma QuietOwned(s: State, t: Thread, s': State)
    requires PlacesOk(s) && Owned(s) && LinksOk(s) && Quiet(s, t, s')
    ensures PlacesOk(s') && Owned(s') && LinksOk(s')
  {
    hide Owned, HoldsOk, LinksOk;
    LinksSame(s, t, s');
    assert PlaceOk(s, s.places[t]);
    PlacesSameLinks(s, t, s');
    OwnedSameNodes(s, t, s');
  }

  lemma DrainQuiet(s: State, step: Step, s': State)
    requires PlacesOk(s) && !step.Register? && NextAlone(s, step, s')
    requires step.DrainPop? || step.DrainAnswer?
    ensures Quiet(s, step.t, s')
  {
  }

  lemma PrepareQuiet(s: State, step: Step, s': State)
    requires PlacesOk(s) && !step.Register? && NextAlone(s, step, s')
    requires step.Prepare? || step.SetType? || step.Reset?
    ensures Quiet(s, step.t, s')
  {
  }

  lemma StartQuiet(s: State, step: Step, s': State)
    requires PlacesOk(s) && !step.Register? && NextAlone(s, step, s')
    requires step.Start? || step.DrainEmpty?
    ensures Quiet(s, step.t, s')
  {
  }

  lemma AloneQuiet(s: State, step: Step, s': State)
    requires PlacesOk(s) && !step.Register? && NextAlone(s, step, s')
    ensures Quiet(s, step.t, s')
  {
    hide PlacesOk, Quiet;
    if step.DrainPop? || step.DrainAnswer? {
      DrainQuiet(s, step, s');
    } else if step.Prepare? || step.SetType? || step.Reset? {
      PrepareQuiet(s, step, s');
    } else {
      StartQuiet(s, step, s');
    }
  }

  /** The two steps of async_update. */
  predicate Linkish(step: Step) {
    step.ServePublish? || step.ServeSetBackward?
  }

  /** store keeps a buffer sound, loses no key, and puts a new key with its value into a buffer with
      room. */
  lemma PutMeans(b: Buffer, k: Key, v: Value)
    requires Sound(b)
    ensures Sound(Put(b, k, v)) && Put(b, k, v).capacity == b.capacity
    ensures Has(Put(b, k, v).recs, k) <==> Has(b.recs, k) || HasRoom(b)
    ensures forall x {:trigger Has(b.recs, x)} :: Has(b.recs, x) ==> Has(Put(b, k, v).recs, x)
    ensures Contents(Put(b, k, v).recs) ==
            if HasRoom(b) && k !in Contents(b.recs) then Contents(b.recs)[k := v] else Contents(b.recs)
    ensures !HasRoom(b) ==> Put(b, k, v) == b
  {
    AfterStoreInserts(b.capacity, b.recs, k, v);
    ContentsHas(b.recs, k);
    ContentsHas(Put(b, k, v).recs, k);
    forall x | Has(b.recs, x)
      ensures Has(Put(b, k, v).recs, x)
    {
      ContentsHas(b.recs, x);
      ContentsHas(Put(b, k, v).recs, x);
    }
  }

  /** update keeps a buffer sound and its keys, and changes the value of its key, if that is there. */
  lemma ReplaceMeans(b: Buffer, k: Key, v: Value)
    requires Sound(b)
    ensures Sound(Replace(b, k, v)) && Replace(b, k, v).capacity == b.capacity
    ensures forall x {:trigger Has(b.recs, x)} :: Has(b.recs, x) ==> Has(Replace(b, k, v).recs, x)
    ensures Contents(Replace(b, k, v).recs) ==
            if k in Contents(b.recs) then Contents(b.recs)[k := v] else Contents(b.recs)
  {
    AfterUpdateChanges(b.recs, k, v);
    ContentsHas(b.recs, k);
    forall x | Has(b.recs, x)
      ensures Has(Replace(b, k, v).recs, x)
    {
      ContentsHas(b.recs, x);
      ContentsHas(Replace(b, k, v).recs, x);
    }
  }

  /** The own record goes in. */
  lemma OwnServerOk(p: Place)
    requires p.Serving? && ServerOk(p.op, p.predBuffer, p.realBuffer, p.stored)
    ensures p.op.kind == Insert ==>
              ServerOk(p.op, p.predBuffer, Put(p.realBuffer, p.op.key, p.op.value), HasRoom(p.realBuffer))
    ensures p.op.kind != Insert ==>
              ServerOk(p.op, p.predBuffer, Replace(p.realBuffer, p.op.key, p.op.value), true)
  {
    PutMeans(p.realBuffer, p.op.key, p.op.value);
    ReplaceMeans(p.realBuffer, p.op.key, p.op.value);
  }

  /** A request is dealt with. */
  lemma ServedOk(p: Place, anchor: Key, k: Key, v: Value)
    requires p.Serving? && ServerOk(p.op, p.predBuffer, p.realBuffer, p.stored)
    ensures var (pb, rb, _, _) := Served(p, anchor, k, v);
            ServerOk(p.op, pb, rb, p.stored)
  {
    PutMeans(p.predBuffer, k, v);
    PutMeans(p.realBuffer, k, v);
    ReplaceMeans(p.realBuffer, k, v);
  }

  lemma OwnQuiet(s: State, step: Step, s': State)
    requires !Linkish(step) && NextServe(s, step, s')
    requires step.ServeOwn? || step.ServeWiden? || step.ServeDone?
    ensures Quiet(s, step.t, s')
  {
    var p := s.places[step.t];
    if ServerOk(p.op, p.predBuffer, p.realBuffer, p.stored) {
      OwnServerOk(p);
    }
    hide Has, Distinct, Put, Replace;
  }

  lemma AnswerQuiet(s: State, step: Step, s': State)
    requires !Linkish(step) && NextServe(s, step, s')
    requires step.ServeAnswer?
    ensures Quiet(s, step.t, s')
  {
    var p, r := s.places[step.t], s.requests[s.places[step.t].inHand.value];
    if ServerOk(p.op, p.predBuffer, p.realBuffer, p.stored) {
      ServedOk(p, s.nodes[p.op.node].anchor, r.key, r.value);
    }
    hide ServerOk, Served;
  }

  lemma PopQuiet(s: State, step: Step, s': State)
    requires !Linkish(step) && NextServe(s, step, s')
    requires step.ServePop? || step.ServePushBack?
    ensures Quiet(s, step.t, s')
  {
  }

  lemma ServeQuiet(s: State, step: Step, s': State)
    requires !Linkish(step) && NextServe(s, step, s')
    ensures Quiet(s, step.t, s')
  {
    hide Quiet;
    if step.ServeOwn? || step.ServeWiden? || step.ServeDone? {
      OwnQuiet(s, step, s');
    } else if step.ServeAnswer? {
      AnswerQuiet(s, step, s');
    } else {
      PopQuiet(s, step, s');
    }
  }

  lemma AskQuiet(s: State, step: Step, s': State)
    requires NextLoser(s, step, s') && step.Subtract?
    ensures Quiet(s, step.t, s')
  {
  }

  lemma SendQuiet(s: State, step: Step, s': State)
    requires NextLoser(s, step, s') && step.Enqueue?
    ensures Quiet(s, step.t, s')
  {
  }

  lemma LoserQuiet(s: State, step: Step, s': State)
    requires NextLoser(s, step, s')
    ensures Quiet(s, step.t, s')
  {
    if step.Subtract? {
      hide NextLoser, Quiet;
      AskQuiet(s, step, s');
    } else if step.Enqueue? {
      hide NextLoser, Quiet;
      SendQuiet(s, step, s');
    }
  }

  lemma ReadQuiet(s: State, step: Step, s': State)
    requires step.ReadBackward? && NextCompete(s, step, s')
    ensures Quiet(s, step.t, s')
  {
  }

  lemma CompeteQuiet(s: State, step: Step, s': State)
    requires step.GiveUp? || step.Open? || step.Close? || step.ReadBackward?
    requires NextCompete(s, step, s')
    ensures Quiet(s, step.t, s')
  {
    if step.ReadBackward? {
      hide NextCompete, Quiet;
      ReadQuiet(s, step, s');
    }
  }

  lemma AloneOwned(s: State, step: Step, s': State)
    requires PlacesOk(s) && Owned(s) && LinksOk(s) && NextAlone(s, step, s')
    ensures PlacesOk(s') && Owned(s') && LinksOk(s')
  {
    hide NextAlone, PlacesOk, Owned, LinksOk, Quiet;
    if step.Register? {
      RegisterOwned(s, step, s');
    } else {
      AloneQuiet(s, step, s');
      QuietOwned(s, step.t, s');
    }
  }

  lemma LoserOwned(s: State, step: Step, s': State)
    requires PlacesOk(s) && Owned(s) && LinksOk(s) && NextLoser(s, step, s')
    ensures PlacesOk(s') && Owned(s') && LinksOk(s')
  {
    hide NextLoser, PlacesOk, Owned, LinksOk, Quiet;
    LoserQuiet(s, step, s');
    QuietOwned(s, step.t, s');
  }

  /** Thread t acquires the free node n, or releases n, which it holds. */
  ghost predicate OneNode(s: State, t: Thread, n: Node, s': State) {
    && t in s.places && t in s'.places && n in s.nodes && n in s'.nodes && s'.contexts.Keys == s.contexts.Keys
    && s'.nodes == s.nodes[n := s'.nodes[n]] && s'.nodes[n].backward == s.nodes[n].backward
    && s'.nodes[n].linker == s.nodes[n].linker && !s.places[t].Linking? && !s'.places[t].Linking?
    && s'.places == s.places[t := s'.places[t]] && PlaceOk(s', s'.places[t])
    && (|| (s.nodes[n].ctx == None && s'.nodes[n].ctx == Some(t) && Held(s'.places[t]) == Held(s.places[t]) + {n})
        || (n in Held(s.places[t]) && s'.nodes[n].ctx == None && Held(s'.places[t]) == Held(s.places[t]) - {n}))
  }

  lemma HoldsOneNode(s: State, t: Thread, n: Node, s': State, u: Thread)
    requires Owned(s) && OneNode(s, t, n, s') && u in s'.places
    ensures HoldsOk(s', u)
  {
    assert HoldsOk(s, t) && HoldsOk(s, u);
    hide PlaceOk, Held;
  }

  lemma NamesOneNode(s: State, t: Thread, n: Node, s': State, m: Node)
    requires Owned(s) && OneNode(s, t, n, s') && m in s'.nodes && s'.nodes[m].ctx.Some?
    ensures s'.nodes[m].ctx.value in s'.places && m in Held(s'.places[s'.nodes[m].ctx.value])
  {
    assert HoldsOk(s, t);
    hide PlaceOk, Held;
  }

  lemma OwnedOneNode(s: State, t: Thread, n: Node, s': State)
    requires PlacesOk(s) && Owned(s) && LinksOk(s) && OneNode(s, t, n, s')
    ensures PlacesOk(s') && Owned(s') && LinksOk(s')
  {
    PlacesSameLinks(s, t, s');
    LinksSame(s, t, s');
    hide PlaceOk, PlacesOk, OneNode, Held, HoldsOk, LinksOk;
    forall u | u in s'.places
      ensures HoldsOk(s', u)
    {
      HoldsOneNode(s, t, n, s', u);
    }
    forall m | m in s'.nodes && s'.nodes[m].ctx.Some?
      ensures s'.nodes[m].ctx.value in s'.places && m in Held(s'.places[s'.nodes[m].ctx.value])
    {
      NamesOneNode(s, t, n, s', m);
    }
  }

  lemma AcquireOne(s: State, step: Step, s': State, n: Node)
    requires (step.CasNode? || step.CasPred?) && NextCompete(s, step, s') && s'.nodes != s.nodes
    requires PlaceOk(s, s.places[step.t]) && HoldsOk(s, step.t)
    requires n == if step.CasPred? then s.places[step.t].left else s.places[step.t].op.node
    ensures OneNode(s, step.t, n, s')
  {
  }

  lemma AcquireFails(s: State, step: Step, s': State)
    requires (step.CasNode? || step.CasPred?) && NextCompete(s, step, s') && s'.nodes == s.nodes
    ensures Quiet(s, step.t, s')
  {
  }

  lemma AcquireOwned(s: State, step: Step, s': State)
    requires PlacesOk(s) && Owned(s) && LinksOk(s) && (step.CasNode? || step.CasPred?) && NextCompete(s, step, s')
    ensures PlacesOk(s') && Owned(s') && LinksOk(s')
  {
    var t := step.t;
    assert PlaceOk(s, s.places[t]) && HoldsOk(s, t);
    var n := if step.CasPred? then s.places[t].left else s.places[t].op.node;
    hide NextCompete, PlacesOk, PlaceOk, Owned, LinksOk, HoldsOk, Quiet, OneNode;
    if s'.nodes == s.nodes {
      AcquireFails(s, step, s');
      QuietOwned(s, t, s');
    } else {
      AcquireOne(s, step, s', n);
      OwnedOneNode(s, t, n, s');
    }
  }

  lemma ReleaseOne(s: State, step: Step, s': State, n: Node)
    requires (step.Drop? || step.ReleaseRight? || step.ReleaseLeft?) && NextCompete(s, step, s')
    requires PlaceOk(s, s.places[step.t]) && HoldsOk(s, step.t)
    requires Some(n) == if step.ReleaseLeft? then s.nodes[s.places[step.t].op.node].backward
             else Some(s.places[step.t].op.node)
    ensures OneNode(s, step.t, n, s')
  {
  }

  lemma ReleaseOwned(s: State, step: Step, s': State)
    requires PlacesOk(s) && Owned(s) && LinksOk(s) && (step.Drop? || step.ReleaseRight? || step.ReleaseLeft?) &&
             NextCompete(s, step, s')
    ensures PlacesOk(s') && Owned(s') && LinksOk(s')
  {
    var t := step.t;
    assert PlaceOk(s, s.places[t]) && HoldsOk(s, t);
    var n := if step.ReleaseLeft? then s.nodes[s.places[t].op.node].backward.value else s.places[t].op.node;
    hide PlacesOk, PlaceOk, Owned, LinksOk, HoldsOk, OneNode;
    ReleaseOne(s, step, s', n);
    OwnedOneNode(s, t, n, s');
  }

  lemma CompeteOwned(s: State, step: Step, s': State)
    requires PlacesOk(s) && Owned(s) && LinksOk(s) && NextCompete(s, step, s')
    ensures PlacesOk(s') && Owned(s') && LinksOk(s')
  {
    if step.CasNode? || step.CasPred? {
      AcquireOwned(s, step, s');
    } else if step.Drop? || step.ReleaseRight? || step.ReleaseLeft? {
      ReleaseOwned(s, step, s');
    } else {
      assert step.GiveUp? || step.Open? || step.Close? || step.ReadBackward?;
      hide NextCompete, PlacesOk, Owned, LinksOk, Quiet;
      CompeteQuiet(s, step, s');
      QuietOwned(s, step.t, s');
    }
  }

  /** Node n is new, or gets its backward pointer from the thread that links it. */
  ghost predicate Joins(s: State, t: Thread, n: Node, s': State) {
    && t in s.places && t in s'.places && n in s'.nodes && s'.nodes == s.nodes[n := s'.nodes[n]]
    && s'.contexts.Keys == s.contexts.Keys && s'.places == s.places[t := s'.places[t]]
    && Held(s'.places[t]) == Held(s.places[t]) && PlaceOk(s', s'.places[t])
    && (n in s.nodes ==>
          && s.nodes[n].backward == None && s'.nodes[n].backward.Some? && s'.nodes[n].ctx == s.nodes[n].ctx
          && s.nodes[n].linker == Some(t))
    && (n !in s.nodes ==> s'.nodes[n].ctx == None)
    && (s'.nodes[n].backward.Some? ==> s'.nodes[n].backward.value in s.nodes)
  }

  lemma JoinedPlace(s: State, t: Thread, n: Node, s': State, u: Thread)
    requires PlacesOk(s) && Joins(s, t, n, s') && u in s'.places
    ensures PlaceOk(s', s'.places[u])
  {
    assert PlaceOk(s, s.places[u]);
  }

  lemma JoinedHolds(s: State, t: Thread, n: Node, s': State, u: Thread)
    requires Owned(s) && Joins(s, t, n, s') && u in s'.places
    ensures HoldsOk(s', u)
  {
    hide PlaceOk, Held;
    assert HoldsOk(s, u);
  }

  lemma JoinedLink(s: State, t: Thread, n: Node, s': State, u: Thread)
    requires LinksOk(s) && Joins(s, t, n, s') && LinkOk(s', t) && u in s'.places
    ensures LinkOk(s', u)
  {
    hide PlaceOk, Held;
    assert LinkOk(s, u);
  }

  /** What becomes of the thread that links: it is at it exactly if the node has no backward pointer. */
  ghost predicate Links(t: Thread, n: Node, s': State)
    requires t in s'.places && n in s'.nodes
  {
    var p := s'.places[t];
    && (p.Linking? <==> s'.nodes[n].linker == Some(t)) && (p.Linking? ==> p.node == n)
    && (s'.nodes[n].linker.Some? ==> s'.nodes[n].linker == Some(t))
  }

  lemma JoinedOwned(s: State, t: Thread, n: Node, s': State)
    requires Owned(s) && Joins(s, t, n, s')
    ensures Owned(s')
  {
    forall u | u in s'.places
      ensures HoldsOk(s', u)
    {
      JoinedHolds(s, t, n, s', u);
    }
    hide PlaceOk, Held, HoldsOk;
  }

  lemma JoinedPlaces(s: State, t: Thread, n: Node, s': State)
    requires PlacesOk(s) && Joins(s, t, n, s')
    ensures PlacesOk(s')
  {
    forall u | u in s'.places
      ensures PlaceOk(s', s'.places[u])
    {
      JoinedPlace(s, t, n, s', u);
    }
    hide PlaceOk, Held;
  }

  lemma JoinedLinks(s: State, t: Thread, n: Node, s': State)
    requires LinksOk(s) && Joins(s, t, n, s') && LinkOk(s', t) && Links(t, n, s')
    requires s.places[t].Linking? ==> s.places[t].node == n
    ensures LinksOk(s')
  {
    forall u | u in s'.places
      ensures LinkOk(s', u)
    {
      JoinedLink(s, t, n, s', u);
    }
    hide PlaceOk, Held, LinkOk;
  }

  /** The new node is linked. */
  lemma PublishJoins(s: State, step: Step, s': State)
    requires step.t in s.places && PlaceOk(s, s.places[step.t]) && LinkOk(s, step.t)
    requires s.contexts.Keys == s.places.Keys
    requires step.ServePublish? && NextServe(s, step, s')
    ensures Joins(s, step.t, step.node, s') && LinkOk(s', step.t) && Links(step.t, step.node, s')
    ensures !s.places[step.t].Linking?
  {
  }

  /** The new node gets its backward pointer. */
  lemma BackwardJoins(s: State, step: Step, s': State)
    requires step.t in s.places && PlaceOk(s, s.places[step.t]) && LinkOk(s, step.t)
    requires step.ServeSetBackward? && NextServe(s, step, s')
    ensures var n := s.places[step.t].node;
            Joins(s, step.t, n, s') && LinkOk(s', step.t) && Links(step.t, n, s')
  {
  }

  lemma LinkOwned(s: State, step: Step, s': State)
    requires PlacesOk(s) && Owned(s) && LinksOk(s) && Linkish(step) && NextServe(s, step, s')
    ensures PlacesOk(s') && Owned(s') && LinksOk(s')
  {
    assert PlaceOk(s, s.places[step.t]) && LinkOk(s, step.t) && s.contexts.Keys == s.places.Keys;
    hide PlacesOk, Owned, LinksOk, PlaceOk, LinkOk, Joins, Links;
    var n;
    if step.ServePublish? {
      PublishJoins(s, step, s');
      n := step.node;
    } else {
      BackwardJoins(s, step, s');
      n := s.places[step.t].node;
    }
    JoinedOwned(s, step.t, n, s');
    JoinedPlaces(s, step.t, n, s');
    JoinedLinks(s, step.t, n, s');
  }

  lemma ServeOwned(s: State, step: Step, s': State)
    requires PlacesOk(s) && Owned(s) && LinksOk(s) && NextServe(s, step, s')
    ensures PlacesOk(s') && Owned(s') && LinksOk(s')
  {
    hide NextServe, PlacesOk, Owned, LinksOk, Quiet;
    if Linkish(step) {
      LinkOwned(s, step, s');
    } else {
      ServeQuiet(s, step, s');
      QuietOwned(s, step.t, s');
    }
  }

  // ---------------------------------------------------------------- waiting

  /** In failed_write, or on the way into it. */
  predicate Waiting(p: Place) {
    p.Checking? || p.Spinning? || p.Subtracting? || p.Enqueueing? || p.Awaiting?
  }

  /** Whoever t waits for has, if itself waiting, lost a later competition than t. */
  ghost predicate WaitOk(s: State, t: Thread)
    requires t in s.places
  {
    var p := s.places[t];
    Waiting(p) ==>
      && p.since < s.clock && p.owner in s.places
      && (Waiting(s.places[p.owner]) ==> p.since < s.places[p.owner].since)
  }

  ghost predicate WaitsOk(s: State) {
    forall t {:trigger WaitOk(s, t)} :: t in s.places ==> WaitOk(s, t)
  }

  /** Thread t goes on waiting as it did, or does not wait any more, or never did. */
  ghost predicate StartsNoWait(s: State, t: Thread, s': State) {
    && s'.clock == s.clock && t in s'.places && s'.places == s.places[t := s'.places[t]]
    && (Waiting(s'.places[t]) ==>
          && t in s.places && Waiting(s.places[t])
          && s'.places[t].owner == s.places[t].owner && s'.places[t].since == s.places[t].since)
  }

  /** A wait may go on or end; neither disturbs the others. */
  lemma WaitsOneThread(s: State, t: Thread, s': State)
    requires WaitsOk(s) && StartsNoWait(s, t, s')
    ensures WaitsOk(s')
  {
    forall u | u in s'.places
      ensures WaitOk(s', u)
    {
      assert u in s.places ==> WaitOk(s, u);
    }
  }

  lemma AloneStartsNoWait(s: State, step: Step, s': State)
    requires NextAlone(s, step, s')
    ensures StartsNoWait(s, step.t, s')
  {
  }

  lemma CompeteStartsNoWait(s: State, step: Step, s': State)
    requires NextCompete(s, step, s') && (step.CasNode? ==> s'.clock == s.clock)
    ensures StartsNoWait(s, step.t, s')
  {
  }

  lemma ServeStartsNoWait(s: State, step: Step, s': State)
    requires NextServe(s, step, s')
    ensures StartsNoWait(s, step.t, s')
  {
  }

  lemma LoserStartsNoWait(s: State, step: Step, s': State)
    requires NextLoser(s, step, s')
    ensures StartsNoWait(s, step.t, s')
  {
  }

  /** Only a failed compare-and-swap starts a wait, and then for a thread that holds a node. */
  lemma LostWaits(s: State, t: Thread, s': State)
    requires Owned(s) && WaitsOk(s) && NextCompete(s, CasNode(t), s') && s'.clock != s.clock
    ensures WaitsOk(s')
  {
    var o := s'.places[t].owner;
    assert HoldsOk(s, o) && HoldsOk(s, t);
    assert !Waiting(s.places[o]) && !Waiting(s.places[t]);
    forall u | u in s'.places
      ensures WaitOk(s', u)
    {
      assert WaitOk(s, u);
    }
  }

  lemma StepWaits(s: State, step: Step, s': State)
    requires Owned(s) && WaitsOk(s) && Next(s, step, s')
    ensures WaitsOk(s')
  {
    hide NextAlone, NextCompete, NextServe, NextLoser, Owned, WaitsOk, StartsNoWait;
    if NextAlone(s, step, s') {
      AloneStartsNoWait(s, step, s');
    } else if NextServe(s, step, s') {
      ServeStartsNoWait(s, step, s');
    } else if NextLoser(s, step, s') {
      LoserStartsNoWait(s, step, s');
    } else if step.CasNode? && s'.clock != s.clock {
      LostWaits(s, step.t, s');
      return;
    } else {
      CompeteStartsNoWait(s, step, s');
    }
    WaitsOneThread(s, step.t, s');
  }

  // ---------------------------------------------------------------- admission

  /** admitted + max(0, max_depth) <= 4. */
  ghost predicate AdmissionOk(s: State) {
    forall t {:trigger s.contexts[t]} :: t in s.contexts ==>
      s.contexts[t].admitted + (if s.contexts[t].maxDepth > 0 then s.contexts[t].maxDepth else 0) <= 4
  }

  lemma PrepareAdmission(s: State, step: Step, s': State)
    requires AdmissionOk(s) && NextAlone(s, step, s')
    requires step.Prepare? || step.SetType? || step.Reset?
    ensures AdmissionOk(s')
  {
  }

  lemma StartAdmission(s: State, step: Step, s': State)
    requires AdmissionOk(s) && NextAlone(s, step, s')
    requires step.Register? || step.Start? || step.DrainEmpty? || step.DrainPop? || step.DrainAnswer?
    ensures AdmissionOk(s')
  {
  }

  lemma AloneAdmission(s: State, step: Step, s': State)
    requires AdmissionOk(s) && NextAlone(s, step, s')
    ensures AdmissionOk(s')
  {
    hide AdmissionOk;
    if step.Prepare? || step.SetType? || step.Reset? {
      PrepareAdmission(s, step, s');
    } else {
      StartAdmission(s, step, s');
    }
  }

  lemma DepthAdmission(s: State, step: Step, s': State)
    requires AdmissionOk(s) && NextCompete(s, step, s')
    requires step.GiveUp? || step.Open? || step.Close? || step.ReadBackward?
    ensures AdmissionOk(s')
  {
  }

  lemma CtxAdmission(s: State, step: Step, s': State)
    requires AdmissionOk(s) && NextCompete(s, step, s')
    requires step.CasNode? || step.CasPred? || step.Drop? || step.ReleaseRight? || step.ReleaseLeft?
    ensures AdmissionOk(s')
  {
  }

  lemma CompeteAdmission(s: State, step: Step, s': State)
    requires AdmissionOk(s) && NextCompete(s, step, s')
    ensures AdmissionOk(s')
  {
    hide AdmissionOk;
    if step.GiveUp? || step.Open? || step.Close? || step.ReadBackward? {
      DepthAdmission(s, step, s');
    } else {
      CtxAdmission(s, step, s');
    }
  }

  lemma ServeAdmission(s: State, step: Step, s': State)
    requires AdmissionOk(s) && NextServe(s, step, s')
    ensures AdmissionOk(s')
  {
  }

  lemma LoserAdmission(s: State, step: Step, s': State)
    requires AdmissionOk(s) && NextLoser(s, step, s')
    ensures AdmissionOk(s')
  {
  }

  lemma StepAdmission(s: State, step: Step, s': State)
    requires AdmissionOk(s) && Next(s, step, s')
    ensures AdmissionOk(s')
  {
    hide NextAlone, NextCompete, NextServe, NextLoser, AdmissionOk;
    if NextAlone(s, step, s') {
      AloneAdmission(s, step, s');
    } else if NextCompete(s, step, s') {
      CompeteAdmission(s, step, s');
    } else if NextServe(s, step, s') {
      ServeAdmission(s, step, s');
    } else {
      LoserAdmission(s, step, s');
    }
  }

  // ---------------------------------------------------------------- requests

  /** The request a thread has popped and not yet dealt with. */
  function HandOf(p: Place): Option<RequestId> {
    match p
    case DrainHand(_, hand) => Some(hand)
    case Serving(_, _, inHand, _, _, _) => inHand
    case _ => None
  }

  ghost predicate NoDuplicates(q: seq<RequestId>) {
    forall i, j :: 0 <= i < j < |q| ==> q[i] != q[j]
  }

  /** A pending request is in its context's queue or in the owner's hand, and not in both, and its
      sender waits for it; an answered one is in neither, and its context's owner answered it. */
  ghost predicate RequestOk(s: State, rid: RequestId)
    requires rid in s.requests
  {
    var r := s.requests[rid];
    && r.to in s.places && r.to in s.contexts && r.from in s.places
    && match r.status
       case Pending =>
         && (rid in s.contexts[r.to].queue <==> HandOf(s.places[r.to]) != Some(rid))
         && s.places[r.from].Awaiting? && s.places[r.from].rid == rid
       case Answered(server, _, _) =>
         server == r.to && rid !in s.contexts[r.to].queue && HandOf(s.places[r.to]) != Some(rid)
  }

  /** What a thread has queued or in hand was sent to it; what it awaits it has sent. */
  ghost predicate MailOk(s: State, t: Thread)
    requires t in s.places && t in s.contexts
  {
    && NoDuplicates(s.contexts[t].queue)
    && (forall rid :: rid in s.contexts[t].queue || HandOf(s.places[t]) == Some(rid) ==>
          rid in s.requests && s.requests[rid].to == t)
    && (s.places[t].Awaiting? ==>
          && s.places[t].rid in s.requests
          && s.requests[s.places[t].rid].from == t && s.requests[s.places[t].rid].to == s.places[t].owner
          && s.requests[s.places[t].rid].key == s.places[t].op.key
          && s.requests[s.places[t].rid].value == s.places[t].op.value)
  }

  ghost predicate RequestsOk(s: State) {
    && s.contexts.Keys == s.places.Keys
    && (forall rid {:trigger RequestOk(s, rid)} :: rid in s.requests ==> RequestOk(s, rid))
    && (forall t {:trigger MailOk(s, t)} :: t in s.places ==> MailOk(s, t))
  }

  ghost predicate SameQueues(s: State, s': State) {
    && s.contexts.Keys <= s'.contexts.Keys
    && (forall u {:trigger s'.contexts[u]} :: u in s.contexts ==> s'.contexts[u].queue == s.contexts[u].queue)
  }

  /** A step of thread t that touches no request and no queue. */
  ghost predicate Unmailed(s: State, t: Thread, s': State) {
    && s'.requests == s.requests && SameQueues(s, s')
    && s'.contexts.Keys == s'.places.Keys && t in s'.places && s'.places == s.places[t := s'.places[t]]
    && (t !in s.places ==> HandOf(s'.places[t]) == None && !s'.places[t].Awaiting? && s'.contexts[t].queue == [])
    && (t in s.places ==>
          && HandOf(s'.places[t]) == HandOf(s.places[t])
          && (s'.places[t].Awaiting? ==> s'.places[t] == s.places[t])
          && (s.places[t].Awaiting? && !s'.places[t].Awaiting? ==>
                s.places[t].rid in s.requests && s.requests[s.places[t].rid].status.Answered?))
  }

  lemma RequestsUntouched(s: State, t: Thread, s': State)
    requires RequestsOk(s) && Unmailed(s, t, s')
    ensures RequestsOk(s')
  {
    forall rid | rid in s'.requests
      ensures RequestOk(s', rid)
    {
      assert RequestOk(s, rid);
    }
    forall u | u in s'.places
      ensures MailOk(s', u)
    {
      assert u in s.places ==> MailOk(s, u);
    }
  }

  /** The owner takes the first request of its queue into its hand. */
  lemma RequestPopped(s: State, t: Thread, s': State)
    requires RequestsOk(s) && t in s.places && t in s.contexts && t in s'.places && t in s'.contexts
    requires s'.requests == s.requests && s.contexts[t].queue != [] && HandOf(s.places[t]) == None
    requires s'.contexts == s.contexts[t := s.contexts[t].(queue := s.contexts[t].queue[1..])]
    requires s'.places == s.places[t := s'.places[t]] && !s.places[t].Awaiting? && !s'.places[t].Awaiting?
    requires HandOf(s'.places[t]) == Some(s.contexts[t].queue[0])
    ensures RequestsOk(s')
  {
    var q := s.contexts[t].queue;
    assert MailOk(s, t);
    assert q == [q[0]] + q[1..];
    forall rid | rid in s'.requests
      ensures RequestOk(s', rid)
    {
      assert RequestOk(s, rid);
    }
    forall u | u in s'.places
      ensures MailOk(s', u)
    {
      assert MailOk(s, u);
      assert forall rid :: rid in q[1..] ==> rid in q;
    }
  }

  /** The owner answers the request in its hand. */
  lemma RequestAnswered(s: State, t: Thread, rid: RequestId, s': State)
    requires RequestsOk(s) && t in s.places && t in s'.places && HandOf(s.places[t]) == Some(rid)
    requires rid in s.requests && rid in s'.requests && s'.contexts == s.contexts
    requires s'.requests == s.requests[rid := s'.requests[rid]]
    requires s'.requests[rid] == s.requests[rid].(status := s'.requests[rid].status)
    requires s'.requests[rid].status.Answered? && s'.requests[rid].status.server == t
    requires s'.places == s.places[t := s'.places[t]] && !s.places[t].Awaiting? && !s'.places[t].Awaiting?
    requires HandOf(s'.places[t]) == None
    ensures RequestsOk(s') && s.requests[rid].status == Pending
  {
    assert MailOk(s, t) && RequestOk(s, rid);
    forall id | id in s'.requests
      ensures RequestOk(s', id)
    {
      assert RequestOk(s, id);
    }
    forall u | u in s'.places
      ensures MailOk(s', u)
    {
      assert MailOk(s, u);
    }
  }

  /** The owner puts the request in its hand back, to the end of its queue. */
  lemma RequestPushedBack(s: State, t: Thread, rid: RequestId, s': State)
    requires RequestsOk(s) && t in s.places && t in s'.places && t in s.contexts && HandOf(s.places[t]) == Some(rid)
    requires s'.requests == s.requests
    requires s'.contexts == s.contexts[t := s.contexts[t].(queue := s.contexts[t].queue + [rid])]
    requires s'.places == s.places[t := s'.places[t]] && !s.places[t].Awaiting? && !s'.places[t].Awaiting?
    requires HandOf(s'.places[t]) == None
    ensures RequestsOk(s') && rid in s.requests && s.requests[rid].status == Pending
  {
    assert MailOk(s, t);
    assert RequestOk(s, rid);
    forall id | id in s'.requests
      ensures RequestOk(s', id)
    {
      assert RequestOk(s, id);
    }
    forall u | u in s'.places
      ensures MailOk(s', u)
    {
      assert MailOk(s, u);
    }
  }

  /** A loser puts a new request on the context it lost to. */
  lemma SentRequest(s: State, t: Thread, rid: RequestId, s': State, id: RequestId)
    requires RequestsOk(s) && WaitsOk(s) && NextLoser(s, Enqueue(t, rid), s') && id in s'.requests
    ensures RequestOk(s', id)
  {
    var o := s.places[t].owner;
    assert WaitOk(s, t);
    assert MailOk(s, o) && rid !in s.contexts[o].queue && HandOf(s.places[o]) != Some(rid);
    if id != rid {
      assert RequestOk(s, id);
    }
  }

  lemma SentMail(s: State, t: Thread, rid: RequestId, s': State, u: Thread)
    requires RequestsOk(s) && WaitsOk(s) && NextLoser(s, Enqueue(t, rid), s') && u in s'.places
    ensures u in s'.contexts && MailOk(s', u)
  {
    var o := s.places[t].owner;
    assert WaitOk(s, t);
    assert MailOk(s, o) && rid !in s.contexts[o].queue && HandOf(s.places[o]) != Some(rid);
    assert MailOk(s, u);
  }

  lemma RequestSent(s: State, t: Thread, rid: RequestId, s': State)
    requires RequestsOk(s) && WaitsOk(s) && NextLoser(s, Enqueue(t, rid), s')
    ensures RequestsOk(s')
  {
    assert WaitOk(s, t);
    assert s'.contexts.Keys == s'.places.Keys;
    hide RequestOk, MailOk, NextLoser, WaitsOk;
    forall id | id in s'.requests
      ensures RequestOk(s', id)
    {
      SentRequest(s, t, rid, s', id);
    }
    forall u | u in s'.places
      ensures MailOk(s', u)
    {
      SentMail(s, t, rid, s', u);
    }
  }

  /** The steps that move or answer a request. */
  predicate Mailing(step: Step) {
    step.DrainPop? || step.DrainAnswer? || step.ServePop? || step.ServeAnswer? || step.ServePushBack? ||
    step.Enqueue?
  }

  lemma PrepareUnmailed(s: State, step: Step, s': State)
    requires s.contexts.Keys == s.places.Keys && !Mailing(step) && NextAlone(s, step, s')
    requires step.Prepare? || step.SetType? || step.Reset?
    ensures Unmailed(s, step.t, s')
  {
  }

  lemma StartUnmailed(s: State, step: Step, s': State)
    requires s.contexts.Keys == s.places.Keys && !Mailing(step) && NextAlone(s, step, s')
    requires step.Register? || step.Start? || step.DrainEmpty?
    ensures Unmailed(s, step.t, s')
  {
  }

  lemma AloneUnmailed(s: State, step: Step, s': State)
    requires s.contexts.Keys == s.places.Keys && !Mailing(step) && NextAlone(s, step, s')
    ensures Unmailed(s, step.t, s')
  {
    hide Unmailed;
    if step.Prepare? || step.SetType? || step.Reset? {
      PrepareUnmailed(s, step, s');
    } else {
      StartUnmailed(s, step, s');
    }
  }

  lemma DepthUnmailed(s: State, step: Step, s': State)
    requires s.contexts.Keys == s.places.Keys && NextCompete(s, step, s')
    requires step.GiveUp? || step.Open? || step.Close? || step.ReadBackward?
    ensures Unmailed(s, step.t, s')
  {
  }

  lemma CasUnmailed(s: State, step: Step, s': State)
    requires s.contexts.Keys == s.places.Keys && NextCompete(s, step, s')
    requires step.CasNode? || step.CasPred?
    ensures Unmailed(s, step.t, s')
  {
  }

  lemma ReleaseUnmailed(s: State, step: Step, s': State)
    requires s.contexts.Keys == s.places.Keys && NextCompete(s, step, s')
    requires step.Drop? || step.ReleaseRight? || step.ReleaseLeft?
    ensures Unmailed(s, step.t, s')
  {
  }

  lemma CompeteUnmailed(s: State, step: Step, s': State)
    requires s.contexts.Keys == s.places.Keys && NextCompete(s, step, s')
    ensures Unmailed(s, step.t, s')
  {
    hide Unmailed;
    if step.GiveUp? || step.Open? || step.Close? || step.ReadBackward? {
      DepthUnmailed(s, step, s');
    } else if step.CasNode? || step.CasPred? {
      CasUnmailed(s, step, s');
    } else {
      ReleaseUnmailed(s, step, s');
    }
  }

  lemma LinkUnmailed(s: State, step: Step, s': State)
    requires s.contexts.Keys == s.places.Keys && Linkish(step) && NextServe(s, step, s')
    ensures Unmailed(s, step.t, s')
  {
  }

  lemma ServeUnmailed(s: State, step: Step, s': State)
    requires s.contexts.Keys == s.places.Keys && !Mailing(step) && NextServe(s, step, s')
    ensures Unmailed(s, step.t, s')
  {
    if Linkish(step) {
      hide NextServe, Unmailed;
      LinkUnmailed(s, step, s');
    }
  }

  lemma LoserUnmailed(s: State, step: Step, s': State)
    requires s.contexts.Keys == s.places.Keys && !Mailing(step) && NextLoser(s, step, s')
    ensures Unmailed(s, step.t, s')
  {
  }

  lemma DrainRequests(s: State, step: Step, s': State)
    requires RequestsOk(s) && (step.DrainPop? || step.DrainAnswer?) && NextAlone(s, step, s')
    ensures RequestsOk(s')
  {
    hide RequestsOk;
    if step.DrainPop? {
      RequestPopped(s, step.t, s');
    } else {
      RequestAnswered(s, step.t, s.places[step.t].hand, s');
    }
  }

  lemma ServedRequests(s: State, step: Step, s': State)
    requires RequestsOk(s) && Mailing(step) && NextServe(s, step, s')
    ensures RequestsOk(s')
  {
    hide RequestsOk;
    match step {
      case ServePop(t) => RequestPopped(s, t, s');
      case ServeAnswer(t) => RequestAnswered(s, t, s.places[t].inHand.value, s');
      case ServePushBack(t) => RequestPushedBack(s, t, s.places[t].inHand.value, s');
    }
  }

  lemma MailingRequests(s: State, step: Step, s': State)
    requires RequestsOk(s) && PlacesOk(s) && WaitsOk(s) && Mailing(step) && Next(s, step, s')
    ensures RequestsOk(s')
  {
    hide RequestsOk, PlacesOk, WaitsOk;
    if step.Enqueue? {
      assert NextLoser(s, Enqueue(step.t, step.rid), s');
      hide NextAlone, NextCompete, NextServe, NextLoser;
      RequestSent(s, step.t, step.rid, s');
    } else if step.DrainPop? || step.DrainAnswer? {
      DrainRequests(s, step, s');
    } else {
      ServedRequests(s, step, s');
    }
  }

  // ---------------------------------------------------------------- runs

  ghost predicate Inv(s: State) {
    PlacesOk(s) && Owned(s) && LinksOk(s) && WaitsOk(s) && AdmissionOk(s) && RequestsOk(s)
  }

  lemma InitInv(s: State)
    requires Init(s)
    ensures Inv(s)
  {
    InitOwned(s);
  }

  lemma NextKeepsInv(s: State, step: Step, s': State)
    requires Inv(s) && Next(s, step, s')
    ensures Inv(s')
  {
    hide NextAlone, NextCompete, NextServe, NextLoser, RequestsOk, PlacesOk, WaitsOk, Owned, LinksOk, AdmissionOk;
    StepWaits(s, step, s');
    StepAdmission(s, step, s');
    if NextAlone(s, step, s') {
      AloneOwned(s, step, s');
    } else if NextCompete(s, step, s') {
      CompeteOwned(s, step, s');
    } else if NextServe(s, step, s') {
      ServeOwned(s, step, s');
    } else {
      LoserOwned(s, step, s');
    }
    NextKeepsRequests(s, step, s');
  }

  lemma NextKeepsRequests(s: State, step: Step, s': State)
    requires RequestsOk(s) && PlacesOk(s) && WaitsOk(s) && Next(s, step, s')
    ensures RequestsOk(s')
  {
    assert s.contexts.Keys == s.places.Keys;
    hide NextAlone, NextCompete, NextServe, NextLoser, RequestsOk, PlacesOk, WaitsOk, Unmailed;
    if Mailing(step) {
      MailingRequests(s, step, s');
      return;
    } else if NextAlone(s, step, s') {
      AloneUnmailed(s, step, s');
    } else if NextCompete(s, step, s') {
      CompeteUnmailed(s, step, s');
    } else if NextServe(s, step, s') {
      ServeUnmailed(s, step, s');
    } else {
      LoserUnmailed(s, step, s');
    }
    RequestsUntouched(s, step.t, s');
  }

  ghost predicate CanStep(s: State, s': State) {
    exists step :: Next(s, step, s')
  }

  ghost predicate StepAt(ss: seq<State>, i: nat)
    requires i + 1 < |ss|
  {
    CanStep(ss[i], ss[i + 1])
  }

  ghost predicate Run(ss: seq<State>) {
    && ss != [] && Init(ss[0])
    && (forall i {:trigger StepAt(ss, i)} :: 0 <= i < |ss| - 1 ==> StepAt(ss, i))
  }

  lemma {:induction false} RunKeepsInv(ss: seq<State>, i: nat)
    requires Run(ss) && i < |ss|
    ensures Inv(ss[i])
  {
    hide Inv, Next;
    if i == 0 {
      InitInv(ss[0]);
    } else {
      RunKeepsInv(ss, i - 1);
      assert StepAt(ss, i - 1);
      var step :| Next(ss[i - 1], step, ss[i]);
      NextKeepsInv(ss[i - 1], step, ss[i]);
    }
  }

  // ---------------------------------------------------------------- what it means

  /** In every state of every run a node's context names a thread exactly when that thread is
      between acquiring the node and releasing it; so no two threads hold a node, and an insert that
      has won holds its data node and that node's predecessor. */
  lemma NodesAreOwnedByTheirWinners(ss: seq<State>, i: nat, n: Node)
    requires Run(ss) && i < |ss| && n in ss[i].nodes
    ensures forall t :: ss[i].nodes[n].ctx == Some(t) <==> t in ss[i].places && n in Held(ss[i].places[t])
    ensures forall t, u :: t in ss[i].places && u in ss[i].places && t != u ==>
              Held(ss[i].places[t]) !! Held(ss[i].places[u])
    ensures forall t :: t in ss[i].places && ss[i].places[t].Serving? && ss[i].places[t].op.kind == Insert ==>
              var r := ss[i].places[t].op.node;
              && r in ss[i].nodes && ss[i].nodes[r].ctx == Some(t)
              && ss[i].nodes[r].backward.Some? && ss[i].nodes[r].backward.value in ss[i].nodes
              && ss[i].nodes[ss[i].nodes[r].backward.value].ctx == Some(t)
  {
    RunKeepsInv(ss, i);
    var s := ss[i];
    forall t | t in s.places
      ensures HoldsOk(s, t) && PlaceOk(s, s.places[t])
    {
    }
  }

  /** A step moves one thread and makes no node disappear. */
  ghost predicate MovesOne(s: State, t: Thread, s': State) {
    t in s'.places && s'.places == s.places[t := s'.places[t]] && s.nodes.Keys <= s'.nodes.Keys
  }

  lemma AloneMovesOne(s: State, step: Step, s': State)
    requires NextAlone(s, step, s')
    ensures MovesOne(s, step.t, s')
  {
  }

  lemma CompeteMovesOne(s: State, step: Step, s': State)
    requires NextCompete(s, step, s')
    ensures MovesOne(s, step.t, s')
  {
  }

  lemma ServeMovesOne(s: State, step: Step, s': State)
    requires NextServe(s, step, s')
    ensures MovesOne(s, step.t, s')
  {
  }

  lemma LoserMovesOne(s: State, step: Step, s': State)
    requires NextLoser(s, step, s')
    ensures MovesOne(s, step.t, s')
  {
  }

  lemma StepMovesOne(s: State, step: Step, s': State)
    requires Next(s, step, s')
    ensures MovesOne(s, step.t, s')
  {
    hide NextAlone, NextCompete, NextServe, NextLoser, MovesOne;
    if NextAlone(s, step, s') {
      AloneMovesOne(s, step, s');
    } else if NextCompete(s, step, s') {
      CompeteMovesOne(s, step, s');
    } else if NextServe(s, step, s') {
      ServeMovesOne(s, step, s');
    } else {
      LoserMovesOne(s, step, s');
    }
  }

  /** A node is taken from a thread by no step but its own. */
  lemma OnlyTheOwnerReleases(ss: seq<State>, i: nat, step: Step, n: Node, t: Thread)
    requires Run(ss) && i + 1 < |ss| && Next(ss[i], step, ss[i + 1])
    requires n in ss[i].nodes && ss[i].nodes[n].ctx == Some(t)
    ensures n in ss[i + 1].nodes && (ss[i + 1].nodes[n].ctx == Some(t) ||
            (ss[i + 1].nodes[n].ctx == None && step.t == t))
  {
    RunKeepsInv(ss, i);
    RunKeepsInv(ss, i + 1);
    OwnerSteps(ss[i], step, ss[i + 1], n, t);
  }

  lemma OwnerSteps(s: State, step: Step, s': State, n: Node, t: Thread)
    requires Owned(s) && Owned(s') && Next(s, step, s') && n in s.nodes && s.nodes[n].ctx == Some(t)
    ensures n in s'.nodes && (s'.nodes[n].ctx == Some(t) || (s'.nodes[n].ctx == None && step.t == t))
  {
    StepMovesOne(s, step, s');
    assert HoldsOk(s', t);
    var owner := s'.nodes[n].ctx;
    if owner.Some? && owner.value in s.places {
      assert HoldsOk(s, owner.value);
    }
  }

  /** Some thread is between linking node n and setting its backward pointer. */
  ghost predicate BeingLinked(s: State, n: Node) {
    exists u {:trigger s.places[u]} :: u in s.places && s.places[u].Linking? && s.places[u].node == n
  }

  /** An insert reads a null predecessor exactly if its node is being linked just then, and it crashes
      exactly if it then wins that node. */
  lemma CrashesIff(ss: seq<State>, i: nat, t: Thread, s': State)
    requires Run(ss) && i < |ss| && t in ss[i].places
    ensures NextCompete(ss[i], ReadBackward(t), s') ==>
              (s'.places[t].backward == None <==> BeingLinked(ss[i], ss[i].places[t].op.node))
    ensures NextCompete(ss[i], CasNode(t), s') ==>
              (s'.places[t].Crashed? <==>
                 && ss[i].places[t].op.kind == Insert && ss[i].places[t].backward == None
                 && ss[i].nodes[ss[i].places[t].op.node].ctx == None)
  {
    var s := ss[i];
    RunKeepsInv(ss, i);
    assert PlaceOk(s, s.places[t]);
    if NextCompete(s, ReadBackward(t), s') {
      var n := s.places[t].op.node;
      if s.nodes[n].linker.Some? {
        assert LinkOk(s, s.nodes[n].linker.value);
      }
      forall u | u in s.places && s.places[u].Linking? && s.places[u].node == n
        ensures s.nodes[n].backward == None
      {
        assert LinkOk(s, u);
      }
    }
  }

  lemma CrashedStays(s: State, step: Step, s': State, t: Thread)
    requires Next(s, step, s') && t in s.places && s.places[t].Crashed?
    ensures t in s'.places && s'.places[t] == s.places[t]
  {
    StepMovesOne(s, step, s');
    hide MovesOne, NextAlone, NextCompete, NextServe, NextLoser;
    if step.t == t {
      CrashedAlone(s, step, s');
      CrashedCompete(s, step, s');
      CrashedServe(s, step, s');
      CrashedLoser(s, step, s');
    }
  }

  lemma CrashedAlone(s: State, step: Step, s': State)
    requires step.t in s.places && s.places[step.t].Crashed?
    ensures !NextAlone(s, step, s')
  {
  }

  lemma CrashedCompete(s: State, step: Step, s': State)
    requires step.t in s.places && s.places[step.t].Crashed?
    ensures !NextCompete(s, step, s')
  {
  }

  lemma CrashedServe(s: State, step: Step, s': State)
    requires step.t in s.places && s.places[step.t].Crashed?
    ensures !NextServe(s, step, s')
  {
  }

  lemma CrashedLoser(s: State, step: Step, s': State)
    requires step.t in s.places && s.places[step.t].Crashed?
    ensures !NextLoser(s, step, s')
  {
  }

  /** A thread that has crashed keeps its node for good. */
  lemma {:induction false} CrashIsFinal(ss: seq<State>, i: nat, j: nat, t: Thread)
    requires Run(ss) && i <= j < |ss| && t in ss[i].places && ss[i].places[t].Crashed?
    ensures t in ss[j].places && ss[j].places[t] == ss[i].places[t]
    ensures var n := ss[i].places[t].op.node; n in ss[j].nodes && ss[j].nodes[n].ctx == Some(t)
  {
    if i < j {
      CrashIsFinal(ss, i, j - 1, t);
      assert StepAt(ss, j - 1);
      var step :| Next(ss[j - 1], step, ss[j]);
      CrashedStays(ss[j - 1], step, ss[j], t);
    }
    RunKeepsInv(ss, j);
    assert HoldsOk(ss[j], t);
    hide Next, Inv;
  }

  /** t is in failed_write, or on its way there, because of the context of o. */
  ghost predicate WaitsFor(s: State, t: Thread, o: Thread) {
    t in s.places && Waiting(s.places[t]) && s.places[t].owner == o
  }

  ghost predicate ChainLink(s: State, chain: seq<Thread>, j: nat)
    requires j + 1 < |chain|
  {
    WaitsFor(s, chain[j], chain[j + 1])
  }

  /** Every thread of the chain but the last waits for the next one. */
  ghost predicate WaitChain(s: State, chain: seq<Thread>) {
    && chain != []
    && (forall j {:trigger ChainLink(s, chain, j)} :: 0 <= j < |chain| - 1 ==> ChainLink(s, chain, j))
  }

  /** When a waiting thread lost its competition; for the others, now. */
  ghost function Since(s: State, t: Thread): nat {
    if t in s.places && Waiting(s.places[t]) then s.places[t].since else s.clock
  }

  /** Along a chain of waits the lost competitions get strictly later. */
  lemma {:induction false} ChainGetsLater(s: State, chain: seq<Thread>, j: nat, k: nat)
    requires WaitsOk(s) && WaitChain(s, chain) && j < k < |chain|
    ensures Since(s, chain[j]) < Since(s, chain[k])
  {
    assert ChainLink(s, chain, k - 1) && WaitOk(s, chain[k - 1]);
    if j < k - 1 {
      ChainGetsLater(s, chain, j, k - 1);
    }
  }

  /** No thread that waits holds a node, and no chain of waits returns to a thread on it: the
      protocol does not deadlock. */
  lemma NoWaitCycle(ss: seq<State>, i: nat, chain: seq<Thread>)
    requires Run(ss) && i < |ss| && |chain| >= 2 && WaitChain(ss[i], chain)
    ensures forall n :: n in ss[i].nodes ==> ss[i].nodes[n].ctx != Some(chain[0])
    ensures forall j, k :: 0 <= j < k < |chain| ==> chain[j] != chain[k]
  {
    RunKeepsInv(ss, i);
    assert ChainLink(ss[i], chain, 0);
    forall j, k | 0 <= j < k < |chain|
      ensures chain[j] != chain[k]
    {
      ChainGetsLater(ss[i], chain, j, k);
    }
  }

  /** Whoever waits, waits in the end for a thread that does not wait. */
  lemma {:induction false} WaitsEnd(s: State, t: Thread) returns (chain: seq<Thread>)
    requires WaitsOk(s) && t in s.places
    ensures WaitChain(s, chain) && chain[0] == t
    ensures chain[|chain| - 1] in s.places && !Waiting(s.places[chain[|chain| - 1]])
    decreases s.clock - Since(s, t), if Waiting(s.places[t]) then 1 else 0
  {
    if Waiting(s.places[t]) {
      assert WaitOk(s, t);
      var o := s.places[t].owner;
      assert WaitOk(s, o);
      var rest := WaitsEnd(s, o);
      chain := [t] + rest;
      forall j | 0 <= j < |chain| - 1
        ensures ChainLink(s, chain, j)
      {
        assert j > 0 ==> ChainLink(s, rest, j - 1);
      }
    } else {
      chain := [t];
    }
  }

  /** Since a context's max_depth was last set to 4, at most four losers have been given a positive
      depth, however their subtractions interleave with the owner's writes. */
  lemma AtMostFourAdmitted(ss: seq<State>, i: nat, t: Thread)
    requires Run(ss) && i < |ss| && t in ss[i].contexts
    ensures ss[i].contexts[t].admitted <= 4
  {
    RunKeepsInv(ss, i);
  }

  /** Where a request can be. */
  ghost predicate Queued(s: State, rid: RequestId, t: Thread) {
    t in s.contexts && rid in s.contexts[t].queue
  }

  ghost predicate InHand(s: State, rid: RequestId, t: Thread) {
    t in s.places && HandOf(s.places[t]) == Some(rid)
  }

  /** A request that was sent is at all times in exactly one place: in the queue of the context it
      was sent to, once; in the hand of that context's owner; or answered, by that owner. */
  lemma RequestsAreConserved(ss: seq<State>, i: nat, rid: RequestId)
    requires Run(ss) && i < |ss| && rid in ss[i].requests
    ensures var s, r := ss[i], ss[i].requests[rid];
            && (forall t :: Queued(s, rid, t) || InHand(s, rid, t) ==> t == r.to)
            && (r.status == Pending ==> (Queued(s, rid, r.to) <==> !InHand(s, rid, r.to)))
            && (r.status.Answered? ==>
                  !Queued(s, rid, r.to) && !InHand(s, rid, r.to) && r.status.server == r.to)
    ensures forall t :: t in ss[i].contexts ==> NoDuplicates(ss[i].contexts[t].queue)
  {
    RunKeepsInv(ss, i);
    var s := ss[i];
    assert RequestOk(s, rid);
    forall t | t in s.places
      ensures MailOk(s, t)
    {
    }
  }

  /** Requests are made by one kind of step and answered by two. */
  lemma RequestSteps(s: State, step: Step, s': State)
    requires Next(s, step, s') && !step.DrainAnswer? && !step.ServeAnswer? && !step.Enqueue?
    ensures s'.requests == s.requests
  {
    hide NextAlone, NextServe, NextLoser;
    if NextAlone(s, step, s') {
      AloneRequestSteps(s, step, s');
    } else if NextServe(s, step, s') {
      ServeRequestSteps(s, step, s');
    } else if NextLoser(s, step, s') {
      LoserRequestSteps(s, step, s');
    }
  }

  lemma AloneRequestSteps(s: State, step: Step, s': State)
    requires NextAlone(s, step, s') && !step.DrainAnswer?
    ensures s'.requests == s.requests
  {
  }

  lemma ServeRequestSteps(s: State, step: Step, s': State)
    requires NextServe(s, step, s') && !step.ServeAnswer?
    ensures s'.requests == s.requests
  {
  }

  lemma LoserRequestSteps(s: State, step: Step, s': State)
    requires NextLoser(s, step, s') && !step.Enqueue?
    ensures s'.requests == s.requests
  {
  }

  /** An answer is final, and no request disappears. */
  lemma StepKeepsAnswers(s: State, step: Step, s': State, rid: RequestId)
    requires Inv(s) && Next(s, step, s') && rid in s.requests
    ensures rid in s'.requests && s'.requests[rid].(status := Pending) == s.requests[rid].(status := Pending)
    ensures s.requests[rid].status.Answered? ==> s'.requests[rid] == s.requests[rid]
    ensures s'.requests[rid] != s.requests[rid] ==>
            (step.DrainAnswer? || step.ServeAnswer?) && step.t == s.requests[rid].to
  {
    if step.DrainAnswer? || step.ServeAnswer? {
      assert RequestOk(s, rid) && MailOk(s, step.t);
    } else if !step.Enqueue? {
      RequestSteps(s, step, s');
    }
  }

  lemma {:induction false} AnswersAreFinal(ss: seq<State>, i: nat, j: nat, rid: RequestId)
    requires Run(ss) && i <= j < |ss| && rid in ss[i].requests && ss[i].requests[rid].status.Answered?
    ensures rid in ss[j].requests && ss[j].requests[rid] == ss[i].requests[rid]
  {
    if i < j {
      AnswersAreFinal(ss, i, j - 1, rid);
      RunKeepsInv(ss, j - 1);
      assert StepAt(ss, j - 1);
      var step :| Next(ss[j - 1], step, ss[j]);
      StepKeepsAnswers(ss[j - 1], step, ss[j], rid);
    }
  }

  /** The winner's buffers. */
  function Buffers(p: Place): Option<(Buffer, Buffer)> {
    if p.Serving? then Some((p.predBuffer, p.realBuffer)) else None
  }

  /** The step that answers request rid, by the owner of the context it was sent to. */
  ghost predicate TrulyAnswered(s: State, t: Thread, s': State, rid: RequestId)
    requires rid in s.requests && rid in s'.requests && s'.requests[rid].status.Answered?
  {
    var r, a := s.requests[rid], s'.requests[rid].status;
    && t == r.to == a.server && t in s.places && t in s'.places
    && (a.retry ==> !a.succeed && forall u :: u in s.places ==>
        u in s'.places && Buffers(s'.places[u]) == Buffers(s.places[u]))
    && var p, p' := s.places[t], s'.places[t];
    && (!p.Serving? ==> p.DrainHand? && a.retry && p'.Draining? && p'.op == p.op)
    && (p.Serving? ==>
          && p'.Serving? && p'.op == p.op && p'.stored == p.stored && p.op.node in s.nodes
          && (p.op.kind == Insert ==>
                var below := r.key < s.nodes[p.op.node].anchor;
                && a.retry == !a.succeed
                && (a.succeed <==> HasRoom(if below then p.predBuffer else p.realBuffer))
                && Granted(if below then p.predBuffer else p.realBuffer,
                           if below then p'.predBuffer else p'.realBuffer, r.key, r.value, a.succeed)
                && (if below then p'.realBuffer == p.realBuffer else p'.predBuffer == p.predBuffer))
          && (p.op.kind != Insert ==>
                && !a.retry && (a.succeed <==> Has(p.realBuffer.recs, r.key)) && p'.predBuffer == p.predBuffer
                && Replaced(p.realBuffer, p'.realBuffer, r.key, r.value)))
  }

  lemma DrainedTruly(s: State, step: Step, s': State, rid: RequestId)
    requires NextAlone(s, step, s') && step.DrainAnswer? && rid in s.requests && rid in s'.requests
    requires s.requests[rid].status == Pending && s'.requests[rid].status.Answered? && s.requests[rid].to == step.t
    ensures TrulyAnswered(s, step.t, s', rid)
  {
  }

  lemma PutGrants(b: Buffer, k: Key, v: Value)
    requires Sound(b)
    ensures Granted(b, Put(b, k, v), k, v, HasRoom(b))
  {
    PutMeans(b, k, v);
  }

  lemma ReplaceReplaces(b: Buffer, k: Key, v: Value)
    requires Sound(b)
    ensures Replaced(b, Replace(b, k, v), k, v)
  {
    ReplaceMeans(b, k, v);
  }

  lemma ServedTruly(s: State, step: Step, s': State, rid: RequestId)
    requires NextServe(s, step, s') && step.ServeAnswer? && rid in s.requests && rid in s'.requests
    requires s.requests[rid].status == Pending && s'.requests[rid].status.Answered? && s.requests[rid].to == step.t
    requires PlaceOk(s, s.places[step.t])
    ensures TrulyAnswered(s, step.t, s', rid)
  {
    var p, r, t := s.places[step.t], s.requests[rid], step.t;
    var (pb, rb, succeed, retry) := Served(p, s.nodes[p.op.node].anchor, r.key, r.value);
    assert s' == Go(Reply(s, rid, t, succeed, retry), t, p.(inHand := None, predBuffer := pb, realBuffer := rb));
    assert Sound(p.predBuffer) && Sound(p.realBuffer);
    hide NextServe, PlaceOk, Granted, Replaced, Put, Replace, HasRoom, Sound, Has;
    if p.op.kind == Insert {
      PutGrants(p.predBuffer, r.key, r.value);
      PutGrants(p.realBuffer, r.key, r.value);
    } else {
      ReplaceReplaces(p.realBuffer, r.key, r.value);
    }
  }

  /** A step that answers a request is one of the context's owner.  If it tells the sender to retry, it
      reports no success and has changed no buffer of any thread.  An insert winner grants a request
      exactly if the buffer for its side of the anchor has room, and that buffer, and only that, then
      has the record, unless it had the key before; any other winner updates its buffer, with success
      exactly if the key is there.  Outside a hold every request is told to retry. */
  lemma AnswersAreTrue(ss: seq<State>, i: nat, step: Step, rid: RequestId)
    requires Run(ss) && i + 1 < |ss| && Next(ss[i], step, ss[i + 1])
    requires rid in ss[i].requests && ss[i].requests[rid].status == Pending
    requires rid in ss[i + 1].requests && ss[i + 1].requests[rid].status.Answered?
    ensures TrulyAnswered(ss[i], step.t, ss[i + 1], rid)
  {
    RunKeepsInv(ss, i);
    StepKeepsAnswers(ss[i], step, ss[i + 1], rid);
    hide TrulyAnswered, NextCompete, NextLoser;
    if step.ServeAnswer? {
      assert PlaceOk(ss[i], ss[i].places[step.t]);
      ServedTruly(ss[i], step, ss[i + 1], rid);
    } else {
      DrainedTruly(ss[i], step, ss[i + 1], rid);
    }
  }

  /** A buffer before and after an insert request: if it was granted, the record is there unless its
      key was there before, and otherwise nothing has changed. */
  ghost predicate Granted(b: Buffer, b': Buffer, k: Key, v: Value, succeed: bool) {
    && b'.capacity == b.capacity && (!succeed ==> b' == b)
    && (succeed ==>
          Contents(b'.recs) == if k in Contents(b.recs) then Contents(b.recs) else Contents(b.recs)[k := v])
  }

  /** A buffer before and after an update request. */
  ghost predicate Replaced(b: Buffer, b': Buffer, k: Key, v: Value) {
    && b'.capacity == b.capacity
    && Contents(b'.recs) == if k in Contents(b.recs) then Contents(b.recs)[k := v] else Contents(b.recs)
  }
}
