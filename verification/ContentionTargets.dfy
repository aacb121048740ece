/** On which node a request is answered.  A request carries no node, so a winner serves whatever is
    in its queue on the nodes it holds at that time. */
module ContentionTargets {
  import opened Keys
  import opened Contention
  import opened ContentionSafety

  /** Between acquiring the node competed for and releasing it. */
  predicate Holding(p: Place) {
    p.CasLeft? || p.Crashed? || p.GivingUp? || p.Dropping? || p.Opening? || p.Closing? || p.Serving? || p.Linking? ||
    p.ReleasingRight?
  }

  /** t lost its competition to its owner during the owner's present hold. */
  ghost predicate InTime(s: State, t: Thread)
    requires t in s.places && Waiting(s.places[t])
  {
    var o := s.places[t].owner;
    && o in s.places && o in s.contexts && Holding(s.places[o])
    && s.contexts[o].acquired <= s.places[t].since
  }

  /** Then the node t competed for is one the owner holds. */
  ghost predicate MeantOk(s: State, t: Thread)
    requires t in s.places
  {
    Waiting(s.places[t]) && InTime(s, t) ==> s.places[t].op.node in Held(s.places[s.places[t].owner])
  }

  ghost predicate AllMeant(s: State) {
    forall t {:trigger MeantOk(s, t)} :: t in s.places ==> MeantOk(s, t)
  }

  /** t has just lost a node to the thread whose context is on it. */
  ghost predicate JustLost(s: State, t: Thread, s': State)
    requires t in s'.places && Waiting(s'.places[t])
  {
    var p := s'.places[t];
    p.since == s.clock && p.op.node in s.nodes && s.nodes[p.op.node].ctx == Some(p.owner)
  }

  ghost predicate SameWait(p: Place, p': Place)
    requires Waiting(p) && Waiting(p')
  {
    p'.owner == p.owner && p'.since == p.since && p'.op == p.op
  }

  /** What a step of thread x may do to places and to times of acquisition. */
  ghost predicate Steady(s: State, x: Thread, s': State) {
    && x in s'.places && s'.places == s.places[x := s'.places[x]] && s.contexts.Keys <= s'.contexts.Keys
    && (forall u {:trigger s'.contexts[u]} :: u in s.contexts && u != x ==>
        s'.contexts[u].acquired == s.contexts[u].acquired)
    && (x in s.places && x in s.contexts && Holding(s'.places[x]) ==>
          if Holding(s.places[x])
          then s'.contexts[x].acquired == s.contexts[x].acquired && Held(s.places[x]) <= Held(s'.places[x])
          else s'.contexts[x].acquired == s.clock)
    && (x !in s.places ==> !Holding(s'.places[x]) && !Waiting(s'.places[x]))
    && (Waiting(s'.places[x]) ==>
          (x in s.places && Waiting(s.places[x]) && SameWait(s.places[x], s'.places[x])) || JustLost(s, x, s'))
  }

  lemma StartSteady(s: State, step: Step, s': State)
    requires NextAlone(s, step, s') && (step.Register? || step.Start? || step.DrainEmpty?)
    ensures Steady(s, step.t, s')
  {
  }

  lemma DrainSteady(s: State, step: Step, s': State)
    requires NextAlone(s, step, s') && (step.DrainPop? || step.DrainAnswer?)
    ensures Steady(s, step.t, s')
  {
  }

  lemma PrepareSteady(s: State, step: Step, s': State)
    requires NextAlone(s, step, s') && (step.Prepare? || step.SetType? || step.Reset?)
    ensures Steady(s, step.t, s')
  {
  }

  lemma AloneSteady(s: State, step: Step, s': State)
    requires NextAlone(s, step, s')
    ensures Steady(s, step.t, s')
  {
    hide Steady;
    if step.Register? || step.Start? || step.DrainEmpty? {
      StartSteady(s, step, s');
    } else if step.DrainPop? || step.DrainAnswer? {
      DrainSteady(s, step, s');
    } else {
      PrepareSteady(s, step, s');
    }
  }

  lemma CasSteady(s: State, step: Step, s': State)
    requires NextCompete(s, step, s') && step.CasNode?
    ensures Steady(s, step.t, s')
  {
  }

  lemma CasPredSteady(s: State, step: Step, s': State)
    requires NextCompete(s, step, s') && step.CasPred?
    ensures Steady(s, step.t, s')
  {
  }

  lemma ReleaseSteady(s: State, step: Step, s': State)
    requires NextCompete(s, step, s') && (step.Drop? || step.ReleaseRight? || step.ReleaseLeft?)
    ensures Steady(s, step.t, s')
  {
  }

  lemma ReadSteady(s: State, step: Step, s': State)
    requires NextCompete(s, step, s') && (step.GiveUp? || step.ReadBackward?)
    ensures Steady(s, step.t, s')
  {
  }

  lemma DepthSteady(s: State, step: Step, s': State)
    requires NextCompete(s, step, s') && (step.Open? || step.Close?)
    ensures Steady(s, step.t, s')
  {
  }

  lemma CompeteSteady(s: State, step: Step, s': State)
    requires NextCompete(s, step, s')
    ensures Steady(s, step.t, s')
  {
    hide Steady;
    if step.CasNode? {
      CasSteady(s, step, s');
    } else if step.CasPred? {
      CasPredSteady(s, step, s');
    } else if step.Drop? || step.ReleaseRight? || step.ReleaseLeft? {
      ReleaseSteady(s, step, s');
    } else if step.Open? || step.Close? {
      DepthSteady(s, step, s');
    } else {
      ReadSteady(s, step, s');
    }
  }

  lemma OwnSteady(s: State, step: Step, s': State)
    requires NextServe(s, step, s') && (step.ServeOwn? || step.ServeWiden?)
    ensures Steady(s, step.t, s')
  {
  }

  lemma DoneSteady(s: State, step: Step, s': State)
    requires NextServe(s, step, s') && step.ServeDone?
    ensures Steady(s, step.t, s')
  {
  }

  lemma RequestSteady(s: State, step: Step, s': State)
    requires NextServe(s, step, s') && (step.ServePop? || step.ServePushBack?)
    ensures Steady(s, step.t, s')
  {
  }

  lemma AnswerSteady(s: State, step: Step, s': State)
    requires NextServe(s, step, s') && step.ServeAnswer?
    ensures Steady(s, step.t, s')
  {
  }

  lemma LinkSteady(s: State, step: Step, s': State)
    requires NextServe(s, step, s') && Linkish(step)
    ensures Steady(s, step.t, s')
  {
  }

  lemma ServeSteady(s: State, step: Step, s': State)
    requires NextServe(s, step, s')
    ensures Steady(s, step.t, s')
  {
    hide Steady;
    if step.ServeOwn? || step.ServeWiden? {
      OwnSteady(s, step, s');
    } else if step.ServeDone? {
      DoneSteady(s, step, s');
    } else if step.ServePop? || step.ServePushBack? {
      RequestSteady(s, step, s');
    } else if step.ServeAnswer? {
      AnswerSteady(s, step, s');
    } else {
      LinkSteady(s, step, s');
    }
  }

  lemma LoserSteady(s: State, step: Step, s': State)
    requires NextLoser(s, step, s')
    ensures Steady(s, step.t, s')
  {
  }

  lemma StepSteady(s: State, step: Step, s': State)
    requires Next(s, step, s')
    ensures Steady(s, step.t, s')
  {
    hide NextAlone, NextCompete, NextServe, NextLoser, Steady;
    if NextAlone(s, step, s') {
      AloneSteady(s, step, s');
    } else if NextCompete(s, step, s') {
      CompeteSteady(s, step, s');
    } else if NextServe(s, step, s') {
      ServeSteady(s, step, s');
    } else {
      LoserSteady(s, step, s');
    }
  }

  lemma SteadyMeant(s: State, x: Thread, s': State, t: Thread)
    requires s.contexts.Keys == s.places.Keys && Owned(s) && WaitsOk(s) && AllMeant(s) && Steady(s, x, s') &&
             t in s'.places
    ensures MeantOk(s', t)
  {
    var p := s'.places[t];
    if Waiting(p) && t in s.places && Waiting(s.places[t]) && SameWait(s.places[t], p) {
      assert MeantOk(s, t) && WaitOk(s, t);
    } else if Waiting(p) {
      assert t == x && JustLost(s, t, s');
    }
  }

  lemma StepKeepsMeant(s: State, step: Step, s': State)
    requires Inv(s) && AllMeant(s) && Next(s, step, s')
    ensures AllMeant(s')
  {
    StepSteady(s, step, s');
    assert s.contexts.Keys == s.places.Keys;
    hide Next, Steady, MeantOk, Owned, WaitsOk, PlacesOk, RequestsOk, AdmissionOk;
    forall t | t in s'.places
      ensures MeantOk(s', t)
    {
      SteadyMeant(s, step.t, s', t);
    }
  }

  lemma InitMeant(s: State)
    requires Init(s)
    ensures AllMeant(s)
  {
  }

  lemma {:induction false} RunKeepsMeant(ss: seq<State>, i: nat)
    requires Run(ss) && i < |ss|
    ensures AllMeant(ss[i])
  {
    hide Inv, Next, Init, AllMeant;
    if i == 0 {
      InitMeant(ss[0]);
    } else {
      RunKeepsMeant(ss, i - 1);
      RunKeepsInv(ss, i - 1);
      assert StepAt(ss, i - 1);
      var step :| Next(ss[i - 1], step, ss[i]);
      StepKeepsMeant(ss[i - 1], step, ss[i]);
    }
  }

  /** The node on whose buffer the winner o deals with a request for key. */
  ghost function AnsweringNode(s: State, o: Thread, key: Key): Node
    requires o in s.places && s.places[o].Serving? && s.places[o].op.node in s.nodes
  {
    var p := s.places[o];
    if p.op.kind == Insert && p.pred.Some? && key < s.nodes[p.op.node].anchor then p.pred.value else p.op.node
  }

  /** Whenever a winner serves a request, its sender still waits with the operation it sent it for.  It
      is answered on the node it was sent for exactly if its owner holds that node at the answer and
      the key is on that node's side of the owner's anchor; and the owner does hold the node if the
      sender lost its competition during the owner's present hold. */
  lemma AnsweredWhereItBelongs(ss: seq<State>, i: nat, o: Thread, s': State)
    requires Run(ss) && i < |ss| && NextServe(ss[i], ServeAnswer(o), s')
    ensures var s := ss[i];
            var r := s.requests[s.places[o].inHand.value];
            var own := s.places[o].op.node;
            && r.from in s.places && s.places[r.from].Awaiting? && s.places[r.from].op.key == r.key
            && var n := s.places[r.from].op.node;
            && (AnsweringNode(s, o, r.key) == n <==>
                  n in Held(s.places[o]) &&
                      (n == own <==> s.places[o].op.kind != Insert || s.nodes[own].anchor <= r.key))
            && (InTime(s, r.from) ==> n in Held(s.places[o]))
  {
    var s := ss[i];
    RunKeepsInv(ss, i);
    RunKeepsMeant(ss, i);
    var rid := s.places[o].inHand.value;
    var r := s.requests[rid];
    assert PlaceOk(s, s.places[o]) && MailOk(s, o) && RequestOk(s, rid) && MailOk(s, r.from);
    assert MeantOk(s, r.from);
  }

  // ---------------------------------------------------------------- keys of other nodes

  /** No node disappears or changes its anchor. */
  ghost predicate AnchorsStay(s: State, s': State) {
    forall n {:trigger s'.nodes[n]} {:trigger s.nodes[n]} :: n in s.nodes ==>
      n in s'.nodes && s'.nodes[n].anchor == s.nodes[n].anchor
  }

  lemma AloneAnchors(s: State, step: Step, s': State)
    requires NextAlone(s, step, s')
    ensures AnchorsStay(s, s')
  {
  }

  lemma CompeteAnchors(s: State, step: Step, s': State)
    requires NextCompete(s, step, s')
    ensures AnchorsStay(s, s')
  {
  }

  lemma ServeAnchors(s: State, step: Step, s': State)
    requires NextServe(s, step, s')
    ensures AnchorsStay(s, s')
  {
  }

  lemma LoserAnchors(s: State, step: Step, s': State)
    requires NextLoser(s, step, s')
    ensures AnchorsStay(s, s')
  {
  }

  lemma StepAnchors(s: State, step: Step, s': State)
    requires Next(s, step, s')
    ensures AnchorsStay(s, s')
  {
    hide NextAlone, NextCompete, NextServe, NextLoser, AnchorsStay;
    if NextAlone(s, step, s') {
      AloneAnchors(s, step, s');
    } else if NextCompete(s, step, s') {
      CompeteAnchors(s, step, s');
    } else if NextServe(s, step, s') {
      ServeAnchors(s, step, s');
    } else {
      LoserAnchors(s, step, s');
    }
  }

  lemma {:induction false} RunAnchors(ss: seq<State>, j: nat, i: nat)
    requires Run(ss) && j <= i < |ss|
    ensures AnchorsStay(ss[j], ss[i])
  {
    hide Next, Init;
    if j < i {
      RunAnchors(ss, j, i - 1);
      assert StepAt(ss, i - 1);
      var step :| Next(ss[i - 1], step, ss[i]);
      StepAnchors(ss[i - 1], step, ss[i]);
    }
  }

  /** The node of the greatest anchor at most key. */
  ghost predicate Responsible(s: State, n: Node, key: Key) {
    && n in s.nodes && s.nodes[n].anchor <= key
    && (forall m {:trigger s.nodes[m]} :: m in s.nodes && s.nodes[m].anchor <= key ==>
          s.nodes[m].anchor <= s.nodes[n].anchor)
  }

  /** A node made after s0 that takes key away from n. */
  ghost predicate Intruder(s0: State, s: State, n: Node, key: Key, m: Node)
    requires n in s.nodes
  {
    m in s.nodes && m !in s0.nodes && s.nodes[n].anchor < s.nodes[m].anchor <= key
  }

  /** A winner grants a request exactly if the buffer on the key's side of its node's anchor has room;
      no other anchor is looked at.  So if the node it grants it on was responsible for the key at some
      time, say when the sender searched, it still is exactly if no node whose anchor is above that
      node's and not above the key has been linked since. */
  lemma GrantedWhereItBelongs(ss: seq<State>, j: nat, i: nat, o: Thread, s': State)
    requires Run(ss) && j <= i < |ss| && NextServe(ss[i], ServeAnswer(o), s') && ss[i].places[o].op.kind == Insert
    ensures var (s, p) := (ss[i], ss[i].places[o]);
            var rid := p.inHand.value;
            var n := AnsweringNode(s, o, s.requests[rid].key);
            && (s'.requests[rid].status.succeed <==>
                  HasRoom(if s.requests[rid].key < s.nodes[p.op.node].anchor then p.predBuffer else p.realBuffer))
            && (Responsible(ss[j], n, s.requests[rid].key) ==>
                  n in s.nodes && (Responsible(s, n, s.requests[rid].key) <==>
                    !exists m :: Intruder(ss[j], s, n, s.requests[rid].key, m)))
  {
    RunAnchors(ss, j, i);
    var s, p := ss[i], ss[i].places[o];
    var key := s.requests[p.inHand.value].key;
    var n := AnsweringNode(s, o, key);
    if Responsible(ss[j], n, key) {
      StillResponsible(ss[j], s, n, key);
    }
  }

  lemma StillResponsible(s0: State, s: State, n: Node, key: Key)
    requires AnchorsStay(s0, s) && Responsible(s0, n, key)
    ensures n in s.nodes && (Responsible(s, n, key) <==> !exists m :: Intruder(s0, s, n, key, m))
  {
    if !Responsible(s, n, key) {
      var m :| m in s.nodes && s.nodes[m].anchor <= key && s.nodes[n].anchor < s.nodes[m].anchor;
      assert Intruder(s0, s, n, key, m);
    }
  }
}
