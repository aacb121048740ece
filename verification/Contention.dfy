/** The contention protocol: threads compete for a data node by installing their own context on it
    and on its predecessor; losers hand their requests to the winner
    (try_win_for_insert, try_win_for_update, failed_write, help_others, drain_pending).
    Every read or write of shared memory is a step of its own. */
module Contention {
  import opened Keys
  import opened DataLayer

  type Thread = nat
  type Node = nat
  type RequestId = nat

  datatype Kind = Insert | Update | Get

  /** What a thread is asked to do. */
  datatype Op = Op(kind: Kind, node: Node, key: Key, value: Value)

  datatype Status = Pending | Answered(server: Thread, succeed: bool, retry: bool)

  /** A request, and, as history, the context it was put on. */
  datatype Request = Request(from: Thread, to: Thread, key: Key, value: Value, status: Status)

  /** A thread's shared context.  As history, admitted counts the losers that were given a positive
      depth since max_depth was last set to 4, and acquired is the time of the thread's last
      successful compare-and-swap on the node it competed for. */
  datatype Context = Context(kind: Kind, maxDepth: int, queue: seq<RequestId>, admitted: nat, acquired: nat)

  /** A node of the index.  As history, linker is the thread that has linked the node and not yet set
      its backward pointer, which is null so long; the head's is null for good. */
  datatype NodeState = NodeState(ctx: Option<Thread>, backward: Option<Node>, anchor: Key, linker: Option<Thread>)

  /** A node image in the winner's buffer, used with the capacity of some node type. */
  datatype Buffer = Buffer(capacity: nat, recs: seq<KV>)

  /** Where a thread is.  since is history: the time of the failed compare-and-swap; stored says that a
      winner's own record is in its buffer, or, of an update, that it has been looked for there. */
  datatype Place =
    | Idle
    | Draining(op: Op)
    | DrainHand(op: Op, hand: RequestId)
    | Preparing(op: Op)
    | Typing(op: Op)
    | Reading(op: Op)
    | CasRight(op: Op, backward: Option<Node>)
    | CasLeft(op: Op, left: Node)
    | Crashed(op: Op)
    | GivingUp(op: Op)
    | Dropping(op: Op)
    | Opening(op: Op, pred: Option<Node>)
    | Closing(op: Op, pred: Option<Node>)
    | Serving(op: Op, pred: Option<Node>, inHand: Option<RequestId>, predBuffer: Buffer, realBuffer: Buffer,
              stored: bool)
    | Linking(op: Op, pred: Option<Node>, predBuffer: Buffer, realBuffer: Buffer, node: Node)
    | ReleasingRight(op: Op, pred: Option<Node>)
    | ReleasingLeft(op: Op, pred: Option<Node>)
    | Resetting(op: Op)
    | Checking(op: Op, owner: Thread, since: nat)
    | Spinning(op: Op, owner: Thread, since: nat)
    | Subtracting(op: Op, owner: Thread, since: nat)
    | Enqueueing(op: Op, owner: Thread, since: nat)
    | Awaiting(op: Op, owner: Thread, since: nat, rid: RequestId)

  datatype State = State(
    nodes: map<Node, NodeState>,
    contexts: map<Thread, Context>,
    places: map<Thread, Place>,
    requests: map<RequestId, Request>,
    clock: nat)

  datatype Step =
    | Register(t: Thread)
    | Start(t: Thread, op: Op)
    | DrainPop(t: Thread)
    | DrainAnswer(t: Thread)
    | DrainEmpty(t: Thread)
    | Prepare(t: Thread)
    | SetType(t: Thread)
    | ReadBackward(t: Thread)
    | CasNode(t: Thread)
    | CasPred(t: Thread)
    | GiveUp(t: Thread)
    | Drop(t: Thread)
    | Open(t: Thread)
    | Close(t: Thread, predBuffer: Buffer, realBuffer: Buffer)
    | ServeOwn(t: Thread)
    | ServeWiden(t: Thread, capacity: nat)
    | ServePop(t: Thread)
    | ServeAnswer(t: Thread)
    | ServePushBack(t: Thread)
    | ServePublish(t: Thread, node: Node, anchor: Key)
    | ServeSetBackward(t: Thread)
    | ServeDone(t: Thread)
    | ReleaseRight(t: Thread)
    | ReleaseLeft(t: Thread)
    | Reset(t: Thread)
    | Check(t: Thread)
    | Spin(t: Thread)
    | Subtract(t: Thread)
    | Enqueue(t: Thread, rid: RequestId)
    | Finish(t: Thread)

  ghost predicate Init(s: State) {
    && s.contexts == map[] && s.places == map[] && s.requests == map[] && s.clock == 0
    && forall n :: n in s.nodes ==>
         s.nodes[n].ctx == None && (s.nodes[n].backward.Some? ==> s.nodes[n].backward.value in s.nodes) &&
         s.nodes[n].linker == None
  }

  // ---------------------------------------------------------------- steps

  function Go(s: State, t: Thread, p: Place): State {
    s.(places := s.places[t := p])
  }

  function SetDepth(s: State, t: Thread, depth: int, admitted: nat): State
    requires t in s.contexts
  {
    s.(contexts := s.contexts[t := s.contexts[t].(maxDepth := depth, admitted := admitted)])
  }

  function SetQueue(s: State, t: Thread, queue: seq<RequestId>): State
    requires t in s.contexts
  {
    s.(contexts := s.contexts[t := s.contexts[t].(queue := queue)])
  }

  function SetCtx(s: State, n: Node, c: Option<Thread>): State
    requires n in s.nodes
  {
    s.(nodes := s.nodes[n := s.nodes[n].(ctx := c)])
  }

  function Reply(s: State, rid: RequestId, server: Thread, succeed: bool, retry: bool): State
    requires rid in s.requests
  {
    s.(requests := s.requests[rid := s.requests[rid].(status := Answered(server, succeed, retry))])
  }

  /** store, on a buffer. */
  function Put(b: Buffer, k: Key, v: Value): Buffer {
    b.(recs := AfterStore(b.capacity, b.recs, k, v))
  }

  /** update, on a buffer. */
  function Replace(b: Buffer, k: Key, v: Value): Buffer {
    b.(recs := AfterUpdate(b.recs, k, v))
  }

  function SetAcquired(s: State, t: Thread): State
    requires t in s.contexts
  {
    s.(contexts := s.contexts[t := s.contexts[t].(acquired := s.clock)])
  }

  /** Where a thread is told to retry: put goes on with the same node, update searches again. */
  function Retry(op: Op): Place {
    if op.kind == Insert then Draining(op) else Idle
  }

  predicate HasRoom(b: Buffer) {
    |b.recs| < b.capacity
  }

  /** The image of a data node. */
  predicate Sound(b: Buffer) {
    |b.recs| <= b.capacity && Distinct(b.recs)
  }

  /** An insert on the head throws before it competes. */
  predicate CanStart(s: State, t: Thread, op: Op) {
    && op.node in s.nodes
    && (op.kind == Insert ==> s.nodes[op.node].backward.Some? || s.nodes[op.node].linker.Some?)
  }

  /** The steps a thread takes on its own, before and after the competition. */
  ghost predicate NextAlone(s: State, step: Step, s': State) {
    match step
    case Register(t) =>
      && t !in s.places && t !in s.contexts
      && s' == s.(places := s.places[t := Idle], contexts := s.contexts[t := Context(Insert, 4, [], 0, 0)])
    case Start(t, op) =>
      && t in s.places && s.places[t] == Idle && CanStart(s, t, op)
      && s' == Go(s, t, Draining(op))
    case DrainPop(t) =>
      && t in s.places && t in s.contexts && s.places[t].Draining? && s.contexts[t].queue != []
      && s' == Go(SetQueue(s, t, s.contexts[t].queue[1..]), t, DrainHand(s.places[t].op, s.contexts[t].queue[0]))
    case DrainAnswer(t) =>
      && t in s.places && s.places[t].DrainHand? && s.places[t].hand in s.requests
      && s' == Go(Reply(s, s.places[t].hand, t, false, true), t, Draining(s.places[t].op))
    case DrainEmpty(t) =>
      && t in s.places && t in s.contexts && s.places[t].Draining? && s.contexts[t].queue == []
      && s' == Go(s, t, if s.places[t].op.kind == Get then Idle else Preparing(s.places[t].op))
    case Prepare(t) =>
      && t in s.places && t in s.contexts && s.places[t].Preparing?
      && s' == Go(if s.places[t].op.kind == Insert then SetDepth(s, t, -1, s.contexts[t].admitted) else s,
                  t, Typing(s.places[t].op))
    case SetType(t) =>
      && t in s.places && t in s.contexts && s.places[t].Typing?
      && s' == Go(s.(contexts := s.contexts[t := s.contexts[t].(kind := s.places[t].op.kind)]),
                  t, if s.places[t].op.kind == Insert then Reading(s.places[t].op) else CasRight(s.places[t].op, None))
    case Reset(t) =>
      && t in s.places && t in s.contexts && s.places[t].Resetting?
      && s' == Go(SetDepth(s, t, 4, 0), t, Idle)
    case _ => false
  }

  /** The competition: compare-and-swap on the node, then on the predecessor read before.  A null
      predecessor is dereferenced once the node is won. */
  ghost predicate NextCompete(s: State, step: Step, s': State) {
    match step
    case ReadBackward(t) =>
      && t in s.places && s.places[t].Reading? && s.places[t].op.node in s.nodes
      && s' == Go(s, t, CasRight(s.places[t].op, s.nodes[s.places[t].op.node].backward))
    case CasNode(t) =>
      && t in s.places && t in s.contexts && s.places[t].CasRight? && s.places[t].op.node in s.nodes
      && var op, l := s.places[t].op, s.places[t].backward;
      && (if s.nodes[op.node].ctx == None then
            s' == Go(SetCtx(SetAcquired(s, t), op.node, Some(t)), t,
                     if op.kind != Insert then Opening(op, None)
                     else if l.Some? then CasLeft(op, l.value) else Crashed(op))
          else
            s' == Go(s.(clock := s.clock + 1), t, Checking(op, s.nodes[op.node].ctx.value, s.clock)))
    case CasPred(t) =>
      && t in s.places && s.places[t].CasLeft? && s.places[t].left in s.nodes
      && var op, l := s.places[t].op, s.places[t].left;
      && (if s.nodes[l].ctx == None then s' == Go(SetCtx(s, l, Some(t)), t, Opening(op, Some(l)))
          else s' == Go(s, t, GivingUp(op)))
    case GiveUp(t) =>
      && t in s.places && t in s.contexts && s.places[t].GivingUp?
      && s' == Go(SetDepth(s, t, 0, s.contexts[t].admitted), t, Dropping(s.places[t].op))
    case Drop(t) =>
      && t in s.places && s.places[t].Dropping? && s.places[t].op.node in s.nodes
      && s' == Go(SetCtx(s, s.places[t].op.node, None), t, Draining(s.places[t].op))
    case Open(t) =>
      && t in s.places && t in s.contexts && s.places[t].Opening?
      && s' == Go(SetDepth(s, t, 4, 0), t, Closing(s.places[t].op, s.places[t].pred))
    case Close(t, pb, rb) =>
      && t in s.places && t in s.contexts && s.places[t].Closing?
      && Sound(pb) && Sound(rb)
      && s' == Go(SetDepth(s, t, -1, s.contexts[t].admitted), t,
                  Serving(s.places[t].op, s.places[t].pred, None, pb, rb, false))
    case ReleaseRight(t) =>
      && t in s.places && s.places[t].ReleasingRight? && s.places[t].op.node in s.nodes
      && var op := s.places[t].op;
      && s' == Go(SetCtx(s, op.node, None), t,
                  if op.kind == Insert then ReleasingLeft(op, s.places[t].pred) else Resetting(op))
    case ReleaseLeft(t) =>
      && t in s.places && s.places[t].ReleasingLeft? && s.places[t].op.node in s.nodes
      && var l := s.nodes[s.places[t].op.node].backward;
      && l.Some? && l.value in s.nodes
      && s' == Go(SetCtx(s, l.value, None), t, Resetting(s.places[t].op))
    case _ => false
  }

  /** The buffers after the winner has dealt with a request, and the reply. */
  function Served(p: Place, anchor: Key, k: Key, v: Value): (Buffer, Buffer, bool, bool)
    requires p.Serving?
  {
    var (pb, rb) := (p.predBuffer, p.realBuffer);
    if p.op.kind != Insert then
      (pb, Replace(rb, k, v), Has(rb.recs, k), false)
    else if k < anchor then (Put(pb, k, v), rb, HasRoom(pb), !HasRoom(pb))
    else (pb, Put(rb, k, v), HasRoom(rb), !HasRoom(rb))
  }

  /** The winner's own put or update, which comes first; requests taken one by one; growing the buffer
      by morphing or copying; publishing the right half of a split, which is linked before its backward
      pointer is set; and leaving. */
  ghost predicate NextServe(s: State, step: Step, s': State) {
    match step
    case ServeOwn(t) =>
      && t in s.places && s.places[t].Serving? && !s.places[t].stored
      && var p := s.places[t];
      && s' == Go(s, t, if p.op.kind == Insert then
                          p.(realBuffer := Put(p.realBuffer, p.op.key, p.op.value), stored := HasRoom(p.realBuffer))
                        else
                          p.(realBuffer := Replace(p.realBuffer, p.op.key, p.op.value), stored := true))
    case ServeWiden(t, capacity) =>
      && t in s.places && s.places[t].Serving? && s.places[t].realBuffer.capacity <= capacity
      && var p := s.places[t];
      && s' == Go(s, t, Serving(p.op, p.pred, p.inHand, p.predBuffer, p.realBuffer.(capacity := capacity), p.stored))
    case ServePop(t) =>
      && t in s.places && t in s.contexts && s.places[t].Serving? && s.places[t].inHand == None
      && s.places[t].stored && s.contexts[t].queue != []
      && s' == Go(SetQueue(s, t, s.contexts[t].queue[1..]), t, s.places[t].(inHand := Some(s.contexts[t].queue[0])))
    case ServeAnswer(t) =>
      && t in s.places && s.places[t].Serving? && s.places[t].inHand.Some?
      && s.places[t].inHand.value in s.requests && s.places[t].op.node in s.nodes
      && var p, rid := s.places[t], s.places[t].inHand.value;
      && var (pb, rb, succeed, retry) :=
          Served(p, s.nodes[p.op.node].anchor, s.requests[rid].key, s.requests[rid].value);
      && s' == Go(Reply(s, rid, t, succeed, retry), t, p.(inHand := None, predBuffer := pb, realBuffer := rb))
    case ServePushBack(t) =>
      && t in s.places && t in s.contexts && s.places[t].Serving? && s.places[t].inHand.Some?
      && s.places[t].inHand.value in s.requests && s.places[t].op.node in s.nodes
      && var p, rid := s.places[t], s.places[t].inHand.value;
      && p.op.kind == Insert && s.requests[rid].key >= s.nodes[p.op.node].anchor && !HasRoom(p.realBuffer)
      && s' == Go(SetQueue(s, t, s.contexts[t].queue + [rid]), t, p.(inHand := None))
    case ServePublish(t, n, anchor) =>
      && t in s.places && s.places[t].Serving? && s.places[t].op.kind == Insert && n !in s.nodes
      && s.places[t].inHand == None && s.places[t].stored
      && var p := s.places[t];
      && s' == Go(s.(nodes := s.nodes[n := NodeState(None, None, anchor, Some(t))]), t,
                  Linking(p.op, p.pred, p.predBuffer, p.realBuffer, n))
    case ServeSetBackward(t) =>
      && t in s.places && s.places[t].Linking? && s.places[t].node in s.nodes
      && var p := s.places[t];
      && s' == Go(s.(nodes := s.nodes[p.node := s.nodes[p.node].(backward := Some(p.op.node), linker := None)]), t,
                  Serving(p.op, p.pred, None, p.predBuffer, p.realBuffer, true))
    case ServeDone(t) =>
      && t in s.places && t in s.contexts && s.places[t].Serving? && s.places[t].inHand == None
      && s.places[t].stored && (s.places[t].op.kind == Insert || s.contexts[t].queue == [])
      && s' == Go(s, t, ReleasingRight(s.places[t].op, s.places[t].pred))
    case _ => false
  }

  /** failed_write, and what put and update do with its outcome. */
  ghost predicate NextLoser(s: State, step: Step, s': State) {
    match step
    case Check(t) =>
      && t in s.places && s.places[t].Checking? && s.places[t].owner in s.contexts
      && var p := s.places[t];
      && s' == Go(s, t, if s.contexts[p.owner].kind == p.op.kind then Spinning(p.op, p.owner, p.since)
                        else Retry(p.op))
    case Spin(t) =>
      && t in s.places && s.places[t].Spinning? && s.places[t].owner in s.contexts
      && s.contexts[s.places[t].owner].maxDepth != -1
      && s' == Go(s, t, Subtracting(s.places[t].op, s.places[t].owner, s.places[t].since))
    case Subtract(t) =>
      && t in s.places && s.places[t].Subtracting? && s.places[t].owner in s.contexts
      && var p := s.places[t];
      && var c := s.contexts[p.owner];
      && s' == Go(SetDepth(s, p.owner, c.maxDepth - 1, if c.maxDepth > 0 then c.admitted + 1 else c.admitted), t,
                  if c.maxDepth > 0 then Enqueueing(p.op, p.owner, p.since) else Retry(p.op))
    case Enqueue(t, rid) =>
      && t in s.places && s.places[t].Enqueueing? && s.places[t].owner in s.contexts && rid !in s.requests
      && var p := s.places[t];
      && s' == Go(SetQueue(s, p.owner, s.contexts[p.owner].queue + [rid])
                  .(requests := s.requests[rid := Request(t, p.owner, p.op.key, p.op.value, Pending)]),
                  t, Awaiting(p.op, p.owner, p.since, rid))
    case Finish(t) =>
      && t in s.places && s.places[t].Awaiting? && s.places[t].rid in s.requests
      && s.requests[s.places[t].rid].status.Answered?
      && s' == Go(s, t, if s.requests[s.places[t].rid].status.retry then Retry(s.places[t].op) else Idle)
    case _ => false
  }

  ghost predicate Next(s: State, step: Step, s': State) {
    NextAlone(s, step, s') || NextCompete(s, step, s') || NextServe(s, step, s') || NextLoser(s, step, s')
  }
}
