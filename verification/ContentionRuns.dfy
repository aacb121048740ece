/** Runs of the contention protocol.  max_depth bounds the losers admitted at a time, not the requests
    that wait: an admitted loser may take its time to enqueue, and may outlive its winner's hold. */
module ContentionRuns {
  import opened Keys
  import opened DataLayer
  import opened Contention
  import opened ContentionSafety
  import opened ContentionTargets

  ghost predicate Reachable(s: State) {
    exists ss :: Run(ss) && ss[|ss| - 1] == s
  }

  lemma ReachableStep(s: State, step: Step, s': State)
    requires Reachable(s) && Next(s, step, s')
    ensures Reachable(s')
  {
    hide Next, Init;
    var ss :| Run(ss) && ss[|ss| - 1] == s;
    var tt := ss + [s'];
    forall i | 0 <= i < |tt| - 1
      ensures StepAt(tt, i)
    {
      if i < |ss| - 1 {
        assert StepAt(ss, i);
      } else {
        assert CanStep(s, s');
      }
    }
    assert Run(tt) && tt[|tt| - 1] == s';
  }

  // ---------------------------------------------------------------- the cast

  /** Nodes 1 and 3, each with a predecessor of its own; and node 4, once it has been split from node 1. */
  function Free(split: bool): map<Node, NodeState> {
    var nodes := map[0 := NodeState(None, None, 0, None), 1 := NodeState(None, Some(0), 10, None),
                     2 := NodeState(None, None, 20, None), 3 := NodeState(None, Some(2), 30, None)];
    if split then nodes[4 := NodeState(None, Some(1), 12, None)] else nodes
  }

  /** The nodes while thread 0 holds r and r's predecessor. */
  function Taken(split: bool, r: Node): map<Node, NodeState>
    requires r in {1, 3}
  {
    Free(split)[r := Free(split)[r].(ctx := Some(0))][r - 1 := Free(split)[r - 1].(ctx := Some(0))]
  }

  /** An insert into r. */
  function Job(r: Node): Op {
    Op(Insert, r, 10 * r + 5, 0)
  }

  predicate Targets(targets: seq<Node>) {
    forall i {:trigger targets[i]} :: 0 <= i < |targets| ==> targets[i] in {1, 3}
  }

  /** Threads 1, 2, ...: thread t lost node targets[t - 1] to thread 0, was admitted, and has not sent
      its request yet. */
  function Losers(targets: seq<Node>): map<Thread, Place> {
    if targets == [] then map[]
    else
      var n := |targets| - 1;
      Losers(targets[..n])[n + 1 := Enqueueing(Job(targets[n]), 0, n)]
  }

  function LoserContexts(n: nat): map<Thread, Context> {
    if n == 0 then map[] else LoserContexts(n - 1)[n := Context(Insert, -1, [], 0, 0)]
  }

  lemma {:induction false} LosersAre(targets: seq<Node>, t: Thread)
    ensures t in Losers(targets) <==> 1 <= t <= |targets|
    ensures 1 <= t <= |targets| ==> Losers(targets)[t] == Enqueueing(Job(targets[t - 1]), 0, t - 1)
    ensures t in LoserContexts(|targets|) <==> 1 <= t <= |targets|
  {
    if targets != [] {
      LosersAre(targets[..|targets| - 1], t);
    }
  }

  /** Thread 0 is at p, with the context c; nothing has been sent. */
  function Scene(targets: seq<Node>, nodes: map<Node, NodeState>, p: Place, c: Context): State {
    State(nodes, LoserContexts(|targets|)[0 := c], Losers(targets)[0 := p], map[], |targets|)
  }

  function AtRest(split: bool, targets: seq<Node>, acquired: nat): State {
    Scene(targets, Free(split), Idle, Context(Insert, 4, [], 0, acquired))
  }

  /** Thread 0 has won r, and admits losers; so many it has admitted already. */
  function Open4(split: bool, targets: seq<Node>, r: Node, acquired: nat, admitted: nat): State
    requires r in {1, 3}
  {
    Scene(targets, Taken(split, r), Closing(Job(r), Some(r - 1)), Context(Insert, 4 - admitted, [], admitted, acquired))
  }

  // ---------------------------------------------------------------- what thread 0 does

  /** A step that changes thread 0's place and context, and nodes. */
  lemma OwnerStep(targets: seq<Node>, nodes: map<Node, NodeState>, p: Place, c: Context, step: Step,
                  nodes': map<Node, NodeState>, p': Place, c': Context)
    requires Reachable(Scene(targets, nodes, p, c))
    requires var s := Scene(targets, nodes, p, c);
             Next(s, step, s.(nodes := nodes', places := s.places[0 := p'], contexts := s.contexts[0 := c']))
    ensures Reachable(Scene(targets, nodes', p', c'))
  {
    hide Reachable, Next;
    var s := Scene(targets, nodes, p, c);
    assert s.places[0 := p'] == Losers(targets)[0 := p'];
    assert s.contexts[0 := c'] == LoserContexts(|targets|)[0 := c'];
    ReachableStep(s, step, Scene(targets, nodes', p', c'));
  }

  /** From rest up to the competition. */
  lemma Approach(split: bool, targets: seq<Node>, acquired: nat, r: Node)
    requires Reachable(AtRest(split, targets, acquired)) && r in {1, 3}
    ensures Reachable(Scene(targets, Free(split), CasRight(Job(r), Some(r - 1)), Context(Insert, -1, [], 0, acquired)))
  {
    hide Reachable, Scene, Taken, NextCompete, NextServe, NextLoser, Losers, LoserContexts;
    var c, op := Context(Insert, 4, [], 0, acquired), Job(r);
    SceneIs(targets, Free(split), Idle, c);
    OwnerStep(targets, Free(split), Idle, c, Start(0, op), Free(split), Draining(op), c);
    hide Free, Job;
    SceneIs(targets, Free(split), Draining(op), c);
    OwnerStep(targets, Free(split), Draining(op), c, DrainEmpty(0), Free(split), Preparing(op), c);
    PrepareToCompete(split, targets, acquired, op);
    ReadPred(split, targets, acquired, r);
  }

  lemma PrepareToCompete(split: bool, targets: seq<Node>, acquired: nat, op: Op)
    requires op.kind == Insert && Reachable(Scene(targets, Free(split), Preparing(op),
             Context(Insert, 4, [], 0, acquired)))
    ensures Reachable(Scene(targets, Free(split), Reading(op), Context(Insert, -1, [], 0, acquired)))
  {
    hide Reachable, Scene, Free, NextCompete, NextServe, NextLoser, Losers, LoserContexts;
    var c, c' := Context(Insert, 4, [], 0, acquired), Context(Insert, -1, [], 0, acquired);
    SceneIs(targets, Free(split), Preparing(op), c);
    OwnerStep(targets, Free(split), Preparing(op), c, Prepare(0), Free(split), Typing(op), c');
    SceneIs(targets, Free(split), Typing(op), c');
    OwnerStep(targets, Free(split), Typing(op), c', SetType(0), Free(split), Reading(op), c');
  }

  /** The predecessor is read. */
  lemma ReadPred(split: bool, targets: seq<Node>, acquired: nat, r: Node)
    requires r in {1, 3}
    requires Reachable(Scene(targets, Free(split), Reading(Job(r)), Context(Insert, -1, [], 0, acquired)))
    ensures Reachable(Scene(targets, Free(split), CasRight(Job(r), Some(r - 1)), Context(Insert, -1, [], 0, acquired)))
  {
    hide Reachable, Scene, NextAlone, NextServe, NextLoser, Losers, LoserContexts;
    var op, c := Job(r), Context(Insert, -1, [], 0, acquired);
    SceneIs(targets, Free(split), Reading(op), c);
    OwnerStep(targets, Free(split), Reading(op), c, ReadBackward(0), Free(split), CasRight(op, Some(r - 1)), c);
  }

  lemma SceneIs(targets: seq<Node>, nodes: map<Node, NodeState>, p: Place, c: Context)
    ensures var s := Scene(targets, nodes, p, c);
            && 0 in s.places && s.places[0] == p && 0 in s.contexts && s.contexts[0] == c &&
                s.contexts[0 := c] == s.contexts
            && s.nodes == nodes && s.clock == |targets|
  {
  }

  lemma Wins(split: bool, r: Node)
    requires r in {1, 3}
    ensures var half := Free(split)[r := Free(split)[r].(ctx := Some(0))];
            half[r - 1].ctx == None && Taken(split, r) == half[r - 1 := half[r - 1].(ctx := Some(0))]
  {
  }

  /** The competition, which thread 0 wins. */
  lemma Win(split: bool, targets: seq<Node>, acquired: nat, r: Node)
    requires r in {1, 3}
    requires Reachable(Scene(targets, Free(split), CasRight(Job(r), Some(r - 1)), Context(Insert, -1, [], 0, acquired)))
    ensures Reachable(Open4(split, targets, r, |targets|, 0))
  {
    hide Reachable, Scene, NextAlone, NextServe, NextLoser, Taken;
    Wins(split, r);
    var op, half := Job(r), Free(split)[r := Free(split)[r].(ctx := Some(0))];
    var c, c' := Context(Insert, -1, [], 0, acquired), Context(Insert, -1, [], 0, |targets|);
    SceneIs(targets, Free(split), CasRight(op, Some(r - 1)), c);
    OwnerStep(targets, Free(split), CasRight(op, Some(r - 1)), c, CasNode(0), half, CasLeft(op, r - 1), c');
    WinPred(split, targets, r, half, c');
  }

  lemma WinPred(split: bool, targets: seq<Node>, r: Node, half: map<Node, NodeState>, c: Context)
    requires r in {1, 3} && Reachable(Scene(targets, half, CasLeft(Job(r), r - 1), c)) && c.kind == Insert &&
             c.queue == []
    requires r - 1 in half && half[r - 1].ctx == None && Taken(split, r) == half[r - 1 := half[r - 1].(ctx := Some(0))]
    ensures Reachable(Open4(split, targets, r, c.acquired, 0))
  {
    hide Reachable, Scene, NextAlone, NextServe, NextLoser, Taken;
    var op := Job(r);
    SceneIs(targets, half, CasLeft(op, r - 1), c);
    OwnerStep(targets, half, CasLeft(op, r - 1), c, CasPred(0), Taken(split, r), Opening(op, Some(r - 1)), c);
    SceneIs(targets, Taken(split, r), Opening(op, Some(r - 1)), c);
    OwnerStep(targets, Taken(split, r), Opening(op, Some(r - 1)), c, Open(0), Taken(split, r), Closing(op, Some(r - 1)),
              Context(Insert, 4, [], 0, c.acquired));
  }

  /** Thread 0 with an empty buffer of 16 for each of its nodes. */
  function Starter(r: Node): Place
    requires r in {1, 3}
  {
    Serving(Job(r), Some(r - 1), None, Buffer(16, []), Buffer(16, []), false)
  }

  /** Its node's buffer, once its own record is in it. */
  function OwnBuffer(r: Node): Buffer {
    Buffer(16, [KV(10 * r + 5, 0)])
  }

  function Server(r: Node): Place
    requires r in {1, 3}
  {
    Serving(Job(r), Some(r - 1), None, Buffer(16, []), OwnBuffer(r), true)
  }

  lemma OwnStored(s: State, r: Node)
    requires r in {1, 3} && 0 in s.places && s.places[0] == Starter(r)
    ensures NextServe(s, ServeOwn(0), Go(s, 0, Server(r)))
  {
    assert [] + [KV(10 * r + 5, 0)] == OwnBuffer(r).recs;
  }

  /** Thread 0 closes its context before any loser sends its request, and stores its record. */
  lemma CloseEarly(split: bool, targets: seq<Node>, r: Node, acquired: nat, admitted: nat)
    requires r in {1, 3} && Reachable(Open4(split, targets, r, acquired, admitted))
    ensures Reachable(Scene(targets, Taken(split, r), Server(r), Context(Insert, -1, [], admitted, acquired)))
  {
    hide Reachable, Scene, NextAlone, NextLoser, NextServe, Taken, Losers, LoserContexts;
    var op, pred, b := Job(r), Some(r - 1), Buffer(16, []);
    var c, c' := Context(Insert, 4 - admitted, [], admitted, acquired), Context(Insert, -1, [], admitted, acquired);
    SceneIs(targets, Taken(split, r), Closing(op, pred), c);
    OwnerStep(targets, Taken(split, r), Closing(op, pred), c, Close(0, b, b), Taken(split, r), Starter(r), c');
    StoreEarly(targets, Taken(split, r), r, c');
  }

  lemma StoreEarly(targets: seq<Node>, nodes: map<Node, NodeState>, r: Node, c: Context)
    requires r in {1, 3} && Reachable(Scene(targets, nodes, Starter(r), c))
    ensures Reachable(Scene(targets, nodes, Server(r), c))
  {
    hide Reachable, Scene, NextAlone, NextLoser, NextServe, NextCompete, Losers, LoserContexts;
    SceneIs(targets, nodes, Starter(r), c);
    OwnStored(Scene(targets, nodes, Starter(r), c), r);
    OwnerStep(targets, nodes, Starter(r), c, ServeOwn(0), nodes, Server(r), c);
  }

  /** Thread 0 finishes before any loser sends its request. */
  lemma Leave(split: bool, targets: seq<Node>, r: Node, acquired: nat, admitted: nat)
    requires r in {1, 3} && Reachable(Open4(split, targets, r, acquired, admitted))
    ensures Reachable(AtRest(split, targets, acquired))
  {
    hide Reachable, Scene, Taken, Open4, AtRest;
    CloseEarly(split, targets, r, acquired, admitted);
    Finish(split, targets, r, acquired, admitted);
  }

  lemma Finish(split: bool, targets: seq<Node>, r: Node, acquired: nat, admitted: nat)
    requires r in {1, 3}
    requires Reachable(Scene(targets, Taken(split, r), Server(r), Context(Insert, -1, [], admitted, acquired)))
    ensures Reachable(AtRest(split, targets, acquired))
  {
    hide Reachable, Scene, NextAlone, NextLoser, NextCompete, Taken, Losers, LoserContexts;
    var op, pred, c := Job(r), Some(r - 1), Context(Insert, -1, [], admitted, acquired);
    SceneIs(targets, Taken(split, r), Server(r), c);
    OwnerStep(targets, Taken(split, r), Server(r), c, ServeDone(0), Taken(split, r), ReleasingRight(op, pred), c);
    Release(split, targets, r, c);
  }

  /** The nodes when r is released and its predecessor is not. */
  function Half(split: bool, r: Node): map<Node, NodeState>
    requires r in {1, 3}
  {
    Free(split)[r - 1 := Free(split)[r - 1].(ctx := Some(0))]
  }

  lemma Halves(split: bool, r: Node)
    requires r in {1, 3}
    ensures Taken(split, r)[r := NodeState(None, Some(r - 1), 10 * r, None)] == Half(split, r)
    ensures r in Half(split, r) && Half(split, r)[r].backward == Some(r - 1) && r - 1 in Half(split, r)
    ensures Half(split, r)[r - 1 := Half(split, r)[r - 1].(ctx := None)] == Free(split)
  {
  }

  lemma Release(split: bool, targets: seq<Node>, r: Node, c: Context)
    requires r in {1, 3} && Reachable(Scene(targets, Taken(split, r), ReleasingRight(Job(r), Some(r - 1)), c))
    requires c.queue == [] && c.kind == Insert
    ensures Reachable(AtRest(split, targets, c.acquired))
  {
    hide Reachable, Scene, Taken, Half, Free, NextLoser, NextServe, NextAlone;
    var op, pred := Job(r), Some(r - 1);
    SceneIs(targets, Taken(split, r), ReleasingRight(op, pred), c);
    TakenBy(split, r);
    Halves(split, r);
    OwnerStep(targets, Taken(split, r), ReleasingRight(op, pred), c, ReleaseRight(0), Half(split, r),
        ReleasingLeft(op, pred), c);
    ReleaseSecond(split, targets, r, c);
  }

  lemma ReleaseSecond(split: bool, targets: seq<Node>, r: Node, c: Context)
    requires r in {1, 3} && Reachable(Scene(targets, Half(split, r), ReleasingLeft(Job(r), Some(r - 1)), c))
    requires c.queue == [] && c.kind == Insert
    ensures Reachable(AtRest(split, targets, c.acquired))
  {
    hide Reachable, Scene, Half, Free, NextLoser, NextServe, NextAlone;
    var op, pred := Job(r), Some(r - 1);
    SceneIs(targets, Half(split, r), ReleasingLeft(op, pred), c);
    Halves(split, r);
    OwnerStep(targets, Half(split, r), ReleasingLeft(op, pred), c, ReleaseLeft(0), Free(split), Resetting(op), c);
    Finish0(split, targets, op, c);
  }

  lemma Finish0(split: bool, targets: seq<Node>, op: Op, c: Context)
    requires Reachable(Scene(targets, Free(split), Resetting(op), c)) && c.queue == [] && c.kind == Insert
    ensures Reachable(AtRest(split, targets, c.acquired))
  {
    hide Reachable, Scene, Free, NextLoser, NextServe, NextCompete;
    SceneIs(targets, Free(split), Resetting(op), c);
    OwnerStep(targets, Free(split), Resetting(op), c, Reset(0), Free(split), Idle,
        Context(Insert, 4, [], 0, c.acquired));
  }

  // ---------------------------------------------------------------- what a loser does

  /** As Scene, with the next loser at px, its context cx, and so many lost competitions. */
  function WithLoser(split: bool, targets: seq<Node>, r: Node, c: Context, px: Place, cx: Context, clock: nat): State
    requires r in {1, 3}
  {
    var s, x := Scene(targets, Taken(split, r), Closing(Job(r), Some(r - 1)), c), |targets| + 1;
    s.(places := s.places[x := px], contexts := s.contexts[x := cx], clock := clock)
  }

  /** A step of the loser alone. */
  lemma LoserStep(split: bool, targets: seq<Node>, r: Node, c: Context, px: Place, cx: Context, clock: nat, step: Step,
                  px': Place, cx': Context, clock': nat)
    requires r in {1, 3} && Reachable(WithLoser(split, targets, r, c, px, cx, clock))
    requires var s, x := WithLoser(split, targets, r, c, px, cx, clock), |targets| + 1;
             Next(s, step, s.(places := s.places[x := px'], contexts := s.contexts[x := cx'], clock := clock'))
    ensures Reachable(WithLoser(split, targets, r, c, px', cx', clock'))
  {
    hide Reachable, Next, Scene;
    var s, x := WithLoser(split, targets, r, c, px, cx, clock), |targets| + 1;
    var s', base := WithLoser(split, targets, r, c, px', cx', clock'),
        Scene(targets, Taken(split, r), Closing(Job(r), Some(r - 1)), c);
    assert s.places[x := px'] == base.places[x := px'];
    assert s.contexts[x := cx'] == base.contexts[x := cx'];
    ReachableStep(s, step, s');
  }

  lemma Join(split: bool, targets: seq<Node>, r: Node, c: Context)
    requires r in {1, 3} && Reachable(Scene(targets, Taken(split, r), Closing(Job(r), Some(r - 1)), c))
    ensures Reachable(WithLoser(split, targets, r, c, Preparing(Job(r)), Context(Insert, 4, [], 0, 0), |targets|))
  {
    hide Reachable, Losers, LoserContexts, NextCompete, NextServe, NextLoser, Taken, Free;
    TakenBy(split, r);
    var x, cx, n, op := |targets| + 1, Context(Insert, 4, [], 0, 0), |targets|, Job(r);
    var s := Scene(targets, Taken(split, r), Closing(op, Some(r - 1)), c);
    LosersAre(targets, x);
    ReachableStep(s, Register(x), WithLoser(split, targets, r, c, Idle, cx, n));
    LoserIs(split, targets, r, c, Idle, cx, n);
    LoserStep(split, targets, r, c, Idle, cx, n, Start(x, op), Draining(op), cx, n);
    LoserIs(split, targets, r, c, Draining(op), cx, n);
    LoserStep(split, targets, r, c, Draining(op), cx, n, DrainEmpty(x), Preparing(op), cx, n);
  }

  lemma LoserIs(split: bool, targets: seq<Node>, r: Node, c: Context, px: Place, cx: Context, clock: nat)
    requires r in {1, 3}
    ensures var s, x := WithLoser(split, targets, r, c, px, cx, clock), |targets| + 1;
            && x in s.places && s.places[x] == px && x in s.contexts && s.contexts[x] == cx &&
                s.contexts[x := cx] == s.contexts
            && s.nodes == Taken(split, r) && s.clock == clock && 0 in s.contexts && s.contexts[0] == c
  {
  }

  lemma Compete(split: bool, targets: seq<Node>, r: Node, c: Context)
    requires r in {1, 3}
    requires Reachable(WithLoser(split, targets, r, c, Preparing(Job(r)), Context(Insert, 4, [], 0, 0), |targets|))
    ensures Reachable(WithLoser(split, targets, r, c, CasRight(Job(r), Some(r - 1)), Context(Insert, -1, [], 0, 0),
            |targets|))
  {
    hide Reachable, WithLoser, NextServe, NextLoser, NextCompete;
    var x, cx, cx', n, op := |targets| + 1, Context(Insert, 4, [], 0, 0), Context(Insert, -1, [], 0, 0), |targets|,
        Job(r);
    LoserIs(split, targets, r, c, Preparing(op), cx, n);
    LoserStep(split, targets, r, c, Preparing(op), cx, n, Prepare(x), Typing(op), cx', n);
    LoserIs(split, targets, r, c, Typing(op), cx', n);
    LoserStep(split, targets, r, c, Typing(op), cx', n, SetType(x), Reading(op), cx', n);
    LoserReads(split, targets, r, c);
  }

  lemma LoserReads(split: bool, targets: seq<Node>, r: Node, c: Context)
    requires r in {1, 3}
    requires Reachable(WithLoser(split, targets, r, c, Reading(Job(r)), Context(Insert, -1, [], 0, 0), |targets|))
    ensures Reachable(WithLoser(split, targets, r, c, CasRight(Job(r), Some(r - 1)), Context(Insert, -1, [], 0, 0),
            |targets|))
  {
    hide Reachable, WithLoser, NextServe, NextLoser, NextAlone, Taken;
    var x, cx, n, op := |targets| + 1, Context(Insert, -1, [], 0, 0), |targets|, Job(r);
    LoserIs(split, targets, r, c, Reading(op), cx, n);
    TakenBy(split, r);
    LoserStep(split, targets, r, c, Reading(op), cx, n, ReadBackward(x), CasRight(op, Some(r - 1)), cx, n);
  }

  lemma Lose(split: bool, targets: seq<Node>, r: Node, c: Context)
    requires r in {1, 3}
    requires Reachable(WithLoser(split, targets, r, c, CasRight(Job(r), Some(r - 1)), Context(Insert, -1, [], 0, 0),
             |targets|))
    ensures Reachable(WithLoser(split, targets, r, c, Checking(Job(r), 0, |targets|), Context(Insert, -1, [], 0, 0),
            |targets| + 1))
  {
    hide Reachable, WithLoser, NextServe, NextAlone, NextLoser, Taken;
    var x, cx, n, op := |targets| + 1, Context(Insert, -1, [], 0, 0), |targets|, Job(r);
    LoserIs(split, targets, r, c, CasRight(op, Some(r - 1)), cx, n);
    TakenBy(split, r);
    LoserStep(split, targets, r, c, CasRight(op, Some(r - 1)), cx, n, CasNode(x), Checking(op, 0, n), cx, n + 1);
  }

  lemma TakenBy(split: bool, r: Node)
    requires r in {1, 3}
    ensures r in Taken(split, r) && Taken(split, r)[r] == NodeState(Some(0), Some(r - 1), 10 * r, None)
    ensures r - 1 in Taken(split, r) && Taken(split, r)[r - 1] == NodeState(Some(0), None, 10 * (r - 1), None)
  {
  }

  lemma Spin(split: bool, targets: seq<Node>, r: Node, c: Context)
    requires r in {1, 3} && c.kind == Insert && c.maxDepth != -1
    requires Reachable(WithLoser(split, targets, r, c, Checking(Job(r), 0, |targets|), Context(Insert, -1, [], 0, 0),
             |targets| + 1))
    ensures Reachable(WithLoser(split, targets, r, c, Subtracting(Job(r), 0, |targets|), Context(Insert, -1, [], 0, 0),
            |targets| + 1))
  {
    hide Reachable, WithLoser, Taken, NextServe, NextAlone, NextCompete;
    var x, cx, n, op := |targets| + 1, Context(Insert, -1, [], 0, 0), |targets|, Job(r);
    LoserIs(split, targets, r, c, Checking(op, 0, n), cx, n + 1);
    LoserStep(split, targets, r, c, Checking(op, 0, n), cx, n + 1, Check(x), Spinning(op, 0, n), cx, n + 1);
    SpinOn(split, targets, r, c);
  }

  lemma SpinOn(split: bool, targets: seq<Node>, r: Node, c: Context)
    requires r in {1, 3} && c.maxDepth != -1
    requires Reachable(WithLoser(split, targets, r, c, Spinning(Job(r), 0, |targets|), Context(Insert, -1, [], 0, 0),
             |targets| + 1))
    ensures Reachable(WithLoser(split, targets, r, c, Subtracting(Job(r), 0, |targets|), Context(Insert, -1, [], 0, 0),
            |targets| + 1))
  {
    hide Reachable, WithLoser, Taken, NextServe, NextAlone, NextCompete;
    var x, cx, n, op := |targets| + 1, Context(Insert, -1, [], 0, 0), |targets|, Job(r);
    LoserIs(split, targets, r, c, Spinning(op, 0, n), cx, n + 1);
    LoserStep(split, targets, r, c, Spinning(op, 0, n), cx, n + 1, Step.Spin(x), Subtracting(op, 0, n), cx, n + 1);
  }

  /** One more loser is admitted. */
  lemma Admit(split: bool, targets: seq<Node>, r: Node, acquired: nat, admitted: nat)
    requires r in {1, 3} && admitted < 4 && Reachable(Open4(split, targets, r, acquired, admitted))
    ensures Reachable(Open4(split, targets + [r], r, acquired, admitted + 1))
  {
    hide Reachable, WithLoser, Open4, Scene, Taken, Losers, LoserContexts, NextAlone, NextCompete, NextServe;
    var x, n, op := |targets| + 1, |targets|, Job(r);
    var c, cx := Context(Insert, 4 - admitted, [], admitted, acquired), Context(Insert, -1, [], 0, 0);
    OpenScene(split, targets, r, acquired, admitted);
    Join(split, targets, r, c);
    Compete(split, targets, r, c);
    Lose(split, targets, r, c);
    Spin(split, targets, r, c);
    LoserIs(split, targets, r, c, Subtracting(op, 0, n), cx, n + 1);
    var s, s' := WithLoser(split, targets, r, c, Subtracting(op, 0, n), cx, n + 1),
        Open4(split, targets + [r], r, acquired, admitted + 1);
    Admitted(split, targets, r, acquired, admitted);
    ReachableStep(s, Subtract(x), s');
  }

  lemma OpenScene(split: bool, targets: seq<Node>, r: Node, acquired: nat, admitted: nat)
    requires r in {1, 3}
    ensures Open4(split, targets, r, acquired, admitted) ==
            Scene(targets, Taken(split, r), Closing(Job(r), Some(r - 1)),
                Context(Insert, 4 - admitted, [], admitted, acquired))
  {
  }

  lemma Admitted(split: bool, targets: seq<Node>, r: Node, acquired: nat, admitted: nat)
    requires r in {1, 3} && admitted < 4
    ensures var c, cx := Context(Insert, 4 - admitted, [], admitted, acquired), Context(Insert, -1, [], 0, 0);
            var s := WithLoser(split, targets, r, c, Subtracting(Job(r), 0, |targets|), cx, |targets| + 1);
            Open4(split, targets + [r], r, acquired, admitted + 1) ==
              s.(places := s.places[|targets| + 1 := Enqueueing(Job(r), 0, |targets|)],
                 contexts := s.contexts[0 := Context(Insert, 3 - admitted, [], admitted + 1, acquired)])
  {
    var n, p, p1, p2 := |targets|, Closing(Job(r), Some(r - 1)), Subtracting(Job(r), 0, |targets|),
        Enqueueing(Job(r), 0, |targets|);
    var cx := Context(Insert, -1, [], 0, 0);
    assert (targets + [r])[..n] == targets;
    Swap(Losers(targets), 0, p, n + 1, p1, p2);
    Swap(LoserContexts(n), n + 1, cx, 0, Context(Insert, 4 - admitted, [], admitted, acquired),
         Context(Insert, 3 - admitted, [], admitted + 1, acquired));
    SwapKeys(LoserContexts(n), n + 1, cx, 0, Context(Insert, 4 - admitted, [], admitted, acquired));
  }

  lemma Swap<V>(m: map<Thread, V>, k: Thread, v: V, k': Thread, v1: V, v2: V)
    requires k != k'
    ensures m[k := v][k' := v1][k' := v2] == m[k' := v2][k := v]
    ensures m[k := v][k' := v2] == m[k' := v2][k := v]
  {
  }

  lemma SwapKeys<V>(m: map<Thread, V>, k: Thread, v: V, k': Thread, v': V)
    requires k != k'
    ensures m[k' := v'][k := v] == m[k := v][k' := v']
  {
  }

  // ---------------------------------------------------------------- any number of requests

  lemma Begin()
    ensures Reachable(AtRest(false, [], 0))
  {
    hide NextCompete, NextServe, NextLoser;
    var s0 := State(Free(false), map[], map[], map[], 0);
    assert Run([s0]) && [s0][0] == s0;
    ReachableStep(s0, Register(0), AtRest(false, [], 0));
  }

  /** Thread 0 leaves r and competes for r'. */
  lemma MoveOn(split: bool, targets: seq<Node>, r: Node, acquired: nat, admitted: nat, r': Node)
    requires r in {1, 3} && r' in {1, 3} && Reachable(Open4(split, targets, r, acquired, admitted))
    ensures Reachable(Open4(split, targets, r', |targets|, 0))
  {
    hide Reachable, Scene, AtRest, Open4;
    Leave(split, targets, r, acquired, admitted);
    Approach(split, targets, acquired, r');
    Win(split, targets, acquired, r');
  }

  /** n losers of node 1. */
  function Ones(n: nat): seq<Node> {
    if n == 0 then [] else Ones(n - 1) + [1]
  }

  lemma {:induction false} OnesAre(n: nat)
    ensures |Ones(n)| == n && Targets(Ones(n))
  {
    if n > 0 {
      OnesAre(n - 1);
    }
  }

  /** Hold after hold, one more loser is admitted and stays behind. */
  lemma {:induction false} ManyAdmitted(n: nat)
    ensures Reachable(Open4(false, Ones(n), 1, n, 0))
  {
    hide Reachable, Open4, AtRest, Scene;
    OnesAre(n);
    if n == 0 {
      Begin();
      Approach(false, [], 0, 1);
      Win(false, [], 0, 1);
    } else {
      ManyAdmitted(n - 1);
      Admit(false, Ones(n - 1), 1, n - 1, 0);
      MoveOn(false, Ones(n), 1, n - 1, 1, 1);
    }
  }

  function Rids(k: nat): (r: seq<RequestId>)
    ensures |r| == k
  {
    if k == 0 then [] else Rids(k - 1) + [k - 1]
  }

  /** The places when the first k losers have sent their requests. */
  function Waiters(targets: seq<Node>, p: Place, k: nat): map<Thread, Place>
    requires k <= |targets|
  {
    if k == 0 then Losers(targets)[0 := p]
    else Waiters(targets, p, k - 1)[k := Awaiting(Job(targets[k - 1]), 0, k - 1, k - 1)]
  }

  function Requests(targets: seq<Node>, k: nat): map<RequestId, Request>
    requires k <= |targets|
  {
    if k == 0 then map[]
    else Requests(targets, k - 1)[k - 1 := Request(k, 0, Job(targets[k - 1]).key, 0, Pending)]
  }

  lemma {:induction false} WaitersAre(targets: seq<Node>, p: Place, k: nat, t: Thread)
    requires k <= |targets|
    ensures 0 in Waiters(targets, p, k) && Waiters(targets, p, k)[0] == p
    ensures k < t <= |targets| ==>
            t in Waiters(targets, p, k) &&
            Waiters(targets, p, k)[t] == Enqueueing(Job(targets[t - 1]), 0, t - 1)
    ensures 1 <= t <= k ==>
            t in Waiters(targets, p, k) &&
            Waiters(targets, p, k)[t] == Awaiting(Job(targets[t - 1]), 0, t - 1, t - 1)
    ensures t in Requests(targets, k) <==> t < k
    ensures t < k ==> Requests(targets, k)[t] == Request(t + 1, 0, Job(targets[t]).key, 0, Pending)
  {
    LosersAre(targets, t);
    if k > 0 {
      WaitersAre(targets, p, k - 1, t);
    }
  }

  /** Thread 0 is at p, and the first k losers have sent their requests. */
  function Sent(split: bool, targets: seq<Node>, r: Node, p: Place, c: Context, k: nat): State
    requires k <= |targets| && r in {1, 3}
  {
    State(Taken(split, r), LoserContexts(|targets|)[0 := c.(queue := Rids(k))], Waiters(targets, p, k),
        Requests(targets, k), |targets|)
  }

  lemma SendNext(split: bool, targets: seq<Node>, r: Node, p: Place, c: Context, k: nat)
    requires k < |targets| && r in {1, 3} && Reachable(Sent(split, targets, r, p, c, k))
    ensures Reachable(Sent(split, targets, r, p, c, k + 1))
  {
    hide Reachable, NextAlone, NextCompete, NextServe, Sent;
    var s, s' := Sent(split, targets, r, p, c, k), Sent(split, targets, r, p, c, k + 1);
    SentIs(split, targets, r, p, c, k);
    SentGrows(split, targets, r, p, c, k);
    ReachableStep(s, Enqueue(k + 1, k), s');
  }

  lemma SentIs(split: bool, targets: seq<Node>, r: Node, p: Place, c: Context, k: nat)
    requires k <= |targets| && r in {1, 3}
    ensures var s := Sent(split, targets, r, p, c, k);
            && 0 in s.contexts && s.contexts[0] == c.(queue := Rids(k)) && k !in s.requests && 0 in s.places &&
                s.places[0] == p
            && (k < |targets| ==> k + 1 in s.places && s.places[k + 1] == Enqueueing(Job(targets[k]), 0, k))
            && s.nodes == Taken(split, r)
  {
    WaitersAre(targets, p, k, k);
    WaitersAre(targets, p, k, k + 1);
    hide Waiters, Requests, Losers, LoserContexts, Taken;
  }

  lemma SentFirst(split: bool, targets: seq<Node>, r: Node, p: Place, c: Context, k: nat)
    requires 0 < k <= |targets| && r in {1, 3}
    ensures var s := Sent(split, targets, r, p, c, k);
            && 0 in s.requests && s.requests[0] == Request(1, 0, Job(targets[0]).key, 0, Pending)
            && 1 in s.places && s.places[1] == Awaiting(Job(targets[0]), 0, 0, 0)
  {
    WaitersAre(targets, p, k, 0);
    WaitersAre(targets, p, k, 1);
    hide Waiters, Requests, Losers, LoserContexts, Taken;
  }

  lemma SentGrows(split: bool, targets: seq<Node>, r: Node, p: Place, c: Context, k: nat)
    requires k < |targets| && r in {1, 3}
    ensures var s, op := Sent(split, targets, r, p, c, k), Job(targets[k]);
            Sent(split, targets, r, p, c, k + 1) ==
              s.(contexts := s.contexts[0 := c.(queue := Rids(k) + [k])],
                 places := s.places[k + 1 := Awaiting(op, 0, k, k)],
                 requests := s.requests[k := Request(k + 1, 0, op.key, 0, Pending)])
  {
    hide LoserContexts, Losers, Taken;
    var s := Sent(split, targets, r, p, c, k);
    assert s.contexts[0 := c.(queue := Rids(k) + [k])] == LoserContexts(|targets|)[0 := c.(queue := Rids(k + 1))];
  }

  lemma {:induction false} SendAll(split: bool, targets: seq<Node>, r: Node, acquired: nat, k: nat)
    requires k <= |targets| && r in {1, 3} && Reachable(Open4(split, targets, r, acquired, 0))
    ensures Reachable(Sent(split, targets, r, Closing(Job(r), Some(r - 1)), Context(Insert, 4, [], 0, acquired), k))
  {
    hide Reachable;
    if k > 0 {
      SendAll(split, targets, r, acquired, k - 1);
      SendNext(split, targets, r, Closing(Job(r), Some(r - 1)), Context(Insert, 4, [], 0, acquired), k - 1);
    } else {
      assert Context(Insert, 4, [], 0, acquired).(queue := Rids(0)) == Context(Insert, 4, [], 0, acquired);
    }
  }

  lemma CloseDoor(split: bool, targets: seq<Node>, r: Node, acquired: nat)
    requires r in {1, 3} && Reachable(Open4(split, targets, r, acquired, 0))
    ensures Reachable(Sent(split, targets, r, Server(r), Context(Insert, -1, [], 0, acquired), |targets|))
  {
    hide Reachable, NextAlone, NextLoser, NextServe, Taken, LoserContexts, Losers, Requests, Rids;
    var n, p, c, b := |targets|, Closing(Job(r), Some(r - 1)), Context(Insert, 4, [], 0, acquired), Buffer(16, []);
    SendAll(split, targets, r, acquired, n);
    var s, s' := Sent(split, targets, r, p, c, n),
        Sent(split, targets, r, Starter(r), Context(Insert, -1, [], 0, acquired), n);
    WaitersAre(targets, p, n, 0);
    WaitersMove(targets, p, Starter(r), n);
    assert s'.contexts == s.contexts[0 := s.contexts[0].(maxDepth := -1)];
    ReachableStep(s, Close(0, b, b), s');
    StoreLate(split, targets, r, Context(Insert, -1, [], 0, acquired));
  }

  lemma StoreLate(split: bool, targets: seq<Node>, r: Node, c: Context)
    requires r in {1, 3} && Reachable(Sent(split, targets, r, Starter(r), c, |targets|))
    ensures Reachable(Sent(split, targets, r, Server(r), c, |targets|))
  {
    hide Reachable, NextAlone, NextLoser, NextCompete, NextServe, Taken, LoserContexts, Losers, Requests, Rids;
    var n := |targets|;
    var s := Sent(split, targets, r, Starter(r), c, n);
    WaitersAre(targets, Starter(r), n, 0);
    WaitersMove(targets, Starter(r), Server(r), n);
    OwnStored(s, r);
    ReachableStep(s, ServeOwn(0), Sent(split, targets, r, Server(r), c, n));
  }

  lemma {:induction false} WaitersMove(targets: seq<Node>, p: Place, p': Place, k: nat)
    requires k <= |targets|
    ensures Waiters(targets, p', k) == Waiters(targets, p, k)[0 := p']
  {
    if k > 0 {
      WaitersMove(targets, p, p', k - 1);
      SwapKeys(Waiters(targets, p, k - 1), k, Awaiting(Job(targets[k - 1]), 0, k - 1, k - 1), 0, p');
    }
  }

  /** Whatever n, an insert winner may find n requests in its queue, although at most four losers
      are admitted at a time. */
  lemma ManyMayWait(n: nat)
    ensures exists s :: Reachable(s) && 0 in s.places && s.places[0].Serving? && s.places[0].op.kind == Insert &&
              0 in s.contexts && |s.contexts[0].queue| == n && s.contexts[0].admitted == 0
  {
    hide Reachable, Open4;
    OnesAre(n);
    ManyAdmitted(n);
    CloseDoor(false, Ones(n), 1, n);
    WaitersAre(Ones(n), Server(1), n, 0);
  }

  /** Thread 1 lost node 1 to thread 0, which by now holds nodes 2 and 3. */
  lemma LateRequest()
    ensures Reachable(Sent(false, [1], 3, Server(3), Context(Insert, -1, [], 0, 1), 1))
  {
    hide Reachable, Open4, Sent;
    ManyAdmitted(0);
    Admit(false, [], 1, 0, 0);
    assert [] + [1] == [1];
    MoveOn(false, [1], 1, 0, 1, 3);
    CloseDoor(false, [1], 3, 1);
  }

  /** As Server, with the first request in its hand. */
  function HasPopped(r: Node): Place
    requires r in {1, 3}
  {
    Serving(Job(r), Some(r - 1), Some(0), Buffer(16, []), OwnBuffer(r), true)
  }

  /** Thread 0, which holds r, has taken the request into its hand. */
  function Popped(split: bool, r: Node): State
    requires r in {1, 3}
  {
    var s := Sent(split, [1], r, Server(r), Context(Insert, -1, [], 0, 1), 1);
    s.(contexts := s.contexts[0 := Context(Insert, -1, [], 0, 1)],
        places := s.places[0 := HasPopped(r)])
  }

  lemma ReachPopped(split: bool, r: Node)
    requires r in {1, 3} && Reachable(Sent(split, [1], r, Server(r), Context(Insert, -1, [], 0, 1), 1))
    ensures Reachable(Popped(split, r))
  {
    hide Reachable, Sent, NextAlone, NextCompete, NextLoser;
    var s := Sent(split, [1], r, Server(r), Context(Insert, -1, [], 0, 1), 1);
    SentIs(split, [1], r, Server(r), Context(Insert, -1, [], 0, 1), 1);
    assert Rids(1) == [0] && [0][1..] == [];
    assert Context(Insert, -1, [0], 0, 1).(queue := []) == Context(Insert, -1, [], 0, 1);
    assert NextServe(s, ServePop(0), Popped(split, r));
    ReachableStep(s, ServePop(0), Popped(split, r));
  }

  lemma PoppedIs(split: bool, r: Node)
    requires r in {1, 3}
    ensures var s := Popped(split, r);
            && 0 in s.places && s.places[0] == HasPopped(r) && s.nodes == Taken(split, r)
            && 0 in s.requests && s.requests[0] == Request(1, 0, 15, 0, Pending)
            && 1 in s.places && s.places[1] == Awaiting(Job(1), 0, 0, 0)
            && 0 in s.contexts && s.contexts[0].acquired == 1
  {
    SentFirst(split, [1], r, Server(r), Context(Insert, -1, [], 0, 1), 1);
    hide Sent;
    SentIs(split, [1], r, Server(r), Context(Insert, -1, [], 0, 1), 1);
  }

  /** Thread 0, which holds r, answers the request in its hand. */
  function AfterAnswer(s: State, r: Node, anchor: Key): State
    requires r in {1, 3} && 0 in s.requests
  {
    var (pb, rb, succeed, retry) := Served(Server(r), anchor, s.requests[0].key, s.requests[0].value);
    Go(Reply(s, 0, 0, succeed, retry), 0, Serving(Job(r), Some(r - 1), None, pb, rb, true))
  }

  lemma Answers(s: State, r: Node)
    requires r in {1, 3} && 0 in s.places && s.places[0] == HasPopped(r) && 0 in s.requests
    requires r in s.nodes
    ensures NextServe(s, ServeAnswer(0), AfterAnswer(s, r, s.nodes[r].anchor))
    ensures AfterAnswer(s, r, s.nodes[r].anchor).requests[0].status.succeed
  {
  }

  /** A request sent for node 1 is answered while its owner holds nodes 2 and 3. */
  lemma AnsweredElsewhere()
    ensures exists s, s' :: Reachable(s) && NextServe(s, ServeAnswer(0), s') &&
              s.places[0].inHand == Some(0) && s.requests[0].from == 1 && 1 in s.places && s.places[1].Awaiting? &&
              s.places[1].op.node == 1 && 1 !in Held(s.places[0]) && !InTime(s, 1) &&
              AnsweringNode(s, 0, s.requests[0].key) == 2
  {
    LateRequest();
    ReachPopped(false, 3);
    PoppedIs(false, 3);
    TakenBy(false, 3);
    hide Reachable, Popped, Taken, AfterAnswer, NextServe;
    var s := Popped(false, 3);
    Answers(s, 3);
  }

  // ---------------------------------------------------------------- node 4

  /** The nodes while thread 0, which holds node 1, has linked node 4 and not yet set its backward
      pointer. */
  function Unfinished(): map<Node, NodeState> {
    Taken(false, 1)[4 := NodeState(None, None, 12, Some(0))]
  }

  function Linker(): Place {
    Linking(Job(1), Some(0), Buffer(16, []), OwnBuffer(1), 4)
  }

  lemma Splitting()
    ensures Unfinished() == Taken(false, 1)[4 := NodeState(None, None, 12, Some(0))]
    ensures 4 !in Taken(false, 1) && 4 in Unfinished() && Unfinished()[4] == NodeState(None, None, 12, Some(0))
    ensures Unfinished()[4 := NodeState(None, Some(1), 12, None)] == Taken(true, 1)
  {
  }

  /** Thread 0 links node 4 behind node 1. */
  lemma LinkFour(targets: seq<Node>, acquired: nat, admitted: nat)
    requires Reachable(Open4(false, targets, 1, acquired, admitted))
    ensures Reachable(Scene(targets, Unfinished(), Linker(), Context(Insert, -1, [], admitted, acquired)))
  {
    hide Reachable, Scene, NextAlone, NextLoser, NextCompete, Open4, Taken, Unfinished;
    var c := Context(Insert, -1, [], admitted, acquired);
    CloseEarly(false, targets, 1, acquired, admitted);
    Splitting();
    SceneIs(targets, Taken(false, 1), Server(1), c);
    OwnerStep(targets, Taken(false, 1), Server(1), c, ServePublish(0, 4, 12), Unfinished(), Linker(), c);
  }

  /** And leaves. */
  lemma SplitOff(targets: seq<Node>, acquired: nat, admitted: nat)
    requires Reachable(Open4(false, targets, 1, acquired, admitted))
    ensures Reachable(AtRest(true, targets, acquired))
  {
    hide Reachable, Scene, NextAlone, NextLoser, NextCompete, Open4, AtRest, Taken, Unfinished;
    var c := Context(Insert, -1, [], admitted, acquired);
    LinkFour(targets, acquired, admitted);
    Splitting();
    SceneIs(targets, Unfinished(), Linker(), c);
    OwnerStep(targets, Unfinished(), Linker(), c, ServeSetBackward(0), Taken(true, 1), Server(1), c);
    Finish(true, targets, 1, acquired, admitted);
  }

  /** Thread 1 lost node 1 to thread 0, which has split it since and holds it again. */
  lemma LateForSplit()
    ensures Reachable(Sent(true, [1], 1, Server(1), Context(Insert, -1, [], 0, 1), 1))
  {
    hide Reachable, Open4, Sent, AtRest, Scene;
    ManyAdmitted(0);
    Admit(false, [], 1, 0, 0);
    assert [] + [1] == [1];
    SplitOff([1], 0, 1);
    Approach(true, [1], 0, 1);
    Win(true, [1], 0, 1);
    CloseDoor(true, [1], 1, 1);
  }

  /** A request for key 15 is granted on node 1, for which it was sent, although node 4 has taken that
      key over. */
  lemma GrantedOffRange()
    ensures exists s, s' :: Reachable(s) && NextServe(s, ServeAnswer(0), s') &&
              s.places[0].inHand == Some(0) && s.requests[0].key == 15 && s.requests[0].from == 1 &&
              s'.requests[0].status.succeed && 1 in s.places && s.places[1].Awaiting? && s.places[1].op.node == 1 &&
              AnsweringNode(s, 0, 15) == 1 && Responsible(s, 4, 15) && !Responsible(s, 1, 15)
  {
    LateForSplit();
    ReachPopped(true, 1);
    PoppedIs(true, 1);
    NodesOfFour();
    hide Reachable, Popped, Taken, AfterAnswer, NextServe;
    var s := Popped(true, 1);
    Answers(s, 1);
    OffRange(s);
  }

  lemma NodesOfFour()
    ensures Taken(true, 1) == map[0 := NodeState(Some(0), None, 0, None), 1 := NodeState(Some(0), Some(0), 10, None),
                                  2 := NodeState(None, None, 20, None), 3 := NodeState(None, Some(2), 30, None),
                                  4 := NodeState(None, Some(1), 12, None)]
  {
  }

  lemma OffRange(s: State)
    requires s.nodes == Taken(true, 1)
    ensures Responsible(s, 4, 15) && !Responsible(s, 1, 15)
  {
    NodesOfFour();
  }

  // ---------------------------------------------------------------- a null predecessor

  /** Thread 0 is linking node 4, and thread 1 is at p1. */
  function Pair(nodes: map<Node, NodeState>, p1: Place, c1: Context): State {
    State(nodes, map[0 := Context(Insert, -1, [], 0, 0), 1 := c1], map[0 := Linker(), 1 := p1], map[], 0)
  }

  lemma PairStep(nodes: map<Node, NodeState>, p1: Place, c1: Context, step: Step, nodes': map<Node, NodeState>,
                 p1': Place, c1': Context)
    requires Reachable(Pair(nodes, p1, c1))
    requires var s := Pair(nodes, p1, c1);
             Next(s, step, s.(nodes := nodes', places := s.places[1 := p1'], contexts := s.contexts[1 := c1']))
    ensures Reachable(Pair(nodes', p1', c1'))
  {
    hide Reachable, Next;
    var s := Pair(nodes, p1, c1);
    assert s.places[1 := p1'] == Pair(nodes', p1', c1').places;
    assert s.contexts[1 := c1'] == Pair(nodes', p1', c1').contexts;
    ReachableStep(s, step, Pair(nodes', p1', c1'));
  }

  lemma Enter()
    ensures Reachable(Pair(Unfinished(), Idle, Context(Insert, 4, [], 0, 0)))
  {
    hide Reachable, Open4, NextCompete, NextServe, NextLoser, Unfinished;
    ManyAdmitted(0);
    LinkFour([], 0, 0);
    var s := Scene([], Unfinished(), Linker(), Context(Insert, -1, [], 0, 0));
    assert s.places == map[0 := Linker()] && s.contexts == map[0 := Context(Insert, -1, [], 0, 0)];
    ReachableStep(s, Register(1), Pair(Unfinished(), Idle, Context(Insert, 4, [], 0, 0)));
  }

  lemma Hurry()
    ensures Reachable(Pair(Unfinished(), Typing(Op(Insert, 4, 15, 0)), Context(Insert, -1, [], 0, 0)))
  {
    hide Reachable, NextCompete, NextServe, NextLoser, Unfinished;
    Enter();
    Splitting();
    var u, op, c := Unfinished(), Op(Insert, 4, 15, 0), Context(Insert, 4, [], 0, 0);
    PairStep(u, Idle, c, Start(1, op), u, Draining(op), c);
    PairStep(u, Draining(op), c, DrainEmpty(1), u, Preparing(op), c);
    PairStep(u, Preparing(op), c, Prepare(1), u, Typing(op), Context(Insert, -1, [], 0, 0));
  }

  /** An insert that wins a node before its backward pointer is set. */
  lemma BackwardIsMissing()
    ensures exists s :: Reachable(s) && 1 in s.places && s.places[1].Crashed? && s.places[1].op.node == 4
  {
    hide Reachable, NextServe, NextLoser, Unfinished;
    Hurry();
    Splitting();
    var u, op, c := Unfinished(), Op(Insert, 4, 15, 0), Context(Insert, -1, [], 0, 0);
    PairStep(u, Typing(op), c, SetType(1), u, Reading(op), c);
    PairStep(u, Reading(op), c, ReadBackward(1), u, CasRight(op, None), c);
    var u' := u[4 := u[4].(ctx := Some(1))];
    PairStep(u, CasRight(op, None), c, CasNode(1), u', Crashed(op), c);
  }
}
