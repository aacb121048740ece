/** The search layer under concurrency: any number of writers link nodes on the bottom level
    (async_update), one thread links the upper levels (calibrate), any number of readers descend
    (fuzzy_search).  Every read of a shared pointer by a reader is a step of its own, and so is every
    write.  The calibrator reads only pointers above the bottom, which nobody else writes; its reads
    of one pointer in a row are one step. */
module Interleaving {
  import opened Keys
  import opened Levels

  const MAX_LEVEL: nat := 16

  /** A writer between its read of the data node's bottom pointer and the write that publishes the
      new node.  The new node is still private. */
  datatype Publication = Publication(anchor: Key, level: nat, succ: Option<Key>)

  /** The thread that empties the update queue: at rest; descending through the levels above the
      bottom; about to copy its predecessor's pointer at level i; about to redirect it. */
  datatype Calibrator =
    | Resting
    | Descending(node: Key, i: nat, walker: Key, update: map<nat, Key>)
    | Copying(node: Key, i: nat, update: map<nat, Key>)
    | Redirecting(node: Key, i: nat, update: map<nat, Key>)

  /** What a reader knows of its walker's pointer in the loop test: nothing yet, that it is not null,
      or that it leads below the key. */
  datatype Seen = Nothing | NotNull | Below

  /** Which read of the walker's bottom pointer comes next, after the loops: the null test and the
      equality test of the first if, the pointer to be returned, the null test and the comparison of
      the second if. */
  datatype Final = NullTest | EqualTest | Pointer | NullTestAgain | GreaterTest

  /** A reader: in the loop of level i; past the loops; done. */
  datatype Reader =
    | Walking(member: Key, i: nat, walker: Key, seen: Seen)
    | Deciding(member: Key, walker: Key, next: Final)
    | Returned(member: Key, result: Option<Key>)

  /** links is the shared memory; level gives the pointers a node was made with; linked counts the
      levels it has been linked on so far; unpushed holds published nodes whose calibration request
      is not in the queue yet. */
  datatype State = State(
    links: Links,
    level: Heights,
    linked: Heights,
    currentLevel: nat,
    unpushed: set<Key>,
    queue: seq<Key>,
    writers: map<Key, Publication>,
    calibrator: Calibrator,
    readers: map<nat, Reader>)

  datatype Step =
    | Prepare(d: Key, anchor: Key, level: nat)
    | Publish(d: Key)
    | Push(node: Key)
    | Pop
    | CalibrateMove
    | CalibrateDown
    | CalibrateRaise
    | CalibrateCopy
    | CalibrateRedirect
    | CalibrateDone
    | Insert(anchor: Key, level: nat)
    | ReadStart(id: nat, member: Key)
    | ReadTest(id: nat)
    | ReadMove(id: nat)
    | ReadReturn(id: nat)
    | ReadFinal(id: nat)

  ghost predicate Init(s: State) {
    s == State(map[HEAD := seq(MAX_LEVEL, _ => None)], map[HEAD := MAX_LEVEL], map[HEAD := MAX_LEVEL],
               1, {}, [], map[], Resting, map[])
  }

  /** The walker's pointer at level i. */
  ghost function Forward(s: State, k: Key, i: nat): Option<Key> {
    if k in s.links && i < |s.links[k]| then s.links[k][i] else None
  }

  ghost predicate NotBelow(n: Option<Key>, key: Key) {
    n.None? || key <= n.value
  }

  /** The final tests of fuzzy_search on the walker's bottom pointer. */
  ghost function Decision(walker: Key, n: Option<Key>, member: Key): Option<Key> {
    if n.Some? && n.value == member then n
    else if n.None? || (n.value > member && walker <= member) then Some(walker)
    else None
  }

  /** Nobody but the caller is at work: the situation in which the source uses insert. */
  ghost predicate Quiet(s: State) {
    s.unpushed == {} && s.queue == [] && s.writers == map[] && s.calibrator == Resting && s.readers == map[]
  }

  ghost predicate NextWriter(s: State, step: Step, s': State) {
    match step
    case Prepare(d, a, lv) =>
      && d in s.links && d !in s.writers && d < a && 1 <= lv <= MAX_LEVEL
      && (Forward(s, d, 0).None? || a < Forward(s, d, 0).value)
      && s' == s.(writers := s.writers[d := Publication(a, lv, Forward(s, d, 0))])
    case Publish(d) =>
      && d in s.writers && d in s.links && |s.links[d]| > 0
      && var w := s.writers[d];
      && w.level > 0
      && s' == s.(links := s.links[w.anchor := [w.succ] + seq(w.level - 1, _ => None)][d :=
          s.links[d][0 := Some(w.anchor)]], level := s.level[w.anchor := w.level], linked := s.linked[w.anchor := 1],
                  unpushed := if w.level == 1 then s.unpushed else s.unpushed + {w.anchor},
                  writers := s.writers - {d})
    case Push(node) =>
      && node in s.unpushed
      && s' == s.(unpushed := s.unpushed - {node}, queue := s.queue + [node])
    case Insert(a, lv) =>
      && Quiet(s) && HEAD < a && a !in s.links && 1 <= lv <= MAX_LEVEL
      && s'.linked == s.linked[a := lv] && Wired(s'.linked, s'.links)
      && SameSizes(s.links[a := seq(lv, _ => None)], s'.links)
      && s' == s.(links := s'.links, level := s.level[a := lv], linked := s'.linked,
                  currentLevel := if lv > s.currentLevel then lv else s.currentLevel)
    case _ => false
  }

  ghost predicate NextCalibrator(s: State, step: Step, s': State) {
    var c := s.calibrator;
    match step
    case Pop =>
      && c == Resting && s.queue != [] && s.currentLevel > 0
      && s' == s.(queue := s.queue[1..],
                  calibrator := Descending(s.queue[0], s.currentLevel - 1, HEAD, map[]))
    case CalibrateMove =>
      && c.Descending? && 1 <= c.i && Forward(s, c.walker, c.i).Some? && Forward(s, c.walker, c.i).value < c.node
      && s' == s.(calibrator := Descending(c.node, c.i, Forward(s, c.walker, c.i).value, c.update))
    case CalibrateDown =>
      && c.Descending? && 1 <= c.i && NotBelow(Forward(s, c.walker, c.i), c.node)
      && s' == s.(calibrator := Descending(c.node, c.i - 1, c.walker, c.update[c.i := c.walker]))
    case CalibrateRaise =>
      && c.Descending? && c.i == 0 && c.node in s.level
      && var top := if s.level[c.node] > s.currentLevel then s.level[c.node] else s.currentLevel;
      && s' == s.(currentLevel := top,
                  calibrator := Copying(c.node, 1, map j: nat | 1 <= j < top ::
                    if j < s.currentLevel && j in c.update then c.update[j] else HEAD))
    case CalibrateCopy =>
      && c.Copying? && c.node in s.level && c.i < s.level[c.node]
      && c.i in c.update && c.node in s.links && c.i < |s.links[c.node]|
      && s' == s.(links := s.links[c.node := s.links[c.node][c.i := Forward(s, c.update[c.i], c.i)]],
                  calibrator := Redirecting(c.node, c.i, c.update))
    case CalibrateRedirect =>
      && c.Redirecting? && c.i in c.update && c.update[c.i] in s.links && c.i < |s.links[c.update[c.i]]|
      && s' == s.(links := s.links[c.update[c.i] := s.links[c.update[c.i]][c.i := Some(c.node)]],
                  linked := s.linked[c.node := c.i + 1],
                  calibrator := Copying(c.node, c.i + 1, c.update))
    case CalibrateDone =>
      && c.Copying? && c.node in s.level && s.level[c.node] <= c.i
      && s' == s.(calibrator := Resting)
    case _ => false
  }

  /** The reader leaves the loop of level i. */
  function LeaveLoop(member: Key, i: nat, walker: Key): Reader {
    if i > 0 then Walking(member, i - 1, walker, Nothing) else Deciding(member, walker, NullTest)
  }

  /** The reader after one more read of its walker's pointer, which was n, in the loop test. */
  function AfterTest(r: Reader, n: Option<Key>): Reader
    requires r.Walking?
  {
    if r.seen == Nothing then
      if n == None then LeaveLoop(r.member, r.i, r.walker) else r.(seen := NotNull)
    else
      if n.Some? && n.value < r.member then r.(seen := Below) else LeaveLoop(r.member, r.i, r.walker)
  }

  /** The reader after one more read of its walker's pointer, which was n, past the loops. */
  function AfterFinal(r: Reader, n: Option<Key>): Reader
    requires r.Deciding?
  {
    match r.next
    case NullTest => r.(next := if n == None then NullTestAgain else EqualTest)
    case EqualTest => r.(next := if n == Some(r.member) then Pointer else NullTestAgain)
    case Pointer => Returned(r.member, n)
    case NullTestAgain => if n == None then Returned(r.member, Some(r.walker)) else r.(next := GreaterTest)
    case GreaterTest =>
      Returned(r.member, if n.Some? && n.value > r.member && r.walker <= r.member then Some(r.walker) else None)
  }

  ghost predicate NextReader(s: State, step: Step, s': State) {
    match step
    case ReadStart(id, member) =>
      && id !in s.readers && HEAD < member && s.currentLevel > 0
      && s' == s.(readers := s.readers[id := Walking(member, s.currentLevel - 1, HEAD, Nothing)])
    case ReadTest(id) =>
      && id in s.readers && s.readers[id].Walking?
      && var r := s.readers[id];
      && r.seen != Below
      && s' == s.(readers := s.readers[id := AfterTest(r, Forward(s, r.walker, r.i))])
    case ReadMove(id) =>
      && id in s.readers && s.readers[id].Walking?
      && var r := s.readers[id];
      && r.seen == Below && Forward(s, r.walker, r.i).Some?
      && s' == s.(readers := s.readers[id := Walking(r.member, r.i, Forward(s, r.walker, r.i).value, Nothing)])
    case ReadReturn(id) =>
      && id in s.readers && s.readers[id].Walking?
      && var r := s.readers[id];
      && r.seen == Nothing && r.i == 0 && NotBelow(Forward(s, r.walker, 0), r.member)
      && s' == s.(readers := s.readers[id :=
                    Returned(r.member, Decision(r.walker, Forward(s, r.walker, 0), r.member))])
    case ReadFinal(id) =>
      && id in s.readers && s.readers[id].Deciding?
      && var r := s.readers[id];
      && s' == s.(readers := s.readers[id := AfterFinal(r, Forward(s, r.walker, 0))])
    case _ => false
  }

  ghost predicate Next(s: State, step: Step, s': State) {
    NextWriter(s, step, s') || NextCalibrator(s, step, s') || NextReader(s, step, s')
  }

  // ---------------------------------------------------------------- the invariant

  /** Shared memory: the pointers are the ones the linked levels ask for. */
  ghost predicate MemoryOk(s: State) {
    && s.links.Keys == s.level.Keys == s.linked.Keys && HEAD in s.links
    && s.level[HEAD] == s.linked[HEAD] == MAX_LEVEL
    && (forall k {:trigger s.linked[k]} {:trigger s.level[k]} :: k in s.level ==>
          HEAD <= k && |s.links[k]| == s.level[k] && 1 <= s.linked[k] <= s.level[k] <= MAX_LEVEL)
    && Wired(s.linked, s.links)
    && 1 <= s.currentLevel <= MAX_LEVEL
    && (forall k {:trigger s.linked[k]} :: k in s.linked && k != HEAD ==> s.linked[k] <= s.currentLevel)
    && (s.currentLevel == 1 || exists k :: k in s.level && k != HEAD && s.level[k] == s.currentLevel)
  }

  /** Every node that still misses levels waits in exactly one place. */
  ghost predicate PendingOk(s: State) {
    && (forall k {:trigger s.level[k]} :: k in s.level && k in s.linked && s.linked[k] < s.level[k] ==>
          k in s.unpushed || k in s.queue || (!s.calibrator.Resting? && k == s.calibrator.node))
    && (forall k :: k in s.unpushed ==> k in s.linked && k != HEAD && s.linked[k] == 1 && k !in s.queue)
    && (forall i :: 0 <= i < |s.queue| ==>
          s.queue[i] in s.linked && s.queue[i] != HEAD && s.linked[s.queue[i]] == 1)
    && (forall i, j :: 0 <= i < j < |s.queue| ==> s.queue[i] != s.queue[j])
    && (!s.calibrator.Resting? ==>
          s.calibrator.node !in s.unpushed && s.calibrator.node !in s.queue)
  }

  /** The predecessors the calibrator has recorded on levels lo to hi - 1. */
  ghost predicate Recorded(h: Heights, node: Key, update: map<nat, Key>, lo: nat, hi: nat) {
    forall j {:trigger update[j]} {:trigger j in update} :: lo <= j < hi ==>
        j in update && IsPred(h, node, j, update[j])
  }

  ghost predicate CalibratorOk(s: State) {
    match s.calibrator
    case Resting => true
    case Descending(node, i, walker, update) =>
      && node in s.linked && node != HEAD && s.linked[node] == 1
      && i < s.currentLevel && walker in s.linked && walker < node
      && i < s.linked[walker] && Recorded(s.linked, node, update, i + 1, s.currentLevel)
    case Copying(node, i, update) =>
      && node in s.linked && node in s.level && node != HEAD && 1 <= i && s.linked[node] == i &&
          s.level[node] <= s.currentLevel
      && Recorded(s.linked, node, update, i, s.level[node])
    case Redirecting(node, i, update) =>
      && node in s.linked && node in s.level && node != HEAD && 1 <= i < s.level[node] && s.linked[node] == i
      && s.level[node] <= s.currentLevel
      && Recorded(s.linked, node, update, i, s.level[node])
      && i in update && Forward(s, node, i) == Forward(s, update[i], i)
  }

  ghost predicate WritersOk(s: State) {
    forall d {:trigger s.writers[d]} :: d in s.writers ==>
      var w := s.writers[d];
      && d in s.links && d < w.anchor && 1 <= w.level <= MAX_LEVEL && w.succ == Forward(s, d, 0)
      && (w.succ.None? || w.anchor < w.succ.value)
  }

  ghost predicate ReaderOk(s: State, r: Reader) {
    match r
    case Walking(member, i, walker, seen) =>
      && walker in s.linked && walker < member && i < s.linked[walker]
      && (seen != Nothing ==> Forward(s, walker, i).Some?)
      && (seen == Below ==> Forward(s, walker, i).Some? && Forward(s, walker, i).value < member)
    case Deciding(member, walker, next) =>
      && walker in s.linked && walker < member && 0 < s.linked[walker]
      && (next in {EqualTest, Pointer, GreaterTest} ==> Forward(s, walker, 0).Some?)
      && (next == Pointer ==>
          Forward(s, walker, 0).Some? && Forward(s, walker, 0).value <= member &&
          member in s.linked)
    case Returned(_, _) => true
  }

  ghost predicate ReadersOk(s: State) {
    forall id {:trigger s.readers[id]} :: id in s.readers ==> ReaderOk(s, s.readers[id])
  }

  ghost predicate Inv(s: State) {
    MemoryOk(s) && PendingOk(s) && CalibratorOk(s) && WritersOk(s) && ReadersOk(s)
  }

  lemma InitInv(s: State)
    requires Init(s)
    ensures Inv(s)
  {
  }

  // ---------------------------------------------------------------- steps that leave memory alone

  /** The steps of readers. */
  predicate Reading(step: Step) {
    step.ReadStart? || step.ReadTest? || step.ReadMove? || step.ReadReturn? || step.ReadFinal?
  }

  /** A reader stays where the pointers allow it to be. */
  lemma ReaderGoesOn(s: State, step: Step, s': State)
    requires MemoryOk(s) && ReadersOk(s) && NextReader(s, step, s')
    ensures Reading(step) && step.id in s'.readers && ReaderOk(s, s'.readers[step.id])
    ensures s' == s.(readers := s.readers[step.id := s'.readers[step.id]])
  {
    var id := step.id;
    if id in s.readers {
      var r := s.readers[id];
      assert ReaderOk(s, r);
      if r.Walking? {
        assert LinkOk(s.linked, s.links, r.walker, r.i);
      } else if r.Deciding? {
        assert LinkOk(s.linked, s.links, r.walker, 0);
      }
    }
  }

  lemma ReaderKeepsInv(s: State, step: Step, s': State)
    requires Inv(s) && NextReader(s, step, s')
    ensures Inv(s')
  {
    ReaderGoesOn(s, step, s');
    OneReader(s, step.id, s'.readers[step.id], s');
  }

  lemma OneReader(s: State, id: nat, r: Reader, s': State)
    requires Inv(s) && ReaderOk(s, r) && s' == s.(readers := s.readers[id := r])
    ensures Inv(s')
  {
    forall x | x in s'.readers
      ensures ReaderOk(s', s'.readers[x])
    {
      assert x in s.readers ==> ReaderOk(s, s.readers[x]);
    }
    hide Wired, IsPred, ReaderOk;
  }

  /** Nothing but the calibrator, the queues and the writers' private nodes changed. */
  ghost predicate SameMemory(s: State, s': State) {
    && s'.links == s.links && s'.level == s.level && s'.linked == s.linked && s'.readers == s.readers
  }

  lemma SameMemoryReaders(s: State, s': State)
    requires ReadersOk(s) && SameMemory(s, s')
    ensures ReadersOk(s')
  {
    forall id | id in s'.readers
      ensures ReaderOk(s', s'.readers[id])
    {
      assert ReaderOk(s, s.readers[id]);
    }
  }

  lemma MemorySame(s: State, s': State)
    requires MemoryOk(s) && ReadersOk(s) && SameMemory(s, s') && s'.currentLevel == s.currentLevel
    ensures MemoryOk(s') && ReadersOk(s')
  {
    SameMemoryReaders(s, s');
    hide ReadersOk, Wired;
  }

  lemma WritersSame(s: State, s': State)
    requires WritersOk(s) && s'.links == s.links && s'.writers == s.writers
    ensures WritersOk(s')
  {
  }

  lemma CalibratorSame(s: State, s': State)
    requires CalibratorOk(s) && SameMemory(s, s') && s'.currentLevel == s.currentLevel && s'.calibrator == s.calibrator
    ensures CalibratorOk(s')
  {
    hide IsPred;
  }

  lemma PrepareKeepsInv(s: State, step: Step, s': State)
    requires Inv(s) && step.Prepare? && NextWriter(s, step, s')
    ensures Inv(s')
  {
    MemorySame(s, s');
    CalibratorSame(s, s');
    hide ReadersOk, CalibratorOk, Wired;
  }

  lemma PushKeepsInv(s: State, step: Step, s': State)
    requires Inv(s) && step.Push? && NextWriter(s, step, s')
    ensures Inv(s')
  {
    MemorySame(s, s');
    CalibratorSame(s, s');
    WritersSame(s, s');
    hide ReadersOk, CalibratorOk, WritersOk, Wired;
  }

  lemma PopKeepsInv(s: State, step: Step, s': State)
    requires Inv(s) && step.Pop? && NextCalibrator(s, step, s')
    ensures Inv(s')
  {
    MemorySame(s, s');
    WritersSame(s, s');
    hide ReadersOk, WritersOk, Wired;
    assert s.queue[0] in s.queue;
    forall k | k in s.queue && k != s.queue[0]
      ensures k in s'.queue
    {
      var i :| 0 <= i < |s.queue| && s.queue[i] == k;
      assert s'.queue[i - 1] == k;
    }
  }

  lemma DescendKeepsInv(s: State, step: Step, s': State)
    requires Inv(s) && (step.CalibrateMove? || step.CalibrateDown?) && NextCalibrator(s, step, s')
    ensures Inv(s')
  {
    MemorySame(s, s');
    WritersSame(s, s');
    var c := s.calibrator;
    assert LinkOk(s.linked, s.links, c.walker, c.i);
    hide Wired, ReadersOk, WritersOk;
    if step.CalibrateDown? {
      PredFromNext(s.linked, c.node, c.i, c.walker, Forward(s, c.walker, c.i));
    }
    hide IsNext, IsPred;
  }

  lemma RaiseKeepsInv(s: State, step: Step, s': State)
    requires Inv(s) && step.CalibrateRaise? && NextCalibrator(s, step, s')
    ensures Inv(s')
  {
    SameMemoryReaders(s, s');
    var c, c' := s.calibrator, s'.calibrator;
    forall j | 1 <= j < s'.level[c.node]
      ensures j in c'.update && IsPred(s'.linked, c.node, j, c'.update[j])
    {
      if j < s.currentLevel {
        assert IsPred(s.linked, c.node, j, c.update[j]);
      }
    }
  }

  lemma DoneKeepsInv(s: State, step: Step, s': State)
    requires Inv(s) && step.CalibrateDone? && NextCalibrator(s, step, s')
    ensures Inv(s')
  {
    SameMemoryReaders(s, s');
  }

  // ---------------------------------------------------------------- steps that write pointers

  /** What readers and writers may rely on: no node is unlinked, and a pointer on a linked level is
      only ever redirected to a nearer node. */
  ghost predicate OnlyNearer(s: State, s': State) {
    && (forall k {:trigger s.linked[k]} :: k in s.linked ==> k in s'.linked && s.linked[k] <= s'.linked[k])
    && (forall k, i {:trigger Forward(s', k, i)} :: k in s.linked && 0 <= i < s.linked[k] && Forward(s, k, i).Some? ==>
          Forward(s', k, i).Some? && Forward(s', k, i).value <= Forward(s, k, i).value)
  }

  lemma NearerReaders(s: State, s': State)
    requires ReadersOk(s) && s'.readers == s.readers && OnlyNearer(s, s')
    ensures ReadersOk(s')
  {
    forall id | id in s'.readers
      ensures ReaderOk(s', s'.readers[id])
    {
      assert ReaderOk(s, s.readers[id]);
    }
  }

  /** A new bottom node plays no part above the bottom. */
  lemma RecordedAfterPublish(h: Heights, a: Key, node: Key, update: map<nat, Key>, lo: nat, hi: nat)
    requires Recorded(h, node, update, lo, hi) && a !in h && 1 <= lo
    ensures Recorded(h[a := 1], node, update, lo, hi)
  {
    forall j | lo <= j < hi
      ensures j in update && IsPred(h[a := 1], node, j, update[j])
    {
      assert j in update && IsPred(h, node, j, update[j]);
    }
  }

  lemma PublishWires(s: State, step: Step, s': State)
    requires MemoryOk(s) && WritersOk(s) && step.Publish? && NextWriter(s, step, s')
    ensures Wired(s'.linked, s'.links) && s.writers[step.d].anchor !in s.links
    ensures s'.linked == s.linked[s.writers[step.d].anchor := 1]
  {
    var d, w := step.d, s.writers[step.d];
    var a, row := w.anchor, [w.succ] + seq(w.level - 1, _ => None);
    BottomPred(s.linked, s.links, d, a);
    AddUnlinked(s.linked, s.links, a, row);
    LinkStep(s.linked[a := 0], s.links[a := row], a, d, 0);
    assert s.linked[a := 0][a := 1] == s.linked[a := 1];
    CopiedAlready(s.links[a := row], a, d, 0);
  }

  lemma PublishNearer(s: State, step: Step, s': State)
    requires MemoryOk(s) && WritersOk(s) && step.Publish? && NextWriter(s, step, s') &&
             s.writers[step.d].anchor !in s.links
    ensures OnlyNearer(s, s')
  {
    assert LinkOk(s.linked, s.links, step.d, 0);
  }

  lemma PublishKeepsMemory(s: State, step: Step, s': State)
    requires MemoryOk(s) && WritersOk(s) && step.Publish? && NextWriter(s, step, s')
    ensures MemoryOk(s') && OnlyNearer(s, s') && s.writers[step.d].anchor !in s.links
    ensures s'.linked == s.linked[s.writers[step.d].anchor := 1]
  {
    hide Wired, IsNext, IsPred;
    PublishWires(s, step, s');
    PublishNearer(s, step, s');
    if s.currentLevel > 1 {
      var k :| k in s.level && k != HEAD && s.level[k] == s.currentLevel;
      assert k in s'.level && s'.level[k] == s'.currentLevel;
    }
  }

  lemma PublishKeepsCalibrator(s: State, step: Step, s': State)
    requires CalibratorOk(s) && OnlyNearer(s, s') && step.Publish? && NextWriter(s, step, s')
    requires s.links.Keys == s.linked.Keys && s.writers[step.d].anchor !in s.links
    requires s'.linked == s.linked[s.writers[step.d].anchor := 1]
    ensures CalibratorOk(s')
  {
    var a, c := s.writers[step.d].anchor, s.calibrator;
    match c {
      case Resting =>
      case Descending(node, i, walker, update) =>
        RecordedAfterPublish(s.linked, a, node, update, i + 1, s.currentLevel);
      case Copying(node, i, update) =>
        RecordedAfterPublish(s.linked, a, node, update, i, s.level[node]);
      case Redirecting(node, i, update) =>
        RecordedAfterPublish(s.linked, a, node, update, i, s.level[node]);
    }
  }

  lemma PublishKeepsInv(s: State, step: Step, s': State)
    requires Inv(s) && step.Publish? && NextWriter(s, step, s')
    ensures Inv(s')
  {
    hide Wired, IsPred, IsNext;
    PublishKeepsMemory(s, step, s');
    NearerReaders(s, s');
    PublishKeepsCalibrator(s, step, s');
    hide ReadersOk, CalibratorOk, OnlyNearer;
  }

  lemma CopyKeepsMemory(s: State, step: Step, s': State)
    requires MemoryOk(s) && CalibratorOk(s) && step.CalibrateCopy? && NextCalibrator(s, step, s')
    ensures MemoryOk(s') && OnlyNearer(s, s')
  {
    hide IsPred, IsNext;
    forall k, i | k in s'.linked && 0 <= i < s'.linked[k]
      ensures LinkOk(s'.linked, s'.links, k, i)
    {
      assert LinkOk(s.linked, s.links, k, i);
    }
  }

  lemma CopyKeepsInv(s: State, step: Step, s': State)
    requires Inv(s) && step.CalibrateCopy? && NextCalibrator(s, step, s')
    ensures Inv(s')
  {
    CopyKeepsMemory(s, step, s');
    NearerReaders(s, s');
    hide IsPred, Wired, ReadersOk, OnlyNearer;
  }

  lemma RedirectWires(s: State, step: Step, s': State)
    requires MemoryOk(s) && CalibratorOk(s) && step.CalibrateRedirect? && NextCalibrator(s, step, s')
    ensures Wired(s'.linked, s'.links)
  {
    var c := s.calibrator;
    var a, i, p := c.node, c.i, c.update[c.i];
    assert IsPred(s.linked, a, i, p);
    LinkStep(s.linked, s.links, a, p, i);
    CopiedAlready(s.links, a, p, i);
  }

  lemma RedirectNearer(s: State, step: Step, s': State)
    requires MemoryOk(s) && CalibratorOk(s) && step.CalibrateRedirect? && NextCalibrator(s, step, s')
    ensures OnlyNearer(s, s')
  {
    var c := s.calibrator;
    assert IsPred(s.linked, c.node, c.i, c.update[c.i]);
    assert LinkOk(s.linked, s.links, c.update[c.i], c.i);
  }

  lemma RedirectKeepsMemory(s: State, step: Step, s': State)
    requires MemoryOk(s) && CalibratorOk(s) && step.CalibrateRedirect? && NextCalibrator(s, step, s')
    ensures MemoryOk(s') && OnlyNearer(s, s')
  {
    assert IsPred(s.linked, s.calibrator.node, s.calibrator.i, s.calibrator.update[s.calibrator.i]);
    RedirectWires(s, step, s');
    RedirectNearer(s, step, s');
    hide IsPred, Wired, OnlyNearer;
  }

  /** Where the predecessor's pointer has been copied, redirecting is all that is left of linking. */
  lemma CopiedAlready(links: Links, a: Key, p: Key, i: nat)
    requires a in links && p in links && i < |links[a]| && i < |links[p]| && links[a][i] == links[p][i]
    ensures LinkedIn(links, a, p, i) == links[p := links[p][i := Some(a)]]
  {
    assert links[a][i := links[p][i]] == links[a];
  }

  lemma RecordedAfterRedirect(h: Heights, node: Key, x: nat, update: map<nat, Key>, lo: nat, hi: nat)
    requires Recorded(h, node, update, lo, hi)
    ensures Recorded(h[node := x], node, update, lo + 1, hi)
  {
    forall j | lo + 1 <= j < hi
      ensures j in update && IsPred(h[node := x], node, j, update[j])
    {
      assert j in update && IsPred(h, node, j, update[j]);
      PredIgnoresSelf(h, node, j, update[j], x);
    }
  }

  lemma RedirectKeepsRest(s: State, step: Step, s': State)
    requires Inv(s) && step.CalibrateRedirect? && NextCalibrator(s, step, s')
    ensures PendingOk(s') && CalibratorOk(s') && WritersOk(s')
  {
    var c := s.calibrator;
    RecordedAfterRedirect(s.linked, c.node, c.i + 1, c.update, c.i, s.level[c.node]);
    hide Wired, IsPred, ReadersOk;
  }

  lemma RedirectKeepsInv(s: State, step: Step, s': State)
    requires Inv(s) && step.CalibrateRedirect? && NextCalibrator(s, step, s')
    ensures Inv(s')
  {
    RedirectKeepsMemory(s, step, s');
    NearerReaders(s, s');
    RedirectKeepsRest(s, step, s');
  }

  lemma InsertKeepsInv(s: State, step: Step, s': State)
    requires Inv(s) && step.Insert? && NextWriter(s, step, s')
    ensures Inv(s')
  {
    hide Wired, IsNext, IsPred;
    if step.level >= s.currentLevel {
      assert step.anchor in s'.level && s'.level[step.anchor] == step.level;
    } else {
      var k :| k in s.level && k != HEAD && s.level[k] == s.currentLevel;
      assert k in s'.level && s'.level[k] == s'.currentLevel;
    }
  }

  lemma WriterKeepsInv(s: State, step: Step, s': State)
    requires Inv(s) && NextWriter(s, step, s')
    ensures Inv(s')
  {
    hide Inv;
    if step.Prepare? {
      PrepareKeepsInv(s, step, s');
    } else if step.Publish? {
      PublishKeepsInv(s, step, s');
    } else if step.Push? {
      PushKeepsInv(s, step, s');
    } else {
      InsertKeepsInv(s, step, s');
    }
  }

  lemma CalibratorKeepsInv(s: State, step: Step, s': State)
    requires Inv(s) && NextCalibrator(s, step, s')
    ensures Inv(s')
  {
    hide Inv;
    match step {
      case Pop => PopKeepsInv(s, step, s');
      case CalibrateRaise => RaiseKeepsInv(s, step, s');
      case CalibrateCopy => CopyKeepsInv(s, step, s');
      case CalibrateRedirect => RedirectKeepsInv(s, step, s');
      case CalibrateDone => DoneKeepsInv(s, step, s');
      case _ => DescendKeepsInv(s, step, s');
    }
  }

  lemma NextKeepsInv(s: State, step: Step, s': State)
    requires Inv(s) && Next(s, step, s')
    ensures Inv(s')
  {
    hide Inv, NextWriter, NextCalibrator, NextReader;
    if NextWriter(s, step, s') {
      WriterKeepsInv(s, step, s');
    } else if NextCalibrator(s, step, s') {
      CalibratorKeepsInv(s, step, s');
    } else {
      ReaderKeepsInv(s, step, s');
    }
  }

  // ---------------------------------------------------------------- runs

  ghost predicate CanStep(s: State, s': State) {
    exists step :: Next(s, step, s')
  }

  /** Some step leads from the i-th state of a run to the next. */
  ghost predicate StepAt(ss: seq<State>, i: nat)
    requires i + 1 < |ss|
  {
    CanStep(ss[i], ss[i + 1])
  }

  ghost predicate Run(ss: seq<State>) {
    && ss != [] && Init(ss[0])
    && (forall i {:trigger StepAt(ss, i)} :: 0 <= i < |ss| - 1 ==> StepAt(ss, i))
  }

  lemma {:induction false} RunKeepsInv(ss: seq<State>, i: nat)
    requires Run(ss) && i < |ss|
    ensures Inv(ss[i])
  {
    hide Inv, Next;
    if i == 0 {
      InitInv(ss[0]);
    } else {
      RunKeepsInv(ss, i - 1);
      assert StepAt(ss, i - 1);
      var step :| Next(ss[i - 1], step, ss[i]);
      NextKeepsInv(ss[i - 1], step, ss[i]);
    }
  }

  ghost predicate Reachable(s: State) {
    exists ss :: Run(ss) && ss[|ss| - 1] == s
  }

  lemma ReachableInv(s: State)
    requires Reachable(s)
    ensures Inv(s)
  {
    var ss :| Run(ss) && ss[|ss| - 1] == s;
    RunKeepsInv(ss, |ss| - 1);
  }

  // ---------------------------------------------------------------- levels are sorted sublists

  /** The level-i pointer of path's j-th node leads to its next. */
  ghost predicate Hop(s: State, i: nat, path: seq<Key>, j: nat)
    requires j + 1 < |path|
  {
    Forward(s, path[j], i) == Some(path[j + 1])
  }

  /** path follows the level-i pointers from the head to the end of the list. */
  ghost predicate IsLevel(s: State, i: nat, path: seq<Key>) {
    && path != [] && path[0] == HEAD
    && (forall j {:trigger Hop(s, i, path, j)} :: 0 <= j < |path| - 1 ==> Hop(s, i, path, j))
    && Forward(s, path[|path| - 1], i) == None
  }

  ghost predicate StrictlySorted(path: seq<Key>) {
    forall j, k :: 0 <= j < k < |path| ==> path[j] < path[k]
  }

  ghost function Above(h: Heights, k: Key): set<Key> {
    set x | x in h && k < x
  }

  /** What is found by following level i from k, an anchor on that level. */
  ghost function Walk(s: State, i: nat, k: Key): (path: seq<Key>)
    requires Wired(s.linked, s.links) && k in s.linked && i < s.linked[k]
    ensures path != [] && path[0] == k && Forward(s, path[|path| - 1], i) == None
    ensures forall j {:trigger Hop(s, i, path, j)} :: 0 <= j < |path| - 1 ==> Hop(s, i, path, j)
    decreases Above(s.linked, k)
  {
    assert LinkOk(s.linked, s.links, k, i);
    var n := Forward(s, k, i);
    if n.None? then [k]
    else
      assert n.value in Above(s.linked, k) && n.value !in Above(s.linked, n.value);
      assert Above(s.linked, n.value) <= Above(s.linked, k);
      var rest := Walk(s, i, n.value);
      var path := [k] + rest;
      assert forall j {:trigger Hop(s, i, path, j)} :: 0 < j < |path| - 1 ==>
          Hop(s, i, rest, j - 1) && path[j] == rest[j - 1] && path[j + 1] == rest[j];
      path
  }

  lemma {:induction false} PathIsLevel(s: State, i: nat, path: seq<Key>, j: nat)
    requires Inv(s) && i < MAX_LEVEL && IsLevel(s, i, path) && j < |path|
    ensures path[j] in s.linked && i < s.linked[path[j]]
    ensures StrictlySorted(path[..j + 1])
    ensures forall x :: x in s.linked && i < s.linked[x] && x <= path[j] ==> x in path[..j + 1]
  {
    hide PendingOk, CalibratorOk, WritersOk, ReadersOk;
    if j > 0 {
      PathIsLevel(s, i, path, j - 1);
      assert Hop(s, i, path, j - 1);
      assert LinkOk(s.linked, s.links, path[j - 1], i);
      assert path[..j + 1] == path[..j] + [path[j]];
    }
  }

  /** In every reachable state of every interleaving, following the pointers of a level visits, in
      strictly ascending order, exactly the nodes linked on it; so each level is a sorted sublist of
      the one below, and the bottom level is the sorted list of all nodes. */
  lemma LevelsAreSortedSublists(s: State, i: nat)
    requires Reachable(s) && i < MAX_LEVEL
    ensures exists path :: IsLevel(s, i, path)
    ensures forall path :: IsLevel(s, i, path) ==>
              StrictlySorted(path) && forall x :: x in path <==> x in s.linked && i < s.linked[x]
    ensures i == 0 ==> forall x :: x in s.links ==> x in s.linked && i < s.linked[x]
  {
    ReachableInv(s);
    assert IsLevel(s, i, Walk(s, i, HEAD));
    forall path | IsLevel(s, i, path)
      ensures StrictlySorted(path)
      ensures forall x :: x in path <==> x in s.linked && i < s.linked[x]
    {
      var last := |path| - 1;
      PathIsLevel(s, i, path, last);
      assert path[..last + 1] == path;
      assert LinkOk(s.linked, s.links, path[last], i);
      forall x | x in path
        ensures x in s.linked && i < s.linked[x]
      {
        var j :| 0 <= j < |path| && path[j] == x;
        PathIsLevel(s, i, path, j);
      }
    }
  }

  // ---------------------------------------------------------------- confluence

  /** No request is waiting or being served. */
  ghost predicate Drained(s: State) {
    s.unpushed == {} && s.queue == [] && s.writers == map[] && s.calibrator == Resting
  }

  /** Once the queue is drained, shared memory and the list's height depend only on which anchors
      were made with which level: not on the order of the splits, not on the interleaving, and not
      on whether a node came by insert or by async_update and calibrate. */
  lemma DrainedStatesAgree(s: State, t: State)
    requires Reachable(s) && Reachable(t) && Drained(s) && Drained(t)
    requires s.level == t.level
    ensures s.links == t.links && s.currentLevel == t.currentLevel
  {
    ReachableInv(s);
    ReachableInv(t);
    DrainedLinked(s);
    DrainedLinked(t);
    forall k | k in s.links
      ensures s.links[k] == t.links[k]
    {
      forall i | 0 <= i < |s.links[k]|
        ensures s.links[k][i] == t.links[k][i]
      {
        assert LinkOk(s.linked, s.links, k, i) && LinkOk(t.linked, t.links, k, i);
        NextUnique(s.linked, k, i, s.links[k][i], t.links[k][i]);
      }
    }
  }

  lemma DrainedLinked(s: State)
    requires Inv(s) && Drained(s)
    ensures s.linked == s.level
  {
    assert forall k :: k in s.level ==> s.linked[k] == s.level[k];
  }

  // ---------------------------------------------------------------- fuzzy_search

  /** The node with the greatest anchor at most member, the head if there is none. */
  ghost predicate IsFloor(s: State, member: Key, k: Key) {
    k in s.links && k <= member && forall j :: j in s.links && j <= member ==> j <= k
  }

  /** A reader whose last loop test and decision are one step returns the node responsible for its
      key at that step, whatever writers and the calibrator did during the descent. */
  lemma ReadReturnsFloor(s: State, id: nat, s': State)
    requires Reachable(s) && NextReader(s, ReadReturn(id), s')
    ensures s'.readers[id].result.Some?
    ensures IsFloor(s', s'.readers[id].member, s'.readers[id].result.value)
  {
    ReachableInv(s);
    var r := s.readers[id];
    assert ReaderOk(s, r);
    assert LinkOk(s.linked, s.links, r.walker, 0);
  }

  /** The nodes above k and not above member. */
  ghost function Between(s: State, k: Key, member: Key): set<Key> {
    set x | x in s.links && k < x <= member
  }

  /** The right answer. */
  ghost predicate Right(s: State, member: Key, result: Option<Key>) {
    result.Some? && IsFloor(s, member, result.value)
  }

  /** When a reader leaves its last loop, no node but perhaps the key's own lies between. */
  lemma LeavesLastLoop(s: State, id: nat, s': State)
    requires Reachable(s) && NextReader(s, ReadTest(id), s') && s'.readers[id].Deciding?
    ensures var r := s'.readers[id]; r.next == NullTest && Between(s', r.walker, r.member) <= {r.member}
  {
    ReachableInv(s);
    var r := s.readers[id];
    assert ReaderOk(s, r);
    assert LinkOk(s.linked, s.links, r.walker, 0);
  }

  /** As the source has it, every test after the loops reads the pointer again.  A search that ends is
      right exactly if, at its last read, nothing lies between the walker and the key but the node it
      is about to return: the key's own, if the equality test found it.  It gives up exactly if the
      last read is the comparison and some node lies between, perhaps with the key itself. */
  lemma ReadEndsRightIff(s: State, id: nat, s': State)
    requires Reachable(s) && NextReader(s, ReadFinal(id), s') && s'.readers[id].Returned?
    ensures var r, result := s.readers[id], s'.readers[id].result;
            && (Right(s', r.member, result) <==>
                  Between(s, r.walker, r.member) == if r.next == Pointer then {r.member} else {})
            && (result == None <==> r.next == GreaterTest && Between(s, r.walker, r.member) != {})
  {
    ReachableInv(s);
    var r := s.readers[id];
    var n, m, between := Forward(s, r.walker, 0), r.member, Between(s, r.walker, r.member);
    assert ReaderOk(s, r);
    assert LinkOk(s.linked, s.links, r.walker, 0);
    assert n.Some? && n.value <= m ==> n.value in between;
    assert between != {} ==> n.Some? && n.value <= m;
    if r.next == Pointer {
      assert m in between;
      assert n.value == m ==> between == {m};
    }
  }

  /** Where a reader past the loops can be while nothing but the key's own node lies between. */
  ghost predicate OnTrack(s: State, id: nat, member: Key, walker: Key) {
    && id in s.readers && Between(s, walker, member) <= {member}
    && match s.readers[id]
       case Walking(_, _, _, _) => false
       case Deciding(m, w, next) =>
         && m == member && w == walker
         && (if member in s.links then next in {NullTest, EqualTest, Pointer}
             else next in {NullTest, EqualTest, NullTestAgain, GreaterTest})
       case Returned(m, result) => m == member && Right(s, member, result)
  }

  lemma StaysOnTrack(s: State, step: Step, s': State, id: nat, member: Key, walker: Key)
    requires Reachable(s) && Next(s, step, s') && OnTrack(s, id, member, walker)
    requires walker in s.links && walker < member && Between(s', walker, member) == Between(s, walker, member)
    ensures OnTrack(s', id, member, walker)
  {
    ReachableInv(s);
    StepKeepsReaders(s, step, s', id);
    assert member in s.links <==> member in Between(s, walker, member);
    assert member in s'.links <==> member in Between(s', walker, member);
    if step == ReadFinal(id) {
      FinalOnTrack(s, id, s', member, walker);
    } else if s.readers[id].Returned? {
      SameFloor(s, s', member, walker, s.readers[id].result.value);
    }
  }

  lemma FinalOnTrack(s: State, id: nat, s': State, member: Key, walker: Key)
    requires Reachable(s) && NextReader(s, ReadFinal(id), s') && OnTrack(s, id, member, walker)
    requires walker in s.links && walker < member
    ensures OnTrack(s', id, member, walker)
  {
    ReachableInv(s);
    var r, n := s.readers[id], Forward(s, walker, 0);
    assert ReaderOk(s, r) && LinkOk(s.linked, s.links, walker, 0);
    assert member in s.links ==> member in Between(s, walker, member);
    assert n.Some? && n.value <= member ==> n.value in Between(s, walker, member);
    assert Between(s', walker, member) == Between(s, walker, member);
    if s'.readers[id].Returned? {
      ReadEndsRightIff(s, id, s');
    }
  }

  /** The floor depends on what lies between only. */
  lemma SameFloor(s: State, s': State, member: Key, walker: Key, k: Key)
    requires IsFloor(s, member, k) && walker in s.links && walker < member && s.links.Keys <= s'.links.Keys
    requires Between(s', walker, member) == Between(s, walker, member)
    ensures IsFloor(s', member, k)
  {
    forall j | j in s'.links && j <= member
      ensures j <= k
    {
      if walker < j {
        assert j in Between(s', walker, member);
        assert j in Between(s, walker, member);
      }
    }
  }

  /** Only its own steps move a reader, and no node disappears. */
  lemma StepKeepsReaders(s: State, step: Step, s': State, id: nat)
    requires Next(s, step, s') && id in s.readers
    ensures id in s'.readers && s.links.Keys <= s'.links.Keys
    ensures s'.readers[id] != s.readers[id] ==> NextReader(s, step, s') && Reading(step) && step.id == id
    ensures s.readers[id].Deciding? && s'.readers[id] != s.readers[id] ==> step == ReadFinal(id)
    ensures s.readers[id].Returned? ==> s'.readers[id] == s.readers[id]
  {
    StepGrows(s, step, s');
    hide NextCalibrator, NextReader, Wired;
    if NextCalibrator(s, step, s') {
      CalibratorGrows(s, step, s');
    } else if NextReader(s, step, s') {
      ReaderGrows(s, step, s');
    }
  }

  /** Just past the loops, a reader is on track. */
  lemma StartsOnTrack(s: State, id: nat, member: Key, walker: Key)
    requires Inv(s) && id in s.readers && s.readers[id] == Deciding(member, walker, NullTest)
    ensures walker in s.links && walker < member
    ensures Between(s, walker, member) <= {member} ==> OnTrack(s, id, member, walker)
  {
    assert ReaderOk(s, s.readers[id]);
  }

  /** A search is right whenever the nodes between its walker and its key stay the same from the time
      it leaves its last loop to the time it returns. */
  lemma {:induction false} UndisturbedSearchIsRight(ss: seq<State>, i: nat, j: nat, id: nat, member: Key, walker: Key)
    requires Run(ss) && i <= j < |ss| && id in ss[i].readers && ss[i].readers[id] == Deciding(member, walker, NullTest)
    requires Between(ss[i], walker, member) <= {member}
    requires Between(ss[j], walker, member) == Between(ss[i], walker, member)
    ensures OnTrack(ss[j], id, member, walker)
    ensures ss[j].readers[id].Returned? ==> Right(ss[j], member, ss[j].readers[id].result)
  {
    hide Inv, Next, Init, Between, Right;
    RunKeepsInv(ss, i);
    StartsOnTrack(ss[i], id, member, walker);
    if i < j {
      RunGrows(ss, i, j - 1);
      RunGrows(ss, j - 1, j);
      UndisturbedSearchIsRight(ss, i, j - 1, id, member, walker);
      StepsOnTrack(ss, j, id, member, walker);
    }
  }

  lemma StepsOnTrack(ss: seq<State>, j: nat, id: nat, member: Key, walker: Key)
    requires Run(ss) && 1 <= j < |ss| && OnTrack(ss[j - 1], id, member, walker)
    requires walker in ss[j - 1].links && walker < member
    requires Between(ss[j], walker, member) == Between(ss[j - 1], walker, member)
    ensures OnTrack(ss[j], id, member, walker)
  {
    hide Next, Init, Between, OnTrack;
    assert StepAt(ss, j - 1);
    var step :| Next(ss[j - 1], step, ss[j]);
    PrefixReachable(ss, j - 1);
    StaysOnTrack(ss[j - 1], step, ss[j], id, member, walker);
  }

  lemma PrefixReachable(ss: seq<State>, i: nat)
    requires Run(ss) && i < |ss|
    ensures Reachable(ss[i])
  {
    hide Next, Init;
    var prefix := ss[..i + 1];
    forall j | 0 <= j < |prefix| - 1
      ensures StepAt(prefix, j)
    {
      assert StepAt(ss, j);
    }
    assert Run(prefix) && prefix[|prefix| - 1] == ss[i];
  }

  lemma {:induction false} RunGrows(ss: seq<State>, i: nat, j: nat)
    requires Run(ss) && i <= j < |ss|
    ensures ss[i].links.Keys <= ss[j].links.Keys
    ensures forall k: Key, m: Key :: Between(ss[i], k, m) <= Between(ss[j], k, m)
  {
    hide Next, Init;
    if i < j {
      RunGrows(ss, i, j - 1);
      assert StepAt(ss, j - 1);
      var step :| Next(ss[j - 1], step, ss[j]);
      StepGrows(ss[j - 1], step, ss[j]);
    }
  }

  lemma StepGrows(s: State, step: Step, s': State)
    requires Next(s, step, s')
    ensures s.links.Keys <= s'.links.Keys
  {
    hide NextCalibrator, NextReader, Wired;
    if NextCalibrator(s, step, s') {
      CalibratorGrows(s, step, s');
    } else if NextReader(s, step, s') {
      ReaderGrows(s, step, s');
    }
  }

  lemma CalibratorGrows(s: State, step: Step, s': State)
    requires NextCalibrator(s, step, s')
    ensures s'.links.Keys == s.links.Keys && s'.readers == s.readers
  {
  }

  lemma ReaderGrows(s: State, step: Step, s': State)
    requires NextReader(s, step, s')
    ensures s'.links == s.links && Reading(step) && s'.readers.Keys == s.readers.Keys + {step.id}
    ensures forall x :: x in s.readers && x != step.id ==> s'.readers[x] == s.readers[x]
    ensures step.id in s.readers && s.readers[step.id].Deciding? ==> step.ReadFinal?
    ensures step.id in s.readers ==> !s.readers[step.id].Returned?
  {
    hide Decision, AfterTest, AfterFinal, LeaveLoop;
  }

  lemma ReachableStep(s: State, step: Step, s': State)
    requires Reachable(s) && Next(s, step, s')
    ensures Reachable(s')
  {
    var ss :| Run(ss) && ss[|ss| - 1] == s;
    var tt := ss + [s'];
    forall i | 0 <= i < |tt| - 1
      ensures StepAt(tt, i)
    {
      if i < |ss| - 1 {
        assert StepAt(ss, i);
      } else {
        assert CanStep(s, s');
      }
    }
    assert Run(tt) && tt[|tt| - 1] == s';
  }

  // ---------------------------------------------------------------- searches that go wrong

  /** A list with the one anchor 1, of level 1. */
  ghost function List1(readers: map<nat, Reader>): State {
    var h := map[HEAD := MAX_LEVEL, 1 := 1];
    State(map[HEAD := [Some(1)] + seq(MAX_LEVEL - 1, _ => None), 1 := [None]], h, h, 1, {}, [], map[], Resting, readers)
  }

  lemma ReachList1()
    ensures Reachable(List1(map[]))
  {
    var s0 := State(map[HEAD := seq(MAX_LEVEL, _ => None)], map[HEAD := MAX_LEVEL], map[HEAD := MAX_LEVEL],
                    1, {}, [], map[], Resting, map[]);
    var s1 := List1(map[]);
    forall k, i | k in s1.linked && 0 <= i < s1.linked[k]
      ensures LinkOk(s1.linked, s1.links, k, i)
    {
    }
    assert Run([s0]) && [s0][0] == s0;
    assert NextWriter(s0, Insert(1, 1), s1);
    ReachableStep(s0, Insert(1, 1), s1);
  }

  /** Node a is linked behind node 1, whose successor was succ. */
  lemma PublishBehind(s: State, a: Key, succ: Option<Key>, t: State)
    requires Reachable(s) && s.writers == map[] && 1 in s.links && s.links[1] == [succ] && 1 < a &&
             (succ.None? || a < succ.value)
    requires a !in s.links
    requires t == s.(links := s.links[a := [succ]][1 := [Some(a)]], level := s.level[a := 1],
             linked := s.linked[a := 1])
    ensures Reachable(t)
  {
    hide Reachable, NextCalibrator, NextReader;
    var s' := s.(writers := map[1 := Publication(a, 1, succ)]);
    assert s.writers[1 := Publication(a, 1, succ)] == s'.writers;
    assert NextWriter(s, Prepare(1, a, 1), s');
    ReachableStep(s, Prepare(1, a, 1), s');
    assert [succ] + seq(0, _ => None) == [succ];
    assert s'.links[1][0 := Some(a)] == [Some(a)];
    assert s'.writers - {1} == map[];
    assert NextWriter(s', Publish(1), t);
    ReachableStep(s', Publish(1), t);
  }

  /** One read of reader 0. */
  lemma ReadOnce(s: State, step: Step, r: Reader, r': Reader)
    requires Reachable(s) && s.readers == map[0 := r] && NextReader(s, step, s.(readers := s.readers[0 := r']))
    ensures Reachable(s.(readers := map[0 := r']))
  {
    hide Reachable, NextReader, NextWriter, NextCalibrator;
    assert s.readers[0 := r'] == map[0 := r'];
    ReachableStep(s, step, s.(readers := map[0 := r']));
  }

  /** Reader 0, in search of key 5, has come to node 1. */
  lemma ReachNode1()
    ensures Reachable(List1(map[0 := Walking(5, 0, 1, Nothing)]))
  {
    hide Reachable, NextWriter, NextCalibrator, Wired;
    ReachList1();
    var s := List1(map[]);
    assert Forward(s, HEAD, 0) == Some(1);
    var s1 := List1(map[0 := Walking(5, 0, HEAD, Nothing)]);
    ReachableStep(s, ReadStart(0, 5), s1);
    ReadOnce(s1, ReadTest(0), Walking(5, 0, HEAD, Nothing), Walking(5, 0, HEAD, NotNull));
    var s2 := List1(map[0 := Walking(5, 0, HEAD, NotNull)]);
    ReadOnce(s2, ReadTest(0), Walking(5, 0, HEAD, NotNull), Walking(5, 0, HEAD, Below));
    var s3 := List1(map[0 := Walking(5, 0, HEAD, Below)]);
    ReadOnce(s3, ReadMove(0), Walking(5, 0, HEAD, Below), Walking(5, 0, 1, Nothing));
  }

  /** Two null tests later it has seen that node 1 is the last one. */
  lemma ReachSecondTest()
    ensures Reachable(List1(map[0 := Deciding(5, 1, NullTestAgain)]))
  {
    hide Reachable, NextWriter, NextCalibrator, Wired;
    ReachNode1();
    assert Forward(List1(map[]), 1, 0) == None;
    ReadOnce(List1(map[0 := Walking(5, 0, 1, Nothing)]), ReadTest(0), Walking(5, 0, 1, Nothing),
        Deciding(5, 1, NullTest));
    ReadOnce(List1(map[0 := Deciding(5, 1, NullTest)]), ReadFinal(0), Deciding(5, 1, NullTest),
        Deciding(5, 1, NullTestAgain));
  }

  ghost function List2(a: Key, readers: map<nat, Reader>): State {
    var s := List1(readers);
    s.(links := s.links[a := [None]][1 := [Some(a)]], level := s.level[a := 1], linked := s.linked[a := 1])
  }

  /** Then node a is linked behind node 1: the second null test fails, and the comparison too. */
  lemma GivesUpOn(a: Key)
    requires 1 < a <= 5
    ensures Reachable(List2(a, map[0 := Returned(5, None)]))
  {
    hide Reachable, NextWriter, NextCalibrator, Wired;
    ReachSecondTest();
    PublishBehind(List1(map[0 := Deciding(5, 1, NullTestAgain)]), a, None,
        List2(a, map[0 := Deciding(5, 1, NullTestAgain)]));
    assert Forward(List2(a, map[]), 1, 0) == Some(a);
    ReadOnce(List2(a, map[0 := Deciding(5, 1, NullTestAgain)]), ReadFinal(0), Deciding(5, 1, NullTestAgain),
        Deciding(5, 1, GreaterTest));
    ReadOnce(List2(a, map[0 := Deciding(5, 1, GreaterTest)]), ReadFinal(0), Deciding(5, 1, GreaterTest),
        Returned(5, None));
  }

  /** fuzzy_search gives up when a node nearer to the key is linked in time, and also when the key's
      own node is. */
  lemma FuzzySearchCanGiveUp()
    ensures exists s :: Reachable(s) && 0 in s.readers && s.readers[0] == Returned(5, None) && 5 !in s.links
    ensures exists s :: Reachable(s) && 0 in s.readers && s.readers[0] == Returned(5, None) && Between(s, 1, 5) == {5}
  {
    hide Reachable;
    GivesUpOn(3);
    assert 5 !in List2(3, map[0 := Returned(5, None)]).links;
    GivesUpOn(5);
    assert Between(List2(5, map[0 := Returned(5, None)]), 1, 5) == {5};
  }

  ghost function List3(readers: map<nat, Reader>): State {
    var s := List2(5, readers);
    s.(links := s.links[3 := [Some(5)]][1 := [Some(3)]], level := s.level[3 := 1], linked := s.linked[3 := 1])
  }

  lemma ReachNode5()
    ensures Reachable(List2(5, map[0 := Walking(5, 0, 1, Nothing)]))
  {
    hide Reachable;
    ReachNode1();
    PublishBehind(List1(map[0 := Walking(5, 0, 1, Nothing)]), 5, None, List2(5, map[0 := Walking(5, 0, 1, Nothing)]));
  }

  lemma ReachEqual()
    ensures Reachable(List2(5, map[0 := Deciding(5, 1, Pointer)]))
  {
    hide Reachable, NextWriter, NextCalibrator, Wired;
    ReachNode5();
    assert Forward(List2(5, map[]), 1, 0) == Some(5);
    ReadOnce(List2(5, map[0 := Walking(5, 0, 1, Nothing)]), ReadTest(0), Walking(5, 0, 1, Nothing),
        Walking(5, 0, 1, NotNull));
    ReadOnce(List2(5, map[0 := Walking(5, 0, 1, NotNull)]), ReadTest(0), Walking(5, 0, 1, NotNull),
        Deciding(5, 1, NullTest));
    ReadOnce(List2(5, map[0 := Deciding(5, 1, NullTest)]), ReadFinal(0), Deciding(5, 1, NullTest),
        Deciding(5, 1, EqualTest));
    ReadOnce(List2(5, map[0 := Deciding(5, 1, EqualTest)]), ReadFinal(0), Deciding(5, 1, EqualTest),
        Deciding(5, 1, Pointer));
  }

  /** And it returns node 3 for key 5, which has a node of its own, when node 3 is linked between the
      equality test and the read of the pointer to be returned. */
  lemma FuzzySearchCanMiss()
    ensures exists s :: Reachable(s) && 0 in s.readers && s.readers[0] == Returned(5, Some(3)) && 5 in s.links
  {
    hide Reachable, NextWriter, NextCalibrator, Wired;
    ReachEqual();
    PublishBehind(List2(5, map[0 := Deciding(5, 1, Pointer)]), 3, Some(5), List3(map[0 := Deciding(5, 1, Pointer)]));
    assert Forward(List3(map[]), 1, 0) == Some(3);
    ReadOnce(List3(map[0 := Deciding(5, 1, Pointer)]), ReadFinal(0), Deciding(5, 1, Pointer), Returned(5, Some(3)));
    assert 5 in List3(map[0 := Returned(5, Some(3))]).links;
  }
}
