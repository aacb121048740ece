/** The search layer never gets stuck: what is under way can be finished, and a search that is left
    alone returns. */
module InterleavingProgress {
  import opened Keys
  import opened Levels
  import opened Interleaving

  // ---------------------------------------------------------------- the update queue

  /** The nodes linked between two anchors. */
  ghost function Gap(s: State, walker: Key, key: Key): set<Key> {
    set k | k in s.linked && walker < k < key
  }

  ghost function Phase(s: State): nat {
    match s.calibrator
    case Resting => 0
    case Descending(_, _, _, _) => 2
    case _ => 1
  }

  /** The levels that are left to descend, or to link. */
  ghost function LevelsLeft(s: State): nat {
    match s.calibrator
    case Resting => 0
    case Descending(_, i, _, _) => i
    case Copying(node, i, _) => if node in s.level && i <= s.level[node] then s.level[node] - i else 0
    case Redirecting(node, i, _) => if node in s.level && i <= s.level[node] then s.level[node] - i else 0
  }

  /** What is left to do on a level. */
  ghost function StepsLeft(s: State): nat {
    match s.calibrator
    case Resting => 0
    case Descending(node, _, walker, _) => |Gap(s, walker, node)|
    case Copying(_, _, _) => 1
    case Redirecting(_, _, _) => 0
  }

  ghost predicate LessWork(s: State, s': State) {
    || |s'.writers| < |s.writers|
    || (|s'.writers| == |s.writers| &&
        (|s'.unpushed| < |s.unpushed| ||
         (|s'.unpushed| == |s.unpushed| &&
          (|s'.queue| < |s.queue| ||
           (|s'.queue| == |s.queue| &&
            (Phase(s') < Phase(s) ||
             (Phase(s') == Phase(s) &&
              (LevelsLeft(s') < LevelsLeft(s) ||
               (LevelsLeft(s') == LevelsLeft(s) && StepsLeft(s') < StepsLeft(s))))))))))
  }

  lemma WriterPublishes(s: State, d: Key) returns (step: Step, s': State)
    requires WritersOk(s) && MemoryOk(s) && d in s.writers
    ensures NextWriter(s, step, s') && LessWork(s, s') && s'.readers == s.readers
  {
    var w := s.writers[d];
    assert d in s.level && |s.links[d]| == s.level[d] && 1 <= s.linked[d];
    assert d in s.links && 0 < |s.links[d]| && 1 <= w.level;
    hide WritersOk, MemoryOk;
    assert s.writers.Keys == (s.writers - {d}).Keys + {d};
    step := Publish(d);
    s' := s.(links := s.links[w.anchor := [w.succ] + seq(w.level - 1, _ => None)][d :=
        s.links[d][0 := Some(w.anchor)]], level := s.level[w.anchor := w.level], linked := s.linked[w.anchor := 1],
        unpushed := if w.level == 1 then s.unpushed else s.unpushed + {w.anchor}, writers := s.writers - {d});
    assert LessWork(s, s') by {
      hide NextWriter;
    }
    hide LessWork;
  }

  lemma WriterPushes(s: State, node: Key) returns (step: Step, s': State)
    requires node in s.unpushed
    ensures NextWriter(s, step, s') && LessWork(s, s') && s'.readers == s.readers
  {
    step, s' := Push(node), s.(unpushed := s.unpushed - {node}, queue := s.queue + [node]);
  }

  lemma CalibratorPops(s: State) returns (step: Step, s': State)
    requires s.calibrator == Resting && s.queue != [] && s.currentLevel > 0
    ensures NextCalibrator(s, step, s') && LessWork(s, s') && s'.readers == s.readers
  {
    step := Pop;
    s' := s.(queue := s.queue[1..], calibrator := Descending(s.queue[0], s.currentLevel - 1, HEAD, map[]));
  }

  lemma GapShrinks(s: State, walker: Key, next: Key, key: Key)
    requires next in s.linked && walker < next < key
    ensures |Gap(s, next, key)| < |Gap(s, walker, key)|
  {
    Shrinks(Gap(s, next, key), Gap(s, walker, key), next);
  }

  lemma Shrinks(a: set<Key>, b: set<Key>, x: Key)
    requires a <= b && x in b && x !in a
    ensures |a| < |b|
  {
    var c := b - {x};
    assert a + (c - a) == c;
  }

  lemma CalibratorDescends(s: State) returns (step: Step, s': State)
    requires MemoryOk(s) && CalibratorOk(s) && s.calibrator.Descending?
    ensures NextCalibrator(s, step, s') && LessWork(s, s') && s'.readers == s.readers
  {
    var c := s.calibrator;
    var n := Forward(s, c.walker, c.i);
    if c.i == 0 {
      var top := if s.level[c.node] > s.currentLevel then s.level[c.node] else s.currentLevel;
      step := CalibrateRaise;
      s' := s.(currentLevel := top, calibrator := Copying(c.node, 1, map j: nat | 1 <= j < top ::
        if j < s.currentLevel && j in c.update then c.update[j] else HEAD));
    } else if n.Some? && n.value < c.node {
      assert LinkOk(s.linked, s.links, c.walker, c.i);
      GapShrinks(s, c.walker, n.value, c.node);
      step, s' := CalibrateMove, s.(calibrator := Descending(c.node, c.i, n.value, c.update));
    } else {
      step := CalibrateDown;
      s' := s.(calibrator := Descending(c.node, c.i - 1, c.walker, c.update[c.i := c.walker]));
    }
    hide MemoryOk, CalibratorOk;
  }

  lemma CalibratorLinks(s: State) returns (step: Step, s': State)
    requires MemoryOk(s) && CalibratorOk(s) && (s.calibrator.Copying? || s.calibrator.Redirecting?)
    ensures NextCalibrator(s, step, s') && LessWork(s, s') && s'.readers == s.readers
  {
    var c := s.calibrator;
    var lv := s.level[c.node];
    if c.Copying? && lv <= c.i {
      step, s' := CalibrateDone, s.(calibrator := Resting);
    } else if c.Copying? {
      assert c.i in c.update && |s.links[c.node]| == lv;
      step := CalibrateCopy;
      s' := s.(links := s.links[c.node := s.links[c.node][c.i := Forward(s, c.update[c.i], c.i)]],
               calibrator := Redirecting(c.node, c.i, c.update));
    } else {
      var p := c.update[c.i];
      assert IsPred(s.linked, c.node, c.i, p) && p in s.level && c.i < |s.links[p]|;
      step := CalibrateRedirect;
      s' := s.(links := s.links[p := s.links[p][c.i := Some(c.node)]],
               linked := s.linked[c.node := c.i + 1], calibrator := Copying(c.node, c.i + 1, c.update));
    }
    hide MemoryOk, CalibratorOk;
  }

  lemma Inhabited(a: set<Key>)
    ensures a != {} ==> exists x :: x in a
  {
    if forall x :: x !in a {
      assert a <= {};
    }
  }

  /** As long as something is under way, some thread that is not a reader can take a step of it. */
  lemma WorkGoesOn(s: State) returns (step: Step, s': State)
    requires Inv(s) && !Drained(s)
    ensures Next(s, step, s') && LessWork(s, s') && s'.readers == s.readers
  {
    hide LessWork, NextWriter, NextCalibrator, NextReader, WritersOk, CalibratorOk;
    if s.writers != map[] {
      var w :| w in s.writers.Items;
      step, s' := WriterPublishes(s, w.0);
    } else if s.unpushed != {} {
      Inhabited(s.unpushed);
      var node :| node in s.unpushed;
      step, s' := WriterPushes(s, node);
    } else if s.calibrator == Resting {
      step, s' := CalibratorPops(s);
    } else if s.calibrator.Descending? {
      step, s' := CalibratorDescends(s);
    } else {
      step, s' := CalibratorLinks(s);
    }
  }

  /** From every reachable state, whatever is under way can be finished while all readers stand still:
      then every node is linked on all its levels. */
  lemma {:induction false} CanDrain(s: State) returns (s': State)
    requires Reachable(s)
    ensures Reachable(s') && Drained(s') && s'.linked == s'.level && s'.readers == s.readers
    decreases |s.writers|, |s.unpushed|, |s.queue|, Phase(s), LevelsLeft(s), StepsLeft(s)
  {
    ReachableInv(s);
    if Drained(s) {
      DrainedLinked(s);
      s' := s;
    } else {
      hide Inv, Next, Reachable;
      var step, s1 := WorkGoesOn(s);
      ReachableStep(s, step, s1);
      s' := CanDrain(s1);
    }
  }

  // ---------------------------------------------------------------- a search

  function FinalsLeft(next: Final): nat {
    match next
    case NullTest => 5
    case EqualTest => 4
    case NullTestAgain => 3
    case GreaterTest => 2
    case Pointer => 1
  }

  function TestsLeft(seen: Seen): nat {
    match seen
    case Nothing => 2
    case NotNull => 1
    case Below => 0
  }

  /** The levels that are left, those of the loops and then the tests after them. */
  function LoopsLeft(r: Reader): nat {
    match r
    case Walking(_, i, _, _) => i + 6
    case Deciding(_, _, next) => FinalsLeft(next)
    case Returned(_, _) => 0
  }

  ghost function WalkLeft(s: State, r: Reader): nat {
    if r.Walking? then |Gap(s, r.walker, r.member)| else 0
  }

  function SeenLeft(r: Reader): nat {
    if r.Walking? then TestsLeft(r.seen) else 0
  }

  ghost predicate LessSearch(s: State, r: Reader, r': Reader) {
    || LoopsLeft(r') < LoopsLeft(r)
    || (LoopsLeft(r') == LoopsLeft(r) &&
        (WalkLeft(s, r') < WalkLeft(s, r) || (WalkLeft(s, r') == WalkLeft(s, r) && SeenLeft(r') < SeenLeft(r))))
  }

  /** A search that has not returned can take a step, and is nearer to its end then. */
  lemma ReaderGoes(s: State, id: nat) returns (step: Step, s': State)
    requires MemoryOk(s) && ReadersOk(s) && id in s.readers && !s.readers[id].Returned?
    ensures NextReader(s, step, s') && id in s'.readers && s' == s.(readers := s.readers[id := s'.readers[id]])
    ensures LessSearch(s, s.readers[id], s'.readers[id])
  {
    var r := s.readers[id];
    assert ReaderOk(s, r);
    if r.Deciding? {
      step, s' := ReadFinal(id), s.(readers := s.readers[id := AfterFinal(r, Forward(s, r.walker, 0))]);
    } else if r.seen == Below {
      var n := Forward(s, r.walker, r.i).value;
      assert LinkOk(s.linked, s.links, r.walker, r.i);
      GapShrinks(s, r.walker, n, r.member);
      step, s' := ReadMove(id), s.(readers := s.readers[id := Walking(r.member, r.i, n, Nothing)]);
    } else {
      step, s' := ReadTest(id), s.(readers := s.readers[id := AfterTest(r, Forward(s, r.walker, r.i))]);
    }
    hide MemoryOk, ReadersOk;
  }

  /** The step that takes the last loop test and the decision together is there exactly when the loop of
      the bottom level would end. */
  lemma DecidesWhenLoopEnds(s: State, id: nat)
    requires id in s.readers && s.readers[id].Walking? && s.readers[id].i == 0 && s.readers[id].seen == Nothing
    ensures (exists s' :: NextReader(s, ReadReturn(id), s')) <==>
            !(Forward(s, s.readers[id].walker, 0).Some? &&
              Forward(s, s.readers[id].walker, 0).value < s.readers[id].member)
  {
    var r := s.readers[id];
    var n := Forward(s, r.walker, 0);
    if n.None? || r.member <= n.value {
      var s' := s.(readers := s.readers[id := Returned(r.member, Decision(r.walker, n, r.member))]);
      assert NextReader(s, ReadReturn(id), s');
    }
  }

  /** A search that is left alone returns: from every reachable state, it alone can go on until it has a
      result, and leaves the list as it was. */
  lemma {:induction false} SearchReturns(s: State, id: nat) returns (s': State)
    requires Reachable(s) && id in s.readers
    ensures Reachable(s') && id in s'.readers && s'.readers[id].Returned?
    ensures s' == s.(readers := s.readers[id := s'.readers[id]])
    decreases LoopsLeft(s.readers[id]), WalkLeft(s, s.readers[id]), SeenLeft(s.readers[id])
  {
    s' := s;
    if !s.readers[id].Returned? {
      ReachableInv(s);
      hide Reachable, Next;
      var step, s1 := ReaderGoes(s, id);
      ReachableStep(s, step, s1);
      s' := SearchReturns(s1, id);
    }
  }
}
