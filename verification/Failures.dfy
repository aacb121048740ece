/** Runs in which the code does not do what it is meant to: states that the methods of this project
    reach, and what becomes of them. */
module Failures {
  import opened Keys
  import opened DataLayer
  import C = ComputeNodes
  import MemoryNode
  import opened PutPaths
  import opened LocalStage
  import opened Placement

  // ---------------------------------------------------------------- splits without enough slots

  /** n records with the keys from, from + 1, and so on. */
  function Ascending(from: Key, n: nat): (r: seq<KV>)
    ensures |r| == n && forall i :: 0 <= i < n ==> r[i] == KV(from + i, 0)
  {
    seq(n, i requires 0 <= i < n => KV(from + i, 0))
  }

  lemma AscendingHas(from: Key, n: nat, k: Key)
    ensures Has(Ascending(from, n), k) <==> from <= k < from + n
  {
    if from <= k < from + n {
      assert Ascending(from, n)[k - from].key == k;
    }
  }

  /** Where all keys are new and of the node's range, all of them are wanted. */
  lemma WantedAscending(n: nat, m: nat)
    ensures Wanted(1, Ascending(1, n), KV(1 + n, 0), Ascending(2 + n, m)) == n + 1 + m
    ensures InRange(Ascending(2 + n, m), 1)
  {
    var recs, kv, queue, all := Ascending(1, n), KV(1 + n, 0), Ascending(2 + n, m), Ascending(1, n + 1 + m);
    var made := PutAll(Contents(recs), [kv] + InRangeOf(queue, 1));
    forall k
      ensures k in made <==> k in Contents(all)
    {
      PutAllOwn(Contents(recs), kv, InRangeOf(queue, 1), k);
      InRangeHas(queue, 1, k);
      ContentsHas(recs, k);
      ContentsHas(all, k);
      AscendingHas(1, n, k);
      AscendingHas(2 + n, m, k);
      AscendingHas(1, n + 1 + m, k);
    }
    ContentsSize(all);
    assert made.Keys == Contents(all).Keys;
    MoreKeys(made, Contents(all));
  }

  /** Nodes that can be full, and batches that can wait for them, for which a split has no slots: five
      new records for a node of 14, eight for a node of 12. */
  lemma OverfullHappens()
    ensures Overfull(Type14, Wanted(1, Ascending(1, 14), KV(15, 0), Ascending(16, 4)))
    ensures Overfull(Type12, Wanted(1, Ascending(1, 12), KV(13, 0), Ascending(14, 7)))
    ensures Distinct(Ascending(1, 14)) && Distinct(Ascending(1, 12))
  {
    WantedAscending(14, 4);
    WantedAscending(12, 7);
  }

  lemma OneMore(n: nat)
    requires n < 16
    ensures AfterStore(16, Ascending(1, n), 1 + n, 0) == Ascending(1, n + 1)
  {
    AscendingHas(1, n, 1 + n);
  }

  /** A buffer with a sound node of the keys 1 to n. */
  method Filled(n: nat, t: LinkedNodeType) returns (b: ThreadBuffer)
    requires n <= 16
    ensures fresh(b.Repr()) && b.Valid() && b.node.typ == t && b.node.Records() == Ascending(1, n)
  {
    b := new ThreadBuffer(k => 1);
    b.node.typ := t;
    var i := 0;
    assert b.node.Records() == Ascending(1, 0);
    while i < n
      invariant i <= n && fresh(b.Repr()) && b.Valid() && b.node.typ == t && b.node.Records() == Ascending(1, i)
    {
      OneMore(i);
      var ok := b.node.Store(16, 1 + i, 0);
      i := i + 1;
    }
  }

  /** Everyone is told that the put went well, and the right half has more records than slots. */
  ghost predicate LosesRecords(b: ThreadBuffer, out: Outcome, rest: seq<KV>, replies: seq<Reply>, lost: nat)
    reads b.right
  {
    && out.SplitAt? && b.right.next == out.rightSlots + lost && rest == []
    && (forall i {:trigger replies[i]} :: 0 <= i < |replies| ==> replies[i].succeed)
  }

  /** With room for all of a batch of the node's range, everyone is granted. */
  lemma Told(anchor: Key, kv: KV, queue: seq<KV>, rest: seq<KV>, replies: seq<Reply>, predCap: nat,
             pred: seq<KV>, pred': seq<KV>, recs: seq<KV>, all: seq<KV>)
    requires Made(anchor, kv, queue, rest, replies, predCap, pred, pred', recs, all, 21, false)
    requires Distinct(recs) && InRange(queue, anchor) && |recs| + 1 + |queue| <= 21
    requires Wanted(anchor, recs, kv, queue) == |recs| + 1 + |queue|
    ensures rest == [] && |replies| == |queue| && |all| == |recs| + 1 + |queue|
    ensures forall i {:trigger replies[i]} :: 0 <= i < |replies| ==> replies[i].succeed
  {
    MadeSize(anchor, kv, queue, rest, replies, predCap, pred, pred', recs, all, 21, false);
    RoomForAll(anchor, kv, queue, rest, replies, false, predCap, pred, pred', recs, all, 21);
    KeptAll(replies, anchor);
  }

  /** A full node of 14 that meets five new records: the right half has eleven, and ten slots. */
  method Put14LosesARecord() returns (b: ThreadBuffer, out: Outcome, rest: seq<KV>, replies: seq<Reply>)
    ensures fresh(b) && LosesRecords(b, out, rest, replies, 1) && !b.Writable(out) && |replies| == 4
  {
    hide PutAll, Contents, Progress;
    b := Filled(14, Type14);
    WantedAscending(14, 4);
    ghost var all, p, r := [], b.pred.Records(), b.node.Records();
    var counted;
    assert Ascending(16, 4) + [] == Ascending(16, 4);
    out, counted, rest, replies, all := b.Put14(1, KV(15, 0), Ascending(16, 4), [], []);
    Told(1, KV(15, 0), Ascending(16, 4), rest, replies, StoreCapacity(b.pred.typ), p, b.pred.Records(), r, all);
  }

  /** A full node of 12 that meets nine new records: the right half has twelve, and ten slots. */
  method Put12LosesTwoRecords() returns (b: ThreadBuffer, out: Outcome, rest: seq<KV>, replies: seq<Reply>)
    ensures fresh(b) && LosesRecords(b, out, rest, replies, 2) && !b.Writable(out) && |replies| == 8
  {
    hide PutAll, Contents, Progress;
    b := Filled(12, Type12);
    WantedAscending(12, 8);
    ghost var all, p, r := [], b.pred.Records(), b.node.Records();
    var counted;
    assert Ascending(14, 8) + [] == Ascending(14, 8);
    out, counted, rest, replies, all := b.Put12(1, KV(13, 0), Ascending(14, 8), [], []);
    Told(1, KV(13, 0), Ascending(14, 8), rest, replies, StoreCapacity(b.pred.typ), p, b.pred.Records(), r, all);
  }

  /** A full node of 16 that counts only its own new record, and then meets three more: the right half
      has eleven, and ten slots. */
  method Put16LosesARecord() returns (b: ThreadBuffer, out: Outcome, rest: seq<KV>, replies: seq<Reply>)
    ensures fresh(b) && LosesRecords(b, out, rest, replies, 1) && !b.Writable(out) && |replies| == 3
  {
    hide PutAll, Contents, Progress;
    b := Filled(16, Type16);
    WantedAscending(16, 3);
    ghost var all, p, r := [], b.pred.Records(), b.node.Records();
    var counted;
    assert [] + [] + Ascending(18, 3) == Ascending(18, 3);
    out, counted, rest, replies, all := b.Put16(1, KV(17, 0), [], [], Ascending(18, 3));
    Told(1, KV(17, 0), Ascending(18, 3), rest, replies, StoreCapacity(b.pred.typ), p, b.pred.Records(), r, all);
  }

  // ---------------------------------------------------------------- splits of nodes with room

  /** A node of 16 with two records is split because a request slips in before the count. */
  method Put16SplitsThree() returns (b: ThreadBuffer, out: Outcome, rest: seq<KV>, replies: seq<Reply>)
    ensures fresh(b) && out.SplitAt? && b.node.next == 2 && b.right.next == 1 && rest == [] && |replies| == 1
  {
    hide PutAll, Contents, Progress, Made, Wanted, InRangeOf, Pending, Counted, Distinct;
    b := Filled(1, Type16);
    WantedAscending(1, 1);
    ghost var all, p, r := [], b.pred.Records(), b.node.Records();
    var counted;
    assert [] + Ascending(3, 1) == Ascending(3, 1);
    out, counted, rest, replies, all := b.Put16(1, KV(2, 0), [], Ascending(3, 1), []);
    Told(1, KV(2, 0), Ascending(3, 1), rest, replies, StoreCapacity(b.pred.typ), p, b.pred.Records(), r, all);
  }

  /** A key that is there already, put twice more, makes no second record. */
  lemma StillOne(rest: seq<KV>, replies: seq<Reply>, predCap: nat, pred: seq<KV>, pred': seq<KV>, all: seq<KV>)
    requires Made(1, KV(1, 0), Ascending(1, 1), rest, replies, predCap, pred, pred', Ascending(1, 1), all, 21, false)
    requires all != []
    ensures |all| == 1 && all[0].key == 1
  {
    var m, kept := Contents(Ascending(1, 1)), Kept(replies, 1);
    forall k
      ensures k in Contents(all) ==> k == 1
    {
      PutAllOwn(m, KV(1, 0), kept, k);
      KeptInRange(Ascending(1, 1), rest, replies, 1, k);
      InRangeHas(Ascending(1, 1), 1, k);
      ContentsHas(Ascending(1, 1), k);
      AscendingHas(1, 1, k);
    }
    assert Has(all, all[0].key);
    ContentsHas(all, all[0].key);
    assert Contents(all).Keys == {1};
    ContentsSize(all);
  }

  /** A node of 16 with only the record of its anchor, and that key put again, while a request for it
      slips in: the right half gets the same anchor, and the left half nothing. */
  method Put16RepeatsAnchor() returns (b: ThreadBuffer, out: Outcome, rest: seq<KV>, replies: seq<Reply>)
    ensures fresh(b) && out.SplitAt? && out.anchor == 1 && b.node.next == 0 && b.right.next == 1
  {
    hide PutAll, Contents, Progress;
    b := Filled(1, Type16);
    ghost var all, p, r := [], b.pred.Records(), b.node.Records();
    var counted;
    assert [] + Ascending(1, 1) == Ascending(1, 1);
    out, counted, rest, replies, all := b.Put16(1, KV(1, 0), [], Ascending(1, 1), []);
    StillOne(rest, replies, StoreCapacity(b.pred.typ), p, b.pred.Records(), all);
  }

  // ---------------------------------------------------------------- the local stage

  /** Whatever the local stage holds, one of its keys breaks the ranges of its nodes when put again. */
  lemma SomeKeyClashes(l: LocalNodes, m: map<Key, Value>, k: Key)
    requires l.Valid(m) && k in m
    ensures exists c :: c in m && l.Clash(c)
  {
    AnchorSet(l, m, k);
    var c := if l.anchor1 == EMPTY then l.anchor0 else l.anchor1;
    assert c in m && l.Clash(c);
  }

  lemma AnchorSet(l: LocalNodes, m: map<Key, Value>, k: Key)
    requires l.Valid(m) && k in m
    ensures l.anchor0 != EMPTY && l.anchor0 in m && (l.anchor1 != EMPTY ==> l.anchor1 in m)
  {
    assert Reached(l.Placed(), k);
  }

  method OneKey() returns (l: LocalNodes)
    ensures fresh(l) && fresh(l.Repr()) && l.Valid(map[3 := 30])
    ensures |l.first.Records()| <= 1 && |l.second.Records()| <= 1
  {
    l := new LocalNodes(k => 1);
    hide LocalNodes.Valid;
    var stored, target := l.Put(3, 30, map[]);
    assert InsertIfAbsent(map[], 3, 30) == map[3 := 30];
  }

  method TwoKeys() returns (l: LocalNodes)
    ensures fresh(l) && fresh(l.Repr()) && l.Valid(map[3 := 30, 5 := 50])
    ensures |l.first.Records()| <= 2 && |l.second.Records()| <= 2
  {
    l := OneKey();
    AnchorSet(l, map[3 := 30], 3);
    var stored, target := l.Put(5, 50, map[3 := 30]);
    assert InsertIfAbsent(map[3 := 30], 5, 50) == map[3 := 30, 5 := 50];
  }

  /** Two keys are put, and the one that begins the second node is put again. */
  method PutBreaksRanges() returns (l: LocalNodes, key: Key)
    ensures fresh(l) && key in {3, 5} && l.Shaped()
    ensures !InOrder(l.anchor0, l.node0.Records(), l.anchor1, l.node1.Records())
  {
    hide InOrder, Distinct;
    l := TwoKeys();
    AnchorSet(l, map[3 := 30, 5 := 50], 3);
    key := if l.anchor1 == EMPTY then l.anchor0 else l.anchor1;
    var stored, target := l.Put(key, 0, map[3 := 30, 5 := 50]);
  }

  /** And an update of that key finds nothing. */
  method UpdateMisses() returns (l: LocalNodes, key: Key, ok: bool)
    ensures fresh(l) && key in {3, 5} && !ok && l.Valid(map[3 := 30, 5 := 50])
  {
    l := TwoKeys();
    AnchorSet(l, map[3 := 30, 5 := 50], 3);
    key := if l.anchor1 == EMPTY then l.anchor0 else l.anchor1;
    hide LocalNodes.Valid;
    ok := l.Update(key, 31, map[3 := 30, 5 := 50]);
  }

  // ---------------------------------------------------------------- the head's placeholder

  /** Zeroed memory but for the number of records, and with a record under the key. */
  function Stale(finger: Key -> Byte, key: Key, next: nat): C.Placeholder {
    C.Placeholder(0, C.Zeroed().fingerprints[0 := finger(key)], C.Zeroed().pairs[0 := KV(key, 5)], next)
  }

  /** What a get of a key below every anchor can make of the placeholder: it never returns, it looks
      past the records it has read, or it finds a record that is not in the store. */
  lemma PlaceholderMisleads(finger: Key -> Byte, key: Key, r: C.GetResult)
    requires EMPTY < key
    ensures C.FirstAccepted([C.Zeroed().(crc := 1), C.Zeroed().(crc := 1)]) == 2
    ensures C.Glimpsed(finger, C.Zeroed().(next := 17), key, r) ==> r == C.Overrun
    ensures C.Glimpsed(finger, Stale(finger, key, 1), key, r) ==> r == C.Answer(Some(5))
    ensures C.Glimpsed(finger, C.Zeroed(), key, r) ==> r == C.Answer(None)
  {
    assert C.Shows(finger, Stale(finger, key, 1), key, 0);
    assert forall i {:trigger C.Shows(finger, C.Zeroed().(next := 17), key, i)} ::
        0 <= i < 16 ==> !C.Shows(finger, C.Zeroed().(next := 17), key, i);
  }

  // ---------------------------------------------------------------- segments beyond the region

  /** A region of one segment's size: the first segment handed out ends a page behind it. */
  method SegmentPastHeader(region: nat) returns (m: MemoryNode.MemoryNodeAllocator, segment: Option<nat>)
    ensures fresh(m) && m.Valid() && m.base == region && m.memorySize == m.segmentSize == 0x4000_0000
    ensures segment.Some? && segment.value + m.segmentSize == region + m.memorySize + 4096
  {
    m := new MemoryNode.MemoryNodeAllocator(region, 0x4000_0000, 4096, 0x4000_0000);
    ghost var slot, live := 0, m.Live();
    segment, slot := m.Allocate();
    assert slot > 0 ==> 0 in live;
    live := m.Live();
    assert segment.Some? || 0 in live;
  }

  /** A region with room for the header and one segment: that one is handed out first, and the second
      one begins where the region ends. */
  method SegmentPastCount(region: nat)
    returns (m: MemoryNode.MemoryNodeAllocator, segment: Option<nat>, second: Option<nat>)
    ensures fresh(m) && m.Valid() && m.base == region && m.memorySize == 4096 + m.segmentSize
    ensures segment.Some? && segment.value + m.segmentSize == region + m.memorySize
    ensures second.Some? && second.value == region + m.memorySize
  {
    m := new MemoryNode.MemoryNodeAllocator(region, 0x4000_1000, 4096, 0x4000_0000);
    ghost var slot, live := 0, m.Live();
    segment, slot := m.Allocate();
    assert slot > 0 ==> 0 in live;
    live := m.Live();
    assert segment.Some? || 0 in live;
    second, slot := m.Allocate();
    assert slot > 1 ==> 1 in live;
    live := m.Live();
    assert second.Some? || 1 in live;
  }
}
