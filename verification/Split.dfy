/** Splitting a full node around an anchor: construct_reorder_map and the copy loop of
    out_of_place_split_node (src/components/node/compute_node). */
module Split {
  import opened Keys
  import opened DataLayer

  // ---------------------------------------------------------------- what a split should give

  /** Among the first n records, those below an anchor, in their old order. */
  function BelowIn(recs: seq<KV>, n: nat, anchor: Key): seq<KV>
    requires n <= |recs|
  {
    if n == 0 then []
    else if recs[n - 1].key < anchor then BelowIn(recs, n - 1, anchor) + [recs[n - 1]]
    else BelowIn(recs, n - 1, anchor)
  }

  /** Among the first n records, those at or above an anchor, in their old order. */
  function AtOrAboveIn(recs: seq<KV>, n: nat, anchor: Key): seq<KV>
    requires n <= |recs|
  {
    if n == 0 then []
    else if recs[n - 1].key < anchor then AtOrAboveIn(recs, n - 1, anchor)
    else AtOrAboveIn(recs, n - 1, anchor) + [recs[n - 1]]
  }

  function Below(recs: seq<KV>, anchor: Key): seq<KV> {
    BelowIn(recs, |recs|, anchor)
  }

  function AtOrAbove(recs: seq<KV>, anchor: Key): seq<KV> {
    AtOrAboveIn(recs, |recs|, anchor)
  }

  lemma HasAppend(recs: seq<KV>, kv: KV)
    ensures forall k :: Has(recs + [kv], k) <==> Has(recs, k) || k == kv.key
  {
    forall k
      ensures Has(recs + [kv], k) <==> Has(recs, k) || k == kv.key
    {
      if Has(recs, k) {
        var i :| 0 <= i < |recs| && recs[i].key == k;
        assert (recs + [kv])[i].key == k;
      }
      assert (recs + [kv])[|recs|] == kv;
    }
  }

  /** Each half holds the records of its own side of the anchor, and only those. */
  lemma {:induction false} SplitSides(recs: seq<KV>, n: nat, anchor: Key)
    requires n <= |recs|
    ensures forall k :: Has(BelowIn(recs, n, anchor), k) <==> Has(recs[..n], k) && k < anchor
    ensures forall k :: Has(AtOrAboveIn(recs, n, anchor), k) <==> Has(recs[..n], k) && anchor <= k
  {
    if n > 0 {
      SplitSides(recs, n - 1, anchor);
      HasAppend(BelowIn(recs, n - 1, anchor), recs[n - 1]);
      HasAppend(AtOrAboveIn(recs, n - 1, anchor), recs[n - 1]);
      HasAppend(recs[..n - 1], recs[n - 1]);
      assert recs[..n] == recs[..n - 1] + [recs[n - 1]];
    }
  }

  lemma CountAppend(a: seq<KV>, x: KV)
    ensures multiset(a + [x]) == multiset(a) + multiset{x} && |a + [x]| == |a| + 1
  {
  }

  /** No record is lost, doubled or changed. */
  lemma {:induction false} SplitConserves(recs: seq<KV>, n: nat, anchor: Key)
    requires n <= |recs|
    ensures multiset(BelowIn(recs, n, anchor)) + multiset(AtOrAboveIn(recs, n, anchor)) == multiset(recs[..n])
    ensures |BelowIn(recs, n, anchor)| + |AtOrAboveIn(recs, n, anchor)| == n
  {
    if n > 0 {
      var x := recs[n - 1];
      SplitConserves(recs, n - 1, anchor);
      assert recs[..n] == recs[..n - 1] + [x];
      CountAppend(recs[..n - 1], x);
      if x.key < anchor {
        CountAppend(BelowIn(recs, n - 1, anchor), x);
      } else {
        CountAppend(AtOrAboveIn(recs, n - 1, anchor), x);
      }
    }
  }

  lemma FreshKey(recs: seq<KV>, i: nat)
    requires Distinct(recs) && i < |recs|
    ensures !Has(recs[..i], recs[i].key)
  {
    forall j | 0 <= j < i
      ensures recs[..i][j].key != recs[i].key
    {
      assert recs[..i][j] == recs[j];
    }
  }

  /** Both halves keep distinct keys. */
  lemma {:induction false} SplitDistinct(recs: seq<KV>, n: nat, anchor: Key)
    requires Distinct(recs) && n <= |recs|
    ensures Distinct(BelowIn(recs, n, anchor)) && Distinct(AtOrAboveIn(recs, n, anchor))
  {
    if n > 0 {
      SplitDistinct(recs, n - 1, anchor);
      FreshKey(recs, n - 1);
      SplitSides(recs, n - 1, anchor);
      if recs[n - 1].key < anchor {
        DistinctAppend(BelowIn(recs, n - 1, anchor), recs[n - 1]);
      } else {
        DistinctAppend(AtOrAboveIn(recs, n - 1, anchor), recs[n - 1]);
      }
    }
  }

  /** A lookup on the side its key belongs to finds what a lookup before the split found. */
  lemma {:induction false} SplitLookup(recs: seq<KV>, n: nat, anchor: Key, k: Key)
    requires n <= |recs|
    ensures Lookup(Contents(recs[..n]), k) ==
            Lookup(Contents(if k < anchor then BelowIn(recs, n, anchor) else AtOrAboveIn(recs, n, anchor)), k)
  {
    if n > 0 {
      var kv := recs[n - 1];
      SplitLookup(recs, n - 1, anchor, k);
      assert recs[..n] == recs[..n - 1] + [kv];
      ContentsAppend(recs[..n - 1], kv);
      if kv.key < anchor {
        ContentsAppend(BelowIn(recs, n - 1, anchor), kv);
      } else {
        ContentsAppend(AtOrAboveIn(recs, n - 1, anchor), kv);
      }
    }
  }

  lemma {:induction false} HalvesGrow(recs: seq<KV>, n: nat, anchor: Key)
    requires n <= |recs|
    ensures |BelowIn(recs, n, anchor)| <= |Below(recs, anchor)|
    ensures |AtOrAboveIn(recs, n, anchor)| <= |AtOrAbove(recs, anchor)|
    decreases |recs| - n
  {
    if n < |recs| {
      HalvesGrow(recs, n + 1, anchor);
    }
  }

  // ---------------------------------------------------------------- counting marks

  function Marked(s: seq<bool>): nat {
    if s == [] then 0 else Marked(s[..|s| - 1]) + if s[|s| - 1] then 1 else 0
  }

  lemma {:induction false} MarkOne(s: seq<bool>, i: nat, b: bool)
    requires i < |s|
    ensures Marked(s[i := b]) == Marked(s) - (if s[i] then 1 else 0) + (if b then 1 else 0)
  {
    var n := |s| - 1;
    if i < n {
      assert s[i := b][..n] == s[..n][i := b];
      MarkOne(s[..n], i, b);
    } else {
      assert s[i := b][..n] == s[..n];
    }
  }

  lemma {:induction false} MarkedAll(s: seq<bool>)
    ensures Marked(s) <= |s|
    ensures Marked(s) == |s| <==> forall i :: 0 <= i < |s| ==> s[i]
  {
    if s != [] {
      MarkedAll(s[..|s| - 1]);
    }
  }

  lemma {:induction false} MarkedNone(s: seq<bool>)
    requires forall i :: 0 <= i < |s| ==> !s[i]
    ensures Marked(s) == 0
  {
    if s != [] {
      MarkedNone(s[..|s| - 1]);
    }
  }

  /** If exactly the records below an anchor are marked, the marks count the left half. */
  lemma {:induction false} MarkedBelow(recs: seq<KV>, n: nat, marks: seq<bool>, anchor: Key)
    requires n <= |recs| && |marks| == n && forall i :: 0 <= i < n ==> (marks[i] <==> recs[i].key < anchor)
    ensures Marked(marks) == |BelowIn(recs, n, anchor)|
  {
    if n > 0 {
      MarkedBelow(recs, n - 1, marks[..n - 1], anchor);
    }
  }

  // ---------------------------------------------------------------- the selection loop

  /** After i rounds: picked marks the records reorder names, these ascend, and every other record
      is above all of them. */
  ghost predicate Selected(recs: seq<KV>, reorder: seq<nat>, picked: seq<bool>) {
    && |picked| == |recs| && Marked(picked) == |reorder|
    && (forall a :: 0 <= a < |reorder| ==> reorder[a] < |recs| && picked[reorder[a]])
    && (forall a, b :: 0 <= a < b < |reorder| ==> recs[reorder[a]].key < recs[reorder[b]].key)
    && (forall a, j :: 0 <= a < |reorder| && 0 <= j < |recs| && !picked[j] ==>
          recs[reorder[a]].key < recs[j].key)
    && (forall j :: 0 <= j < |recs| && picked[j] ==> j in reorder)
  }

  /** One round: the least record not picked yet is picked. */
  lemma SelectOne(recs: seq<KV>, reorder: seq<nat>, picked: seq<bool>, target: nat)
    requires Distinct(recs) && Selected(recs, reorder, picked)
    requires target < |recs| && !picked[target]
    requires forall j :: 0 <= j < |recs| && !picked[j] ==> recs[target].key <= recs[j].key
    ensures Selected(recs, reorder + [target], picked[target := true])
  {
    MarkOne(picked, target, true);
    var reorder', picked' := reorder + [target], picked[target := true];
    forall j | 0 <= j < |recs| && picked'[j]
      ensures j in reorder'
    {
      if j == target {
        assert reorder'[|reorder|] == j;
      }
    }
    forall a, j | 0 <= a < |reorder'| && 0 <= j < |recs| && !picked'[j]
      ensures recs[reorder'[a]].key < recs[j].key
    {
    }
  }

  /** After |reorder| rounds: once every record is picked, further rounds name the last one again. */
  ghost predicate Rounds(recs: seq<KV>, reorder: seq<nat>, picked: seq<bool>) {
    var n := if |reorder| <= |recs| then |reorder| else |recs|;
    && Selected(recs, reorder[..n], picked)
    && (forall a :: n <= a < |reorder| ==> n > 0 && reorder[a] == reorder[n - 1])
  }

  /** A record not picked yet, or, if there is none, the one from before. */
  method FirstUnpicked(picked: array<bool>, total: nat, before: nat) returns (target: nat)
    requires before < total <= picked.Length
    ensures target < total
    ensures if Marked(picked[..total]) < total then !picked[target] else target == before
  {
    MarkedAll(picked[..total]);
    for j := 0 to total
      invariant forall k :: 0 <= k < j ==> picked[k]
    {
      if !picked[j] {
        return j;
      }
    }
    return before;
  }

  /** The least record not picked yet, or, if there is none, the one from before. */
  method LeastUnpicked(node: LinkedNode, picked: array<bool>, before: nat) returns (target: nat)
    requires node.Valid() && before < node.next <= picked.Length
    ensures target < node.next
    ensures if Marked(picked[..node.next]) < node.next then !picked[target] else target == before
    ensures Marked(picked[..node.next]) < node.next ==>
              forall j :: 0 <= j < node.next && !picked[j] ==> node.pairs[target].key <= node.pairs[j].key
  {
    MarkedAll(picked[..node.next]);
    target := FirstUnpicked(picked, node.next, before);
    ghost var some := Marked(picked[..node.next]) < node.next;
    for j := 0 to node.next
      invariant target < node.next && if some then !picked[target] else target == before
      invariant some ==> forall k :: 0 <= k < j && !picked[k] ==> node.pairs[target].key <= node.pairs[k].key
    {
      if picked[j] {
        continue;
      }
      assert some by {
        assert !picked[..node.next][j];
      }
      if node.pairs[target].key > node.pairs[j].key {
        target := j;
      }
    }
  }

  /** One more round. */
  lemma RoundNext(recs: seq<KV>, reorder: seq<nat>, picked: seq<bool>, target: nat)
    requires Distinct(recs) && Rounds(recs, reorder, picked) && target < |recs|
    requires if |reorder| < |recs| then !picked[target] else target == reorder[|reorder| - 1]
    requires |reorder| < |recs| ==> forall j :: 0 <= j < |recs| && !picked[j] ==> recs[target].key <= recs[j].key
    ensures Rounds(recs, reorder + [target], picked[target := true])
  {
    if |reorder| < |recs| {
      RoundSelects(recs, reorder, picked);
      hide Rounds, Selected, Distinct;
      SelectOne(recs, reorder, picked, target);
      SelectedRounds(recs, reorder + [target], picked[target := true]);
    } else {
      RoundAgain(recs, reorder, picked);
    }
  }

  /** As long as records are left, the rounds select. */
  lemma RoundSelects(recs: seq<KV>, reorder: seq<nat>, picked: seq<bool>)
    requires |reorder| <= |recs| && Rounds(recs, reorder, picked)
    ensures Selected(recs, reorder, picked)
  {
    assert reorder[..|reorder|] == reorder;
  }

  lemma SelectedRounds(recs: seq<KV>, reorder: seq<nat>, picked: seq<bool>)
    requires |reorder| <= |recs| && Selected(recs, reorder, picked)
    ensures Rounds(recs, reorder, picked)
  {
    assert reorder[..|reorder|] == reorder;
    hide Selected;
  }

  /** A round in which nothing is left to pick. */
  lemma RoundAgain(recs: seq<KV>, reorder: seq<nat>, picked: seq<bool>)
    requires recs != [] && |recs| <= |reorder| && Rounds(recs, reorder, picked)
    ensures var target := reorder[|reorder| - 1];
            target < |recs| && Rounds(recs, reorder + [target], picked[target := true])
  {
    var n := |recs|;
    var target := reorder[|reorder| - 1];
    assert target == reorder[n - 1] == reorder[..n][n - 1];
    assert picked[target := true] == picked;
    assert (reorder + [target])[..n] == reorder[..n];
    hide Selected;
  }

  lemma RoundsMarked(recs: seq<KV>, reorder: seq<nat>, picked: seq<bool>)
    requires Rounds(recs, reorder, picked)
    ensures |picked| == |recs| && Marked(picked) == if |reorder| < |recs| then |reorder| else |recs|
  {
  }

  /** One round of the selection loop; target is what the round before picked. */
  method PickNext(node: LinkedNode, i: nat, before: nat, reorder: array<nat>, picked: array<bool>)
    returns (target: nat)
    requires node.Valid() && before < node.next <= picked.Length && i < reorder.Length
    requires Rounds(node.Records(), reorder[..i], picked[..node.next]) && (i > 0 ==> before == reorder[i - 1])
    modifies reorder, picked
    ensures Rounds(node.Records(), reorder[..i + 1], picked[..node.next])
    ensures target < node.next && target == reorder[i]
  {
    ghost var recs, order, marks := node.Records(), reorder[..i], picked[..node.next];
    RoundsMarked(recs, order, marks);
    hide Rounds, Selected, Distinct, LinkedNode.Valid;
    target := LeastUnpicked(node, picked, before);
    assert i > 0 ==> order[i - 1] == before;
    RoundNext(recs, order, marks, target);
    picked[target] := true;
    reorder[i] := target;
    assert reorder[..i + 1] == order + [target] && picked[..node.next] == marks[target := true];
  }

  /** construct_reorder_map: the leftCap + 1 least records are picked in ascending order, the last
      of them to be the right half's anchor; of fewer records all, the greatest of them then again and
      again. */
  method ConstructReorderMap(node: LinkedNode, leftCap: nat, reorder: array<nat>, picked: array<bool>)
    requires node.Valid() && 0 < node.next <= picked.Length && leftCap < reorder.Length
    requires forall j :: 0 <= j < picked.Length ==> !picked[j]
    modifies reorder, picked
    ensures Rounds(node.Records(), reorder[..leftCap + 1], picked[..node.next])
  {
    ghost var recs := node.Records();
    MarkedNone(picked[..node.next]);
    assert Selected(recs, reorder[..0], picked[..node.next]);
    assert reorder[..0][..0] == reorder[..0];
    hide Rounds, Selected, Distinct;
    var target: nat := 0;
    for i := 0 to leftCap + 1
      invariant node.Records() == recs && Rounds(recs, reorder[..i], picked[..node.next])
      invariant target < node.next && (i > 0 ==> target == reorder[i - 1])
    {
      target := PickNext(node, i, target, reorder, picked);
    }
  }

  /** Giving the last picked record back leaves the marks on exactly the records below it. */
  lemma MarksAreBelow(recs: seq<KV>, reorder: seq<nat>, picked: seq<bool>)
    requires Distinct(recs) && Selected(recs, reorder, picked) && reorder != []
    ensures var last := reorder[|reorder| - 1];
            var marks := picked[last := false];
            && (forall j :: 0 <= j < |recs| ==> (marks[j] <==> recs[j].key < recs[last].key))
            && |Below(recs, recs[last].key)| == |reorder| - 1
  {
    var last := reorder[|reorder| - 1];
    var marks := picked[last := false];
    forall j | 0 <= j < |recs|
      ensures marks[j] <==> recs[j].key < recs[last].key
    {
      if marks[j] {
        assert j in reorder;
      }
    }
    MarkOne(picked, last, false);
    MarkedBelow(recs, |recs|, marks, recs[last].key);
  }

  // ---------------------------------------------------------------- the copy loop

  /** One record with its fingerprint, to the end of a node. */
  method CopyRecord(source: LinkedNode, i: nat, target: LinkedNode)
    requires source.Valid() && target.Valid() && i < source.next && target.next < target.pairs.Length
    requires target.finger == source.finger && target != source
    requires target.pairs != source.pairs && target.fingerprints != source.fingerprints
    requires !Has(target.Records(), source.pairs[i].key)
    modifies target`next, target.fingerprints, target.pairs
    ensures target.Valid() && target.Records() == old(target.Records()) + [source.pairs[i]]
  {
    target.fingerprints[target.next] := source.fingerprints[i];
    target.pairs[target.next] := source.pairs[i];
    DistinctAppend(target.Records(), source.pairs[i]);
    target.next := target.next + 1;
    assert target.Records() == old(target.Records()) + [source.pairs[i]];
  }

  /** Two buffers that share no memory. */
  ghost predicate Apart(a: LinkedNode, b: LinkedNode) {
    a != b && a.pairs != b.pairs && a.fingerprints != b.fingerprints
  }

  /** One turn of the copy loop. */
  method CopyNext(source: LinkedNode, i: nat, marked: bool, left: LinkedNode, right: LinkedNode)
    requires source.Valid() && left.Valid() && right.Valid() && i < source.next
    requires Apart(source, left) && Apart(source, right) && Apart(left, right)
    requires left.finger == source.finger == right.finger
    requires !Has((if marked then left else right).Records(), source.pairs[i].key)
    requires if marked then left.next < left.pairs.Length else right.next < right.pairs.Length
    modifies left`next, left.fingerprints, left.pairs, right`next, right.fingerprints, right.pairs
    ensures left.Valid() && right.Valid()
    ensures left.Records() == if marked then old(left.Records()) + [source.pairs[i]] else old(left.Records())
    ensures right.Records() == if marked then old(right.Records()) else old(right.Records()) + [source.pairs[i]]
  {
    if marked {
      CopyRecord(source, i, left);
    } else {
      CopyRecord(source, i, right);
    }
  }

  /** One turn of the copy loop, with the halves of the first records already copied. */
  method CopyInto(source: LinkedNode, i: nat, marked: bool, left: LinkedNode, right: LinkedNode, ghost anchor: Key)
    requires source.Valid() && left.Valid() && right.Valid() && i < source.next
    requires Apart(source, left) && Apart(source, right) && Apart(left, right)
    requires left.finger == source.finger == right.finger
    requires marked == (source.Records()[i].key < anchor)
    requires left.Records() == BelowIn(source.Records(), i, anchor) &&
             right.Records() == AtOrAboveIn(source.Records(), i, anchor)
    requires |BelowIn(source.Records(), i + 1, anchor)| <= left.pairs.Length
    requires |AtOrAboveIn(source.Records(), i + 1, anchor)| <= right.pairs.Length
    modifies left`next, left.fingerprints, left.pairs, right`next, right.fingerprints, right.pairs
    ensures left.Valid() && left.Records() == BelowIn(source.Records(), i + 1, anchor)
    ensures right.Valid() && right.Records() == AtOrAboveIn(source.Records(), i + 1, anchor)
  {
    FreshKey(source.Records(), i);
    SplitSides(source.Records(), i, anchor);
    CopyNext(source, i, marked, left, right);
    hide Distinct, Has;
  }

  /** The same, by the mark, with nodes that are large enough for their halves. */
  method CopyMarked(source: LinkedNode, i: nat, picked: array<bool>, left: LinkedNode, right: LinkedNode,
                    ghost anchor: Key)
    requires source.Valid() && left.Valid() && right.Valid() && i < source.next && i < picked.Length
    requires Apart(source, left) && Apart(source, right) && Apart(left, right)
    requires left.finger == source.finger == right.finger
    requires picked[i] == (source.Records()[i].key < anchor)
    requires left.Records() == BelowIn(source.Records(), i, anchor) &&
             right.Records() == AtOrAboveIn(source.Records(), i, anchor)
    requires |Below(source.Records(), anchor)| <= left.pairs.Length
    requires |AtOrAbove(source.Records(), anchor)| <= right.pairs.Length
    modifies left`next, left.fingerprints, left.pairs, right`next, right.fingerprints, right.pairs
    ensures left.Valid() && left.Records() == BelowIn(source.Records(), i + 1, anchor)
    ensures right.Valid() && right.Records() == AtOrAboveIn(source.Records(), i + 1, anchor)
  {
    HalvesGrow(source.Records(), i + 1, anchor);
    CopyInto(source, i, picked[i], left, right, anchor);
  }

  /** The copy loop: marked records go to the left node, the others to the right one. */
  method CopyHalves(source: LinkedNode, picked: array<bool>, left: LinkedNode, right: LinkedNode, ghost anchor: Key)
    requires source.Valid() && left.Valid() && right.Valid() && source.next <= picked.Length
    requires Apart(source, left) && Apart(source, right) && Apart(left, right)
    requires left.finger == source.finger == right.finger
    requires forall j :: 0 <= j < source.next ==> (picked[j] <==> source.pairs[j].key < anchor)
    requires |Below(source.Records(), anchor)| <= left.pairs.Length
    requires |AtOrAbove(source.Records(), anchor)| <= right.pairs.Length
    modifies left`next, left.fingerprints, left.pairs, right`next, right.fingerprints, right.pairs
    ensures left.Valid() && left.Records() == Below(source.Records(), anchor)
    ensures right.Valid() && right.Records() == AtOrAbove(source.Records(), anchor)
  {
    ghost var recs := source.Records();
    left.next := 0;
    right.next := 0;
    assert left.Valid() && right.Valid() && BelowIn(recs, 0, anchor) == [] && AtOrAboveIn(recs, 0, anchor) == [];
    hide LinkedNode.Valid, BelowIn, AtOrAboveIn;
    for i := 0 to source.next
      invariant source.Valid() && source.next <= source.pairs.Length && source.Records() == recs
      invariant left.next <= left.pairs.Length && right.next <= right.pairs.Length
      invariant left.Valid() && left.Records() == BelowIn(recs, i, anchor)
      invariant right.Valid() && right.Records() == AtOrAboveIn(recs, i, anchor)
    {
      CopyMarked(source, i, picked, left, right, anchor);
    }
  }

  // ---------------------------------------------------------------- the split

  /** What the selection's outcome says about the halves. */
  lemma SelectionSplits(recs: seq<KV>, reorder: seq<nat>, picked: seq<bool>)
    requires Distinct(recs) && Selected(recs, reorder, picked) && reorder != []
    ensures var last := reorder[|reorder| - 1];
            var anchor := recs[last].key;
            && (forall j :: 0 <= j < |recs| ==> (picked[last := false][j] <==> recs[j].key < anchor))
            && |Below(recs, anchor)| == |reorder| - 1
            && |AtOrAbove(recs, anchor)| == |recs| - (|reorder| - 1)
            && Has(recs, anchor) && Has(AtOrAbove(recs, anchor), anchor)
  {
    var last := reorder[|reorder| - 1];
    var anchor := recs[last].key;
    MarksAreBelow(recs, reorder, picked);
    SplitConserves(recs, |recs|, anchor);
    SplitSides(recs, |recs|, anchor);
    assert recs[..|recs|] == recs && Has(recs, anchor);
  }

  /** How many records a split leaves on the left: leftCap, but never all. */
  function LeftSize(leftCap: nat, total: nat): nat
    requires 0 < total
  {
    if leftCap < total then leftCap else total - 1
  }

  /** What all rounds say about the halves. */
  lemma RoundsSplit(recs: seq<KV>, reorder: seq<nat>, picked: seq<bool>)
    requires recs != [] && Distinct(recs) && Rounds(recs, reorder, picked) && reorder != []
    ensures var last, left := reorder[|reorder| - 1], LeftSize(|reorder| - 1, |recs|);
            && last < |recs| == |picked|
            && var anchor := recs[last].key;
            && (forall j :: 0 <= j < |recs| ==> (picked[last := false][j] <==> recs[j].key < anchor))
            && |Below(recs, anchor)| == left && |AtOrAbove(recs, anchor)| == |recs| - left
            && Has(recs, anchor) && Has(AtOrAbove(recs, anchor), anchor)
  {
    var n := if |reorder| <= |recs| then |reorder| else |recs|;
    assert reorder[|reorder| - 1] == reorder[n - 1] == reorder[..n][n - 1];
    SelectionSplits(recs, reorder[..n], picked);
  }

  /** construct_reorder_map on fresh maps, and the anchor it gives. */
  method Mark(tmp: LinkedNode, leftCap: nat) returns (anchor: Key, picked: array<bool>)
    requires tmp.Valid() && 0 < tmp.next <= 32 && leftCap < 32
    ensures fresh(picked) && picked.Length == 32
    ensures forall j :: 0 <= j < tmp.next ==> (picked[j] <==> tmp.pairs[j].key < anchor)
    ensures |Below(tmp.Records(), anchor)| == LeftSize(leftCap, tmp.next)
    ensures |AtOrAbove(tmp.Records(), anchor)| == tmp.next - LeftSize(leftCap, tmp.next)
    ensures Has(tmp.Records(), anchor) && Has(AtOrAbove(tmp.Records(), anchor), anchor)
  {
    var reorder := new nat[32](_ => 0);
    picked := new bool[32](_ => false);
    ConstructReorderMap(tmp, leftCap, reorder, picked);
    ghost var recs, order, marks := tmp.Records(), reorder[..leftCap + 1], picked[..tmp.next];
    RoundsSplit(recs, order, marks);
    hide Rounds, Selected, Distinct, Below, AtOrAbove, Has;
    var last := reorder[leftCap];
    assert last == order[leftCap];
    anchor := tmp.pairs[last].key;
    picked[last] := false;
    assert picked[..tmp.next] == marks[last := false];
    forall j | 0 <= j < tmp.next
      ensures picked[j] <==> tmp.pairs[j].key < anchor
    {
      assert picked[j] == marks[last := false][j] && tmp.pairs[j] == recs[j];
    }
  }

  /** The selection and the copy of out_of_place_split_node, on the buffer tmp that already holds
      everything: left gets the leftCap least records, but never all, and right the others, whose least
      key is the anchor. */
  method SplitBuffer(tmp: LinkedNode, left: LinkedNode, right: LinkedNode, leftCap: nat)
    returns (anchor: Key)
    requires tmp.Valid() && left.Valid() && right.Valid() && 0 < tmp.next <= 32 && leftCap < 32
    requires Apart(tmp, left) && Apart(tmp, right) && Apart(left, right)
    requires left.finger == tmp.finger == right.finger
    requires leftCap <= left.pairs.Length && tmp.next <= leftCap + right.pairs.Length && 0 < right.pairs.Length
    modifies left`next, left.fingerprints, left.pairs, right`next, right.fingerprints, right.pairs
    ensures left.Valid() && left.Records() == Below(tmp.Records(), anchor)
    ensures right.Valid() && right.Records() == AtOrAbove(tmp.Records(), anchor)
    ensures left.next == LeftSize(leftCap, tmp.next) && right.next == tmp.next - left.next
    ensures Has(tmp.Records(), anchor) && Has(right.Records(), anchor)
  {
    var picked;
    anchor, picked := Mark(tmp, leftCap);
    CopyHalves(tmp, picked, left, right, anchor);
  }
}
