/** The local stage: until one of them is full, two data nodes are kept on the compute node itself
    (quick_put and quick_put_pick_node, src/components/node/compute_node). */
module LocalStage {
  import opened Keys
  import opened DataLayer
  import opened Split
  import opened PutPaths
  import opened Placement

  /** The rank of the empty string, which as a local anchor means that there is none. */
  const EMPTY: Key := 0

  /** The two local nodes as placed data nodes. */
  ghost function LocalPlaced(a0: Key, r0: seq<KV>, a1: Key, r1: seq<KV>): Placed {
    if a0 == EMPTY then map[] else if a1 == EMPTY then map[a0 := r0] else map[a0 := r0, a1 := r1]
  }

  /** A new lowest anchor gets an empty node. */
  lemma NewLowest(placed: Placed, m: map<Key, Value>, k: Key)
    requires Represents(placed, m) && forall a {:trigger a in placed} :: a in placed ==> k < a
    ensures Represents(placed[k := []], m)
  {
    var placed' := placed[k := []];
    forall b | b in placed'
      ensures Distinct(placed'[b]) && Ranged(placed', b)
    {
      if b != k {
        assert Ranged(placed, b);
        forall x | Has(placed'[b], x)
          ensures Owns(placed'.Keys, b, x)
        {
          assert Owns(placed.Keys, b, x);
        }
      }
    }
    forall b, x | Owns(placed'.Keys, b, x)
      ensures Agrees(placed', m, b, x)
    {
      if b == k {
        assert forall c :: c in placed ==> c in placed';
        assert !Reached(placed, x);
      } else {
        assert forall c :: c in placed ==> c in placed';
        assert Owns(placed.Keys, b, x);
        assert Agrees(placed, m, b, x);
      }
    }
    forall x | x in m
      ensures Reached(placed', x)
    {
      assert Reached(placed, x);
      var a :| a in placed && a <= x;
      assert a in placed';
    }
  }

  /** A new highest anchor, above every key there is, gets an empty node. */
  lemma NewHighest(placed: Placed, m: map<Key, Value>, k: Key)
    requires Represents(placed, m) && placed != map[]
    requires forall a {:trigger a in placed} :: a in placed ==> a < k
    requires forall x {:trigger x in m} :: x in m ==> x < k
    ensures Represents(placed[k := []], m)
  {
    var placed' := placed[k := []];
    forall b | b in placed'
      ensures Distinct(placed'[b]) && Ranged(placed', b)
    {
      if b != k {
        assert Ranged(placed, b);
        forall x | Has(placed'[b], x)
          ensures Owns(placed'.Keys, b, x)
        {
          RecordKnown(placed, m, b, x);
          assert Owns(placed.Keys, b, x);
        }
      }
    }
    forall b, x | Owns(placed'.Keys, b, x)
      ensures Agrees(placed', m, b, x)
    {
      assert forall c :: c in placed ==> c in placed';
      if b != k {
        assert Owns(placed.Keys, b, x);
        assert Agrees(placed, m, b, x);
      }
    }
    forall x | x in m
      ensures Reached(placed', x)
    {
      assert Reached(placed, x);
      var a :| a in placed && a <= x;
      assert a in placed';
    }
  }

  /** The lowest of two anchors may be lowered. */
  lemma LowerAnchor(a: Key, k: Key, r: seq<KV>, b: Key, r1: seq<KV>, m: map<Key, Value>)
    requires Represents(map[a := r, b := r1], m) && k < a < b
    ensures Represents(map[k := r, b := r1], m)
  {
    var placed, placed' := map[a := r, b := r1], map[k := r, b := r1];
    assert a in placed && b in placed && k in placed' && b in placed';
    forall x, c
      ensures Owns(placed'.Keys, c, x) <==>
              (c == b && Owns(placed.Keys, b, x)) || (c == k && k <= x && (x < a || Owns(placed.Keys, a, x)))
    {
    }
    assert Ranged(placed, a) && Ranged(placed, b);
    forall c | c in placed'
      ensures Distinct(placed'[c]) && Ranged(placed', c)
    {
    }
    forall c, x | Owns(placed'.Keys, c, x)
      ensures Agrees(placed', m, c, x)
    {
      if c == k && x < a {
        ContentsHas(r, x);
        assert !Reached(placed, x);
      } else {
        var c0 := if c == k then a else b;
        assert Owns(placed.Keys, c0, x) && Agrees(placed, m, c0, x);
      }
    }
    forall x | x in m
      ensures Reached(placed', x)
    {
      assert Reached(placed, x);
    }
  }

  /** Two placed nodes answer every lookup, whichever of the anchors are set. */
  lemma LocalLookup(a0: Key, r0: seq<KV>, a1: Key, r1: seq<KV>, m: map<Key, Value>, key: Key)
    requires Represents(LocalPlaced(a0, r0, a1, r1), m)
    requires (a0 == EMPTY ==> a1 == EMPTY && r0 == []) && (a1 != EMPTY ==> a0 < a1)
    ensures Lookup(m, key) == Lookup(Contents(if a1 != EMPTY && key >= a1 then r1 else r0), key)
  {
    var placed := LocalPlaced(a0, r0, a1, r1);
    if a1 != EMPTY && key >= a1 {
      assert Owns(placed.Keys, a1, key) && Agrees(placed, m, a1, key);
    } else if a0 != EMPTY && key >= a0 {
      assert Owns(placed.Keys, a0, key) && Agrees(placed, m, a0, key);
    } else {
      assert !Reached(placed, key);
      ContentsHas(r0, key);
      assert a0 != EMPTY ==> Ranged(placed, a0);
    }
  }

  /** Two local nodes are the map m; anchors that are not set yet go with empty nodes, and a single
      anchor with no other key. */
  ghost predicate HoldsAt(a0: Key, r0: seq<KV>, a1: Key, r1: seq<KV>, m: map<Key, Value>) {
    && Represents(LocalPlaced(a0, r0, a1, r1), m)
    && (a0 == EMPTY ==> a1 == EMPTY && r0 == [])
    && (a0 != EMPTY ==> EMPTY < a0)
    && (a1 == EMPTY ==> r1 == [] && forall k {:trigger k in m} :: k in m ==> k == a0)
    && (a1 != EMPTY ==> EMPTY < a0 < a1)
  }

  lemma PickFirst(m: map<Key, Value>, key: Key)
    requires HoldsAt(EMPTY, [], EMPTY, [], m) && EMPTY < key
    ensures HoldsAt(key, [], EMPTY, [], m) && Owns(LocalPlaced(key, [], EMPTY, []).Keys, key, key)
  {
    var placed := LocalPlaced(EMPTY, [], EMPTY, []);
    NewLowest(placed, m, key);
    assert placed[key := []] == LocalPlaced(key, [], EMPTY, []);
    forall k
      ensures k !in m
    {
      assert !Reached(placed, k);
    }
  }

  lemma PickLowerSecond(a0: Key, r0: seq<KV>, m: map<Key, Value>, key: Key)
    requires HoldsAt(a0, r0, EMPTY, [], m) && EMPTY < key < a0
    ensures HoldsAt(key, [], a0, r0, m) && Owns(LocalPlaced(key, [], a0, r0).Keys, key, key)
  {
    var placed := LocalPlaced(a0, r0, EMPTY, []);
    NewLowest(placed, m, key);
    assert placed[key := []] == LocalPlaced(key, [], a0, r0);
  }

  lemma PickLower(a0: Key, r0: seq<KV>, a1: Key, r1: seq<KV>, m: map<Key, Value>, key: Key)
    requires HoldsAt(a0, r0, a1, r1, m) && a1 != EMPTY && EMPTY < key < a0
    ensures HoldsAt(key, r0, a1, r1, m) && Owns(LocalPlaced(key, r0, a1, r1).Keys, key, key)
  {
    LowerAnchor(a0, key, r0, a1, r1, m);
  }

  lemma PickSecond(a0: Key, r0: seq<KV>, m: map<Key, Value>, key: Key)
    requires HoldsAt(a0, r0, EMPTY, [], m) && EMPTY < a0 < key
    ensures HoldsAt(a0, r0, key, [], m) && Owns(LocalPlaced(a0, r0, key, []).Keys, key, key)
  {
    var placed := LocalPlaced(a0, r0, EMPTY, []);
    assert a0 in placed;
    NewHighest(placed, m, key);
    assert placed[key := []] == LocalPlaced(a0, r0, key, []);
  }

  /** Storing a key on the node responsible for it. */
  lemma StoreOn0(a0: Key, r0: seq<KV>, a1: Key, r1: seq<KV>, m: map<Key, Value>, key: Key, v: Value)
    requires HoldsAt(a0, r0, a1, r1, m) && Owns(LocalPlaced(a0, r0, a1, r1).Keys, a0, key) && |r0| < 10
    requires a1 == EMPTY ==> key == a0
    ensures HoldsAt(a0, AfterStore(10, r0, key, v), a1, r1, InsertIfAbsent(m, key, v))
  {
    var placed, all := LocalPlaced(a0, r0, a1, r1), AfterStore(10, r0, key, v);
    StoreOn(placed, m, a0, key, v);
    assert placed[a0 := all] == LocalPlaced(a0, all, a1, r1);
  }

  lemma StoreOn1(a0: Key, r0: seq<KV>, a1: Key, r1: seq<KV>, m: map<Key, Value>, key: Key, v: Value)
    requires HoldsAt(a0, r0, a1, r1, m) && Owns(LocalPlaced(a0, r0, a1, r1).Keys, a1, key) && |r1| < 10 && a1 != EMPTY
    ensures HoldsAt(a0, r0, a1, AfterStore(10, r1, key, v), InsertIfAbsent(m, key, v))
  {
    var placed, all := LocalPlaced(a0, r0, a1, r1), AfterStore(10, r1, key, v);
    StoreOn(placed, m, a1, key, v);
    assert placed[a1 := all] == LocalPlaced(a0, r0, a1, all);
  }

  lemma StoreOn(placed: Placed, m: map<Key, Value>, a: Key, key: Key, v: Value)
    requires Represents(placed, m) && Owns(placed.Keys, a, key) && |placed[a]| < 10
    ensures Represents(placed[a := AfterStore(10, placed[a], key, v)], InsertIfAbsent(m, key, v))
  {
    assert Ranged(placed, a);
    AfterStoreInserts(10, placed[a], key, v);
    PutAllAppend(Contents(placed[a]), [], KV(key, v));
    PutAllAppend(m, [], KV(key, v));
    assert [] + [KV(key, v)] == [KV(key, v)];
    PutPlaces(placed, m, a, AfterStore(10, placed[a], key, v), [KV(key, v)]);
  }

  /** A node with two records belongs to a pair. */
  lemma FullHasPair(a0: Key, r0: seq<KV>, a1: Key, r1: seq<KV>, m: map<Key, Value>)
    requires HoldsAt(a0, r0, a1, r1, m) && (|r0| >= 2 || |r1| >= 2)
    ensures a0 != EMPTY && a1 != EMPTY
  {
    if a1 == EMPTY {
      var placed := LocalPlaced(a0, r0, a1, r1);
      assert Ranged(placed, a0);
      assert Has(r0, r0[0].key) && Has(r0, r0[1].key);
      RecordKnown(placed, m, a0, r0[0].key);
      RecordKnown(placed, m, a0, r0[1].key);
    }
  }

  /** Each node's keys are on its side of the second anchor. */
  ghost predicate InOrder(a0: Key, r0: seq<KV>, a1: Key, r1: seq<KV>) {
    && (forall k {:trigger Has(r0, k)} :: Has(r0, k) ==> a0 <= k && (a1 != EMPTY ==> k < a1))
    && (forall k {:trigger Has(r1, k)} :: Has(r1, k) ==> a1 <= k)
    && (a1 != EMPTY ==> a0 < a1)
  }

  lemma HeldInOrder(a0: Key, r0: seq<KV>, a1: Key, r1: seq<KV>, m: map<Key, Value>)
    requires HoldsAt(a0, r0, a1, r1, m)
    ensures InOrder(a0, r0, a1, r1)
  {
    var placed := LocalPlaced(a0, r0, a1, r1);
    assert a0 != EMPTY ==> Ranged(placed, a0);
    assert a1 != EMPTY ==> Ranged(placed, a1);
    assert a1 in placed || r1 == [];
  }

  /** A store on the node responsible keeps the nodes a picture of the store, and in order. */
  lemma StoredEither(a0: Key, r0: seq<KV>, a1: Key, r1: seq<KV>, m: map<Key, Value>, key: Key, v: Value, first: bool)
    requires HoldsAt(a0, r0, a1, r1, m) && Owns(LocalPlaced(a0, r0, a1, r1).Keys, if first then a0 else a1, key)
    requires (if first then |r0| else |r1|) < 10 && (a1 == EMPTY ==> key == a0 && first)
    ensures var s0 := if first then AfterStore(10, r0, key, v) else r0;
            var s1 := if first then r1 else AfterStore(10, r1, key, v);
            HoldsAt(a0, s0, a1, s1, InsertIfAbsent(m, key, v)) && InOrder(a0, s0, a1, s1)
  {
    if first {
      StoreOn0(a0, r0, a1, r1, m, key, v);
      HeldInOrder(a0, AfterStore(10, r0, key, v), a1, r1, InsertIfAbsent(m, key, v));
    } else {
      StoreOn1(a0, r0, a1, r1, m, key, v);
      HeldInOrder(a0, r0, a1, AfterStore(10, r1, key, v), InsertIfAbsent(m, key, v));
    }
  }

  /** A record that joins the node responsible keeps the nodes in order. */
  lemma JoinedInOrder(a0: Key, r0: seq<KV>, a1: Key, r1: seq<KV>, m: map<Key, Value>, key: Key, v: Value, first: bool,
                      cap: nat)
    requires HoldsAt(a0, r0, a1, r1, m) && Owns(LocalPlaced(a0, r0, a1, r1).Keys, if first then a0 else a1, key)
    ensures InOrder(a0, if first then AfterStore(cap, r0, key, v) else r0, a1,
                    if first then r1 else AfterStore(cap, r1, key, v))
  {
    HeldInOrder(a0, r0, a1, r1, m);
    HasAppend(r0, KV(key, v));
    HasAppend(r1, KV(key, v));
    assert a1 != EMPTY ==> a1 in LocalPlaced(a0, r0, a1, r1);
    hide Represents, Has;
  }

  /** The second anchor put again goes to the first node, and the only anchor becomes both. */
  lemma StoredClash(a0: Key, r0: seq<KV>, a1: Key, r1: seq<KV>, key: Key, v: Value, first: bool, cap: nat)
    requires a1 == key != EMPTY && if first then |r0| < cap else a0 == key
    ensures !InOrder(a0, if first then AfterStore(cap, r0, key, v) else r0, a1,
                     if first then r1 else AfterStore(cap, r1, key, v))
  {
    HasAppend(r0, KV(key, v));
  }

  /** An update reaches its key on the node that is responsible for it, and nothing elsewhere. */
  lemma UpdateEither(a0: Key, r0: seq<KV>, a1: Key, r1: seq<KV>, m: map<Key, Value>, key: Key, v: Value)
    requires HoldsAt(a0, r0, a1, r1, m) && EMPTY < key && (a0 != EMPTY ==> a0 in m) && (a1 != EMPTY ==> a1 in m)
    ensures key > a1 ==>
              && (Has(r1, key) <==> key in m && a1 != EMPTY)
              && HoldsAt(a0, r0, a1, AfterUpdate(r1, key, v), if Has(r1, key) then m[key := v] else m)
    ensures key <= a1 ==>
              && (Has(r0, key) <==> key in m && key != a1)
              && HoldsAt(a0, AfterUpdate(r0, key, v), a1, r1, if Has(r0, key) then m[key := v] else m)
  {
    var placed := LocalPlaced(a0, r0, a1, r1);
    LocalLookup(a0, r0, a1, r1, m, key);
    ContentsHas(if a1 != EMPTY && key >= a1 then r1 else r0, key);
    if a1 == EMPTY {
      assert !Has(r1, key);
      AfterUpdateAbsent(r1, key, v);
    } else if key > a1 {
      assert Owns(placed.Keys, a1, key);
      UpdatePlaces(placed, m, a1, key, v);
      assert placed[a1 := AfterUpdate(r1, key, v)] == LocalPlaced(a0, r0, a1, AfterUpdate(r1, key, v));
    } else if a0 <= key < a1 {
      assert Owns(placed.Keys, a0, key);
      UpdatePlaces(placed, m, a0, key, v);
      assert placed[a0 := AfterUpdate(r0, key, v)] == LocalPlaced(a0, AfterUpdate(r0, key, v), a1, r1);
    } else {
      HeldInOrder(a0, r0, a1, r1, m);
      assert !Has(r0, key);
      AfterUpdateAbsent(r0, key, v);
    }
  }

  /** local_nodes and local_anchors. */
  class LocalNodes {
    const first: LinkedNode
    const second: LinkedNode
    var node0: LinkedNode
    var node1: LinkedNode
    var anchor0: Key
    var anchor1: Key

    ghost function Repr(): set<object> {
      {this, first, first.fingerprints, first.pairs, second, second.fingerprints, second.pairs}
    }

    /** Two separate nodes of ten records, in either order. */
    ghost predicate Shaped()
      reads Repr()
    {
      && Apart(first, second) && first.finger == second.finger
      && ((node0 == first && node1 == second) || (node0 == second && node1 == first))
      && first.pairs.Length == second.pairs.Length == 10
      && first.fingerprints.Length == second.fingerprints.Length == 16
      && first.Valid() && second.Valid() && first.typ == second.typ == Type10
    }

    ghost function Placed(): Placed
      requires Shaped()
      reads Repr()
    {
      LocalPlaced(anchor0, node0.Records(), anchor1, node1.Records())
    }

    ghost predicate Holds(m: map<Key, Value>)
      reads Repr()
    {
      Shaped() && HoldsAt(anchor0, node0.Records(), anchor1, node1.Records(), m)
    }

    /** Both anchors are keys of the store. */
    ghost predicate Valid(m: map<Key, Value>)
      reads Repr()
    {
      Holds(m) && (anchor0 != EMPTY ==> anchor0 in m) && (anchor1 != EMPTY ==> anchor1 in m)
    }

    /** The key that the second node begins with, or would begin with. */
    predicate Clash(key: Key)
      reads this
    {
      if anchor1 == EMPTY then anchor0 != EMPTY && key == anchor0 else key == anchor1
    }

    constructor (finger: Key -> Byte)
      ensures Valid(map[]) && fresh(Repr()) && first.finger == finger && anchor0 == anchor1 == EMPTY
      ensures first.Records() == second.Records() == []
    {
      var n0 := new LinkedNode(finger, 16, 10, Type10);
      var n1 := new LinkedNode(finger, 16, 10, Type10);
      first, second, node0, node1 := n0, n1, n0, n1;
      anchor0, anchor1 := EMPTY, EMPTY;
    }

    /** The lookup of get. */
    method Get(key: Key, ghost m: map<Key, Value>) returns (r: Option<Value>)
      requires Valid(m) && EMPTY < key
      ensures key in m ==> r == Some(m[key])
      ensures key !in m ==> r == None
    {
      LocalLookup(anchor0, node0.Records(), anchor1, node1.Records(), m, key);
      if anchor1 != EMPTY && key >= anchor1 {
        r := node1.Find(key);
      } else {
        r := node0.Find(key);
      }
    }

    /** Where a key goes, and the anchors that are set on the way.  A key below the first anchor
        moves that anchor down, or, while there is no second one, makes the nodes trade places. */
    method QuickPutPickNode(key: Key, ghost m: map<Key, Value>) returns (target: LinkedNode)
      requires Valid(m) && EMPTY < key
      modifies this`node0, this`node1, this`anchor0, this`anchor1
      ensures target == node0 || target == node1
      ensures !old(Clash(key)) ==> Holds(m) && Owns(Placed().Keys, if target == node0 then anchor0 else anchor1, key)
      ensures !old(Clash(key)) ==>
              (anchor0 == key || anchor0 in m) &&
              (anchor1 == EMPTY || anchor1 == key || anchor1 in m)
      ensures !old(Clash(key)) && anchor1 == EMPTY ==> anchor0 == key && target == node0
      ensures old(Clash(key)) ==> Shaped() && anchor1 == key && target == if old(anchor1) == EMPTY then node1 else node0
      ensures old(Clash(key)) ==> node0 == old(node0) && anchor0 == old(anchor0)
    {
      ghost var a0, r0, a1, r1 := anchor0, node0.Records(), anchor1, node1.Records();
      if anchor0 == EMPTY {
        PickFirst(m, key);
        anchor0 := key;
        return node0;
      }
      if key < anchor0 {
        if anchor1 == EMPTY {
          PickLowerSecond(a0, r0, m, key);
          node0, node1 := node1, node0;
          anchor0, anchor1 := anchor1, anchor0;
        } else {
          PickLower(a0, r0, a1, r1, m, key);
        }
        anchor0 := key;
        target := node0;
      } else if anchor1 == EMPTY {
        if key != anchor0 {
          PickSecond(a0, r0, m, key);
        }
        anchor1 := key;
        target := node1;
      } else if key > anchor1 {
        target := node1;
      } else {
        target := node0;
      }
    }

    /** The store on the node picked. */
    method StoreAt(target: LinkedNode, key: Key, value: Value) returns (stored: bool)
      requires Shaped() && (target == node0 || target == node1)
      modifies first`next, first.fingerprints, first.pairs, second`next, second.fingerprints, second.pairs
      ensures Shaped() && stored == (|old(target.Records())| < 10) && |target.Records()| <= 10
      ensures |first.Records()| <= |old(first.Records())| + 1 && |second.Records()| <= |old(second.Records())| + 1
      ensures node0.Records() == if target == node0 then AfterStore(10, old(node0.Records()), key, value)
              else old(node0.Records())
      ensures node1.Records() == if target == node1 then AfterStore(10, old(node1.Records()), key, value)
              else old(node1.Records())
    {
      hide Distinct;
      stored := target.Store(10, key, value);
    }

    /** The nodes would be in order with the record in the node target, made as large as the flush
        makes it. */
    ghost predicate FlushInOrder(target: LinkedNode, key: Key, value: Value)
      requires Shaped()
      reads Repr()
    {
      InOrder(anchor0, if target == node0 then AfterStore(12, node0.Records(), key, value) else node0.Records(),
              anchor1, if target == node0 then node1.Records() else AfterStore(12, node1.Records(), key, value))
    }

    /** What quick_put does before it thinks of flushing.  The second anchor put again, or the only
        anchor put again, is the one kind of key that leaves the two nodes out of range, at once or by
        the flush. */
    method Put(key: Key, value: Value, ghost m: map<Key, Value>) returns (stored: bool, target: LinkedNode)
      requires Valid(m) && EMPTY < key
      modifies this`node0, this`node1, this`anchor0, this`anchor1
      modifies first`next, first.fingerprints, first.pairs, second`next, second.fingerprints, second.pairs
      ensures Shaped() && (target == node0 || target == node1)
      ensures stored == (|old(target.Records())| < 10)
      ensures |first.Records()| <= |old(first.Records())| + 1 && |second.Records()| <= |old(second.Records())| + 1
      ensures !old(Clash(key)) && stored ==> Valid(InsertIfAbsent(m, key, value))
      ensures !old(Clash(key)) && !stored ==> Holds(m) && anchor0 != EMPTY && anchor1 != EMPTY && target.next == 10
      ensures !old(Clash(key)) && !stored ==> Owns(Placed().Keys, if target == node0 then anchor0 else anchor1, key)
      ensures stored ==> (InOrder(anchor0, node0.Records(), anchor1, node1.Records()) <==> !old(Clash(key)))
      ensures !stored ==> (FlushInOrder(target, key, value) <==> !old(Clash(key)))
    {
      hide Represents, Owns, Has, Distinct, HoldsAt, InOrder;
      target := QuickPutPickNode(key, m);
      ghost var r0, r1 := node0.Records(), node1.Records();
      stored := StoreAt(target, key, value);
      if !old(Clash(key)) {
        if !stored {
          FullHasPair(anchor0, r0, anchor1, r1, m);
          JoinedInOrder(anchor0, r0, anchor1, r1, m, key, value, target == node0, 12);
        } else {
          StoredEither(anchor0, r0, anchor1, r1, m, key, value, target == node0);
        }
      } else {
        StoredClash(anchor0, r0, anchor1, r1, key, value, target == node0, if stored then 10 else 12);
      }
    }

    /** The local branch of update: a key that clashes is looked for on the wrong node. */
    method Update(key: Key, value: Value, ghost m: map<Key, Value>) returns (ok: bool)
      requires Valid(m) && EMPTY < key
      modifies first.pairs, second.pairs
      ensures ok == (key in m && !old(Clash(key)))
      ensures Valid(if ok then m[key := value] else m)
    {
      ghost var a0, r0, a1, r1 := anchor0, node0.Records(), anchor1, node1.Records();
      UpdateEither(a0, r0, a1, r1, m, key, value);
      if key > anchor1 {
        ok := node1.Update(key, value);
      } else {
        ok := node0.Update(key, value);
      }
    }
  }
}
