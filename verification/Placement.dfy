/** Which data node a key belongs to, and when the data nodes together are the store's map. */
module Placement {
  import opened Keys
  import opened DataLayer
  import opened Split
  import opened PutPaths

  /** a is the greatest anchor at most k. */
  ghost predicate Owns(anchors: set<Key>, a: Key, k: Key) {
    a in anchors && a <= k && forall b {:trigger b in anchors} :: b in anchors && b <= k ==> b <= a
  }

  /** The records of each data node, by anchor. */
  type Placed = map<Key, seq<KV>>

  /** A node holds only keys from its anchor up to the next one. */
  ghost predicate Ranged(placed: Placed, a: Key)
    requires a in placed
  {
    forall k {:trigger Has(placed[a], k)} :: Has(placed[a], k) ==> Owns(placed.Keys, a, k)
  }

  /** A key the node at a is responsible for is there exactly if the store has it. */
  ghost predicate Agrees(placed: Placed, m: map<Key, Value>, a: Key, k: Key)
    requires a in placed
  {
    Lookup(Contents(placed[a]), k) == Lookup(m, k)
  }

  ghost predicate Reached(placed: Placed, k: Key) {
    exists a {:trigger a in placed} :: a in placed && a <= k
  }

  /** The data nodes together are the map m: keys are distinct and in range on every node, and the
      node responsible for a key knows what m knows about it. */
  ghost predicate Represents(placed: Placed, m: map<Key, Value>) {
    && (forall a {:trigger Ranged(placed, a)} :: a in placed ==> Distinct(placed[a]) && Ranged(placed, a))
    && (forall a, k {:trigger Owns(placed.Keys, a, k)} :: Owns(placed.Keys, a, k) ==> Agrees(placed, m, a, k))
    && (forall k {:trigger Reached(placed, k)} :: k in m ==> Reached(placed, k))
  }

  lemma OwnerUnique(anchors: set<Key>, a: Key, b: Key, k: Key)
    requires Owns(anchors, a, k) && Owns(anchors, b, k)
    ensures a == b
  {
  }

  /** A record of any node is a record of the store. */
  lemma RecordKnown(placed: Placed, m: map<Key, Value>, a: Key, k: Key)
    requires Represents(placed, m) && a in placed && Has(placed[a], k)
    ensures k in m
  {
    assert Ranged(placed, a) && Owns(placed.Keys, a, k) && Agrees(placed, m, a, k);
    ContentsHas(placed[a], k);
  }

  lemma {:induction false} PutAllLookup(m: map<Key, Value>, m': map<Key, Value>, kvs: seq<KV>, k: Key)
    requires Lookup(m, k) == Lookup(m', k)
    ensures Lookup(PutAll(m, kvs), k) == Lookup(PutAll(m', kvs), k)
  {
    if kvs != [] {
      PutAllLookup(m, m', kvs[..|kvs| - 1], k);
    }
  }

  lemma {:induction false} PutAllElsewhere(m: map<Key, Value>, kvs: seq<KV>, k: Key)
    requires !Has(kvs, k)
    ensures Lookup(PutAll(m, kvs), k) == Lookup(m, k)
  {
    if kvs != [] {
      var n := |kvs| - 1;
      assert kvs == kvs[..n] + [kvs[n]];
      HasAppend(kvs[..n], kvs[n]);
      PutAllElsewhere(m, kvs[..n], k);
    }
  }

  ghost predicate AllOwned(placed: Placed, a: Key, kvs: seq<KV>) {
    forall i {:trigger kvs[i]} :: 0 <= i < |kvs| ==> Owns(placed.Keys, a, kvs[i].key)
  }

  /** Inserting a batch of its own range on one node inserts the batch in the store. */
  lemma PutPlaces(placed: Placed, m: map<Key, Value>, a: Key, all: seq<KV>, kvs: seq<KV>)
    requires Represents(placed, m) && a in placed && AllOwned(placed, a, kvs)
    requires Distinct(all) && Contents(all) == PutAll(Contents(placed[a]), kvs)
    ensures Represents(placed[a := all], PutAll(m, kvs))
  {
    var placed', m' := placed[a := all], PutAll(m, kvs);
    assert placed'.Keys == placed.Keys;
    forall b | b in placed'
      ensures Distinct(placed'[b]) && Ranged(placed', b)
    {
      assert Ranged(placed, b);
      forall k | Has(placed'[b], k)
        ensures Owns(placed'.Keys, b, k)
      {
        if b == a {
          ContentsHas(all, k);
          PutAllKeys(Contents(placed[a]), kvs, k);
          ContentsHas(placed[a], k);
        }
      }
    }
    forall b, k | Owns(placed'.Keys, b, k)
      ensures Agrees(placed', m', b, k)
    {
      assert Owns(placed.Keys, b, k) && Agrees(placed, m, b, k);
      if b == a {
        PutAllLookup(Contents(placed[a]), m, kvs, k);
      } else {
        NotInBatch(placed, a, b, kvs, k);
        PutAllElsewhere(m, kvs, k);
      }
    }
    forall k | k in m'
      ensures Reached(placed', k)
    {
      PutAllKeys(m, kvs, k);
      if k in m {
        assert Reached(placed, k);
      } else {
        assert Owns(placed.Keys, a, k);
      }
    }
  }

  lemma NotInBatch(placed: Placed, a: Key, b: Key, kvs: seq<KV>, k: Key)
    requires AllOwned(placed, a, kvs) && Owns(placed.Keys, b, k) && a != b
    ensures !Has(kvs, k)
  {
    forall i | 0 <= i < |kvs|
      ensures kvs[i].key != k
    {
      assert Owns(placed.Keys, a, kvs[i].key);
    }
  }

  /** Updating a key on the node responsible for it updates it in the store. */
  lemma UpdatePlaces(placed: Placed, m: map<Key, Value>, a: Key, key: Key, v: Value)
    requires Represents(placed, m) && Owns(placed.Keys, a, key)
    ensures Has(placed[a], key) <==> key in m
    ensures Represents(placed[a := AfterUpdate(placed[a], key, v)], if key in m then m[key := v] else m)
  {
    var recs, all := placed[a], AfterUpdate(placed[a], key, v);
    var placed', m' := placed[a := all], if key in m then m[key := v] else m;
    assert placed'.Keys == placed.Keys && Ranged(placed, a) && Agrees(placed, m, a, key);
    ContentsHas(recs, key);
    AfterUpdateChanges(recs, key, v);
    forall b | b in placed'
      ensures Distinct(placed'[b]) && Ranged(placed', b)
    {
      assert Ranged(placed, b);
      forall k | Has(placed'[b], k)
        ensures Owns(placed'.Keys, b, k)
      {
        ContentsHas(recs, k);
        ContentsHas(all, k);
      }
    }
    forall b, k | Owns(placed'.Keys, b, k)
      ensures Agrees(placed', m', b, k)
    {
      assert Agrees(placed, m, b, k);
      if b != a && k == key {
        OwnerUnique(placed.Keys, a, b, k);
      }
    }
    forall k | k in m'
      ensures Reached(placed', k)
    {
      assert Reached(placed, k);
    }
  }

  /** The anchor of the right half lies between its node and the next one. */
  lemma SplitAnchor(placed: Placed, m: map<Key, Value>, a: Key, ranchor: Key)
    requires Represents(placed, m) && a in placed && Has(placed[a], ranchor)
    ensures a < ranchor && ranchor !in placed <==> ranchor != a
    ensures Below(placed[a], ranchor) != [] ==> ranchor != a
    ensures ranchor != a ==> Owns(placed.Keys, a, ranchor) && forall b :: b in placed && a < b ==> ranchor < b
  {
    var all := placed[a];
    assert Ranged(placed, a) && Owns(placed.Keys, a, ranchor);
    if Below(all, ranchor) != [] {
      SplitSides(all, |all|, ranchor);
      var k := Below(all, ranchor)[0].key;
      assert Has(Below(all, ranchor), k) && all[..|all|] == all && Has(all, k);
      assert Owns(placed.Keys, a, k);
    }
  }

  /** Splitting a node around one of its keys changes nothing in the store. */
  lemma SplitPlaces(placed: Placed, m: map<Key, Value>, a: Key, ranchor: Key)
    requires Represents(placed, m) && a in placed && Has(placed[a], ranchor) && ranchor != a
    ensures Represents(placed[a := Below(placed[a], ranchor)][ranchor := AtOrAbove(placed[a], ranchor)], m)
  {
    var all := placed[a];
    var placed' := placed[a := Below(all, ranchor)][ranchor := AtOrAbove(all, ranchor)];
    SplitAnchor(placed, m, a, ranchor);
    assert Ranged(placed, a);
    SplitSides(all, |all|, ranchor);
    SplitDistinct(all, |all|, ranchor);
    assert all[..|all|] == all && placed'.Keys == placed.Keys + {ranchor};
    forall b, k
      ensures Owns(placed'.Keys, b, k) <==> if b == ranchor then ranchor <= k && Owns(placed.Keys, a, k)
                                            else Owns(placed.Keys, b, k) && !(b == a && ranchor <= k)
    {
      SplitOwners(placed.Keys, a, ranchor, b, k);
    }
    forall b | b in placed'
      ensures Distinct(placed'[b]) && Ranged(placed', b)
    {
      assert Ranged(placed, if b == ranchor then a else b);
    }
    forall b, k | Owns(placed'.Keys, b, k)
      ensures Agrees(placed', m, b, k)
    {
      SplitLookup(all, |all|, ranchor, k);
      var b0 := if b == ranchor then a else b;
      assert Owns(placed.Keys, b0, k) && Agrees(placed, m, b0, k);
    }
    forall k | k in m
      ensures Reached(placed', k)
    {
      assert Reached(placed, k);
      var b :| b in placed && b <= k;
      assert b in placed';
    }
  }

  /** A new anchor takes over the upper part of its predecessor's keys. */
  lemma SplitOwners(anchors: set<Key>, a: Key, ranchor: Key, b: Key, k: Key)
    requires a in anchors && a < ranchor && ranchor !in anchors
    requires forall c :: c in anchors && a < c ==> ranchor < c
    ensures Owns(anchors + {ranchor}, b, k) <==> if b == ranchor then ranchor <= k && Owns(anchors, a, k)
                                                 else Owns(anchors, b, k) && !(b == a && ranchor <= k)
  {
    var anchors' := anchors + {ranchor};
    if Owns(anchors', b, k) && b == ranchor {
      forall c | c in anchors && c <= k
        ensures c <= a
      {
        assert c in anchors';
      }
    }
    if Owns(anchors', b, k) && b != ranchor {
      assert ranchor in anchors';
      forall c | c in anchors && c <= k
        ensures c <= b
      {
        assert c in anchors';
      }
    }
  }
}
