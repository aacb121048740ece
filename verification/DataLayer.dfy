/** The data layer: fixed-capacity record arrays filtered by fingerprints
    (src/components/data_layer). */
module DataLayer {
  import opened Keys

  /** An address in remote memory, standing for a remote pointer; 0 is the null pointer. */
  type RemoteAddress = nat

  type Value = int

  datatype KV = KV(key: Key, value: Value)

  datatype LinkedNodeType = NotSet | TypeHead | Type10 | Type12 | Type14 | Type16

  function Capacity(t: LinkedNodeType): nat {
    match t
    case NotSet => 0
    case TypeHead => 1
    case Type10 => 10
    case Type12 => 12
    case Type14 => 14
    case Type16 => 16
  }

  // ---------------------------------------------------------------- records as a map

  predicate Has(recs: seq<KV>, k: Key) {
    exists i :: 0 <= i < |recs| && recs[i].key == k
  }

  predicate Distinct(recs: seq<KV>) {
    forall i, j :: 0 <= i < j < |recs| ==> recs[i].key != recs[j].key
  }

  function Contents(recs: seq<KV>): map<Key, Value> {
    if recs == [] then map[]
    else Contents(recs[..|recs| - 1])[recs[|recs| - 1].key := recs[|recs| - 1].value]
  }

  function Lookup(m: map<Key, Value>, k: Key): Option<Value> {
    if k in m then Some(m[k]) else None
  }

  /** What the store promises a put to do: an existing key keeps its value. */
  function InsertIfAbsent(m: map<Key, Value>, k: Key, v: Value): map<Key, Value> {
    if k in m then m else m[k := v]
  }

  lemma {:induction false} ContentsHas(recs: seq<KV>, k: Key)
    ensures k in Contents(recs) <==> Has(recs, k)
  {
    if recs != [] {
      var n := |recs| - 1;
      ContentsHas(recs[..n], k);
      if k in Contents(recs[..n]) {
        var i :| 0 <= i < n && recs[..n][i].key == k;
        assert recs[i].key == k;
      }
      if Has(recs, k) && recs[n].key != k {
        var i :| 0 <= i < |recs| && recs[i].key == k;
        assert recs[..n][i].key == k;
      }
    }
  }

  /** With distinct keys the map holds exactly the records. */
  lemma {:induction false} ContentsAt(recs: seq<KV>, i: nat)
    requires Distinct(recs) && i < |recs|
    ensures recs[i].key in Contents(recs) && Contents(recs)[recs[i].key] == recs[i].value
  {
    var n := |recs| - 1;
    if i < n {
      ContentsAt(recs[..n], i);
      assert recs[..n][i] == recs[i];
    }
  }

  lemma ContentsAppend(recs: seq<KV>, kv: KV)
    ensures Contents(recs + [kv]) == Contents(recs)[kv.key := kv.value]
  {
    assert (recs + [kv])[..|recs|] == recs;
  }

  /** The records after a store into an array of the given capacity. */
  function AfterStore(capacity: nat, recs: seq<KV>, k: Key, v: Value): (r: seq<KV>)
    ensures |r| <= |recs| + 1
  {
    if |recs| >= capacity || Has(recs, k) then recs else recs + [KV(k, v)]
  }

  /** A store into an array with room inserts the key if it is absent, and keeps keys distinct. */
  lemma AfterStoreInserts(capacity: nat, recs: seq<KV>, k: Key, v: Value)
    requires Distinct(recs)
    ensures Distinct(AfterStore(capacity, recs, k, v))
    ensures Contents(AfterStore(capacity, recs, k, v)) ==
            if |recs| < capacity then InsertIfAbsent(Contents(recs), k, v) else Contents(recs)
  {
    ContentsHas(recs, k);
    if |recs| < capacity && !Has(recs, k) {
      ContentsAppend(recs, KV(k, v));
      DistinctAppend(recs, KV(k, v));
    }
  }

  lemma DistinctAppend(recs: seq<KV>, kv: KV)
    requires Distinct(recs) && !Has(recs, kv.key)
    ensures Distinct(recs + [kv])
  {
  }

  /** The records after an update. */
  function AfterUpdate(recs: seq<KV>, k: Key, v: Value): (r: seq<KV>)
    ensures |r| == |recs|
  {
    if recs == [] then []
    else if recs[0].key == k then [KV(k, v)] + recs[1..]
    else [recs[0]] + AfterUpdate(recs[1..], k, v)
  }

  lemma {:induction false} AfterUpdateAt(recs: seq<KV>, k: Key, v: Value, i: nat)
    requires i < |recs| && recs[i].key == k && forall j :: 0 <= j < i ==> recs[j].key != k
    ensures AfterUpdate(recs, k, v) == recs[i := KV(k, v)]
  {
    if i > 0 {
      AfterUpdateAt(recs[1..], k, v, i - 1);
      assert recs[i := KV(k, v)] == [recs[0]] + recs[1..][i - 1 := KV(k, v)];
    } else {
      assert recs[0 := KV(k, v)] == [KV(k, v)] + recs[1..];
    }
  }

  lemma {:induction false} AfterUpdateAbsent(recs: seq<KV>, k: Key, v: Value)
    requires !Has(recs, k)
    ensures AfterUpdate(recs, k, v) == recs
  {
    if recs != [] {
      assert recs[0].key != k;
      forall i | 0 <= i < |recs[1..]|
        ensures recs[1..][i].key != k
      {
        assert recs[i + 1].key != k;
      }
      AfterUpdateAbsent(recs[1..], k, v);
    }
  }

  lemma {:induction false} ContentsUpdate(recs: seq<KV>, i: nat, v: Value)
    requires Distinct(recs) && i < |recs|
    ensures Contents(recs[i := KV(recs[i].key, v)]) == Contents(recs)[recs[i].key := v]
  {
    var n := |recs| - 1;
    var recs' := recs[i := KV(recs[i].key, v)];
    if i < n {
      ContentsUpdate(recs[..n], i, v);
      assert recs'[..n] == recs[..n][i := KV(recs[i].key, v)];
    } else {
      assert recs'[..n] == recs[..n];
    }
  }

  /** An update changes the value of its key, if it is there, and nothing else. */
  lemma AfterUpdateChanges(recs: seq<KV>, k: Key, v: Value)
    requires Distinct(recs)
    ensures Distinct(AfterUpdate(recs, k, v))
    ensures Contents(AfterUpdate(recs, k, v)) == if Has(recs, k) then Contents(recs)[k := v] else Contents(recs)
  {
    if Has(recs, k) {
      var i :| 0 <= i < |recs| && recs[i].key == k;
      AfterUpdateAt(recs, k, v, i);
      ContentsUpdate(recs, i, v);
    } else {
      AfterUpdateAbsent(recs, k, v);
    }
  }

  // ---------------------------------------------------------------- the array

  /** A record array and its fingerprints.  A buffer that holds a node of one type may be used as
      one of another type, so the capacity N of LinkedNode<M, N> is an argument here; the arrays are
      as long as the buffer. */
  class LinkedNode {
    const finger: Key -> Byte
    const fingerprints: array<Byte>
    const pairs: array<KV>
    var typ: LinkedNodeType
    var next: nat

    ghost predicate Valid()
      reads this, fingerprints, pairs
    {
      && next <= pairs.Length <= fingerprints.Length
      && (forall i :: 0 <= i < next ==> fingerprints[i] == finger(pairs[i].key))
      && Distinct(pairs[..next])
    }

    ghost function Records(): seq<KV>
      requires next <= pairs.Length
      reads this`next, pairs
    {
      pairs[..next]
    }

    constructor (finger: Key -> Byte, fingerCount: nat, pairCount: nat, t: LinkedNodeType)
      requires pairCount <= fingerCount
      ensures Valid() && Records() == [] && typ == t && this.finger == finger
      ensures fresh(fingerprints) && fresh(pairs)
      ensures fingerprints.Length == fingerCount && pairs.Length == pairCount
      ensures forall i :: 0 <= i < fingerCount ==> fingerprints[i] == 0
    {
      this.finger := finger;
      fingerprints := new Byte[fingerCount](_ => 0);
      pairs := new KV[pairCount](_ => KV(0, 0));
      typ := t;
      next := 0;
    }

    /** The slot of a key: the fingerprint filter never hides a stored key. */
    method Slot(key: Key) returns (i: nat)
      requires Valid()
      ensures i <= next && (i < next <==> Has(Records(), key))
      ensures i < next ==> pairs[i].key == key
      ensures forall j :: 0 <= j < i ==> pairs[j].key != key
    {
      var f := finger(key);
      i := 0;
      while i < next
        invariant i <= next && forall j :: 0 <= j < i ==> pairs[j].key != key
      {
        if f == fingerprints[i] && key == pairs[i].key {
          assert Records()[i].key == key;
          return;
        }
        i := i + 1;
      }
    }

    /** The value stored with a key, if the key is there. */
    method Find(key: Key) returns (r: Option<Value>)
      requires Valid()
      ensures r.Some? <==> Has(Records(), key)
      ensures forall i {:trigger pairs[i]} :: 0 <= i < next && pairs[i].key == key ==> r == Some(pairs[i].value)
      ensures r == Lookup(Contents(Records()), key)
    {
      var i := Slot(key);
      ContentsHas(Records(), key);
      if i < next {
        ContentsAt(Records(), i);
        return Some(pairs[i].value);
      }
      return None;
    }

    /** Stores a key that is not there yet; false exactly when the array is full. */
    method Store(capacity: nat, key: Key, value: Value) returns (ok: bool)
      requires Valid() && next <= capacity <= pairs.Length
      modifies this`next, fingerprints, pairs
      ensures Valid() && next <= capacity && ok == (old(next) < capacity)
      ensures ok && !Has(old(Records()), key) ==> Records() == old(Records()) + [KV(key, value)]
      ensures !ok || Has(old(Records()), key) ==> Records() == old(Records())
      ensures Records() == AfterStore(capacity, old(Records()), key, value)
      ensures forall i :: next <= i < fingerprints.Length ==> fingerprints[i] == old(fingerprints[i])
      ensures forall i :: 0 <= i < old(next) ==> fingerprints[i] == old(fingerprints[i])
    {
      if next >= capacity {
        return false;
      }
      var i := Slot(key);
      if i < next {
        return true;
      }
      fingerprints[next] := finger(key);
      pairs[next] := KV(key, value);
      assert forall j :: 0 <= j < next ==> pairs[j].key != key;
      next := next + 1;
      return true;
    }

    /** Replaces the value of a key that is there. */
    method Update(key: Key, value: Value) returns (ok: bool)
      requires Valid()
      modifies pairs
      ensures Valid() && ok == Has(old(Records()), key) && next == old(next)
      ensures forall i {:trigger pairs[i]} :: 0 <= i < next ==>
                pairs[i] == if old(pairs[i].key) == key then KV(key, value) else old(pairs[i])
      ensures Records() == AfterUpdate(old(Records()), key, value)
    {
      var i := Slot(key);
      if i < next {
        AfterUpdateAt(Records(), key, value, i);
        pairs[i] := KV(pairs[i].key, value);
        assert Records() == old(Records())[i := KV(key, value)];
        return true;
      }
      AfterUpdateAbsent(Records(), key, value);
      return false;
    }

    /** The type a node of the counted size should have: morph_node counts the fingerprints that
        are not zero among the sixteen of a node. */
    method MorphNode() returns (t: LinkedNodeType)
      requires 16 <= fingerprints.Length
      ensures t == TypeFor(CountNonzero(fingerprints[..16]))
    {
      var ct := 0;
      for i := 0 to 16
        invariant ct == CountNonzero(fingerprints[..i])
      {
        assert fingerprints[..i + 1] == fingerprints[..i] + [fingerprints[i]];
        CountAppend(fingerprints[..i], fingerprints[i]);
        if fingerprints[i] != 0 {
          ct := ct + 1;
        }
      }
      CountBound(fingerprints[..16]);
      return if ct <= 10 then Type10 else if ct <= 12 then Type12 else if ct <= 14 then Type14
        else if ct <= 16 then Type16 else NotSet;
    }
  }

  // ---------------------------------------------------------------- choosing a type

  /** The smallest type with room for ct records. */
  function TypeFor(ct: nat): LinkedNodeType {
    if ct <= 10 then Type10 else if ct <= 12 then Type12 else if ct <= 14 then Type14
    else if ct <= 16 then Type16 else NotSet
  }

  function CountNonzero(fs: seq<Byte>): nat {
    if fs == [] then 0 else CountNonzero(fs[..|fs| - 1]) + if fs[|fs| - 1] != 0 then 1 else 0
  }

  lemma CountAppend(fs: seq<Byte>, f: Byte)
    ensures CountNonzero(fs + [f]) == CountNonzero(fs) + if f != 0 then 1 else 0
  {
    assert (fs + [f])[..|fs|] == fs;
  }

  lemma {:induction false} CountBound(fs: seq<Byte>)
    ensures CountNonzero(fs) <= |fs|
  {
    if fs != [] {
      CountBound(fs[..|fs| - 1]);
    }
  }

  /** A prefix of n fingerprints that are all nonzero is counted in full. */
  lemma {:induction false} CountPrefix(fs: seq<Byte>, n: nat)
    requires n <= |fs| && forall i :: 0 <= i < n ==> fs[i] != 0
    ensures CountNonzero(fs) >= n
  {
    if n < |fs| {
      CountPrefix(fs[..|fs| - 1], n);
    } else if n > 0 {
      CountPrefix(fs[..|fs| - 1], n - 1);
    }
  }

  /** The type morph_node picks has room for all n records of a node exactly when it counted enough
      fingerprints: any count for up to 10 records, otherwise more than the next smaller capacity.
      It counts enough whenever no used fingerprint is zero. */
  lemma MorphFits(fs: seq<Byte>, n: nat)
    requires |fs| == 16 && n <= 16
    ensures n <= Capacity(TypeFor(CountNonzero(fs))) <==>
            n <= 10 || CountNonzero(fs) > (if n <= 12 then 10 else if n <= 14 then 12 else 14)
    ensures (forall i :: 0 <= i < n ==> fs[i] != 0) ==> n <= Capacity(TypeFor(CountNonzero(fs)))
  {
    CountBound(fs);
    if forall i :: 0 <= i < n ==> fs[i] != 0 {
      CountPrefix(fs, n);
    }
  }

  /** Eleven records of which one has a key with fingerprint zero are taken for ten, and the last of
      them has no slot in the node they are written to. */
  lemma MorphCanLoseARecord() returns (fs: seq<Byte>, n: nat)
    ensures |fs| == 16 && n == 11 && forall i :: 0 <= i < 16 ==> (fs[i] != 0 <==> 1 <= i < n)
    ensures n > Capacity(TypeFor(CountNonzero(fs)))
  {
    fs, n := [0, 7, 7, 7, 7, 7, 7, 7, 7, 7, 7, 0, 0, 0, 0, 0], 11;
    CountSixteen(fs);
  }

  lemma CountSixteen(fs: seq<Byte>)
    requires |fs| == 16 && fs[0] == 0 && forall i :: 11 <= i < 16 ==> fs[i] == 0
    ensures CountNonzero(fs) <= 10
  {
    CountTail(fs, 11);
    assert fs[..11] == [fs[0]] + fs[1..11];
    CountFirstZero(fs[..11]);
  }

  lemma {:induction false} CountTail(fs: seq<Byte>, n: nat)
    requires n <= |fs| && forall i :: n <= i < |fs| ==> fs[i] == 0
    ensures CountNonzero(fs) == CountNonzero(fs[..n])
  {
    if n < |fs| {
      CountTail(fs[..|fs| - 1], n);
      assert fs[..|fs| - 1][..n] == fs[..n];
    } else {
      assert fs[..n] == fs;
    }
  }

  lemma {:induction false} CountFirstZero(fs: seq<Byte>)
    requires |fs| > 0 && fs[0] == 0
    ensures CountNonzero(fs) <= |fs| - 1
  {
    if |fs| > 1 {
      CountFirstZero(fs[..|fs| - 1]);
    } else {
      assert fs[..0] == [];
    }
  }
}
