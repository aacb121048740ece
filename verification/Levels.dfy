/** What the forward pointers of a skip list must be.
    A list is described by the height of each anchor: the number of levels, from the bottom, on
    which its node is linked.  The forward pointer of a node at level i leads to the least anchor
    above it whose height exceeds i. */
module Levels {
  import opened Keys

  type Heights = map<Key, nat>

  /** n is the successor of k at level i. */
  ghost predicate IsNext(h: Heights, k: Key, i: nat, n: Option<Key>) {
    match n
    case None => forall j {:trigger h[j]} :: j in h && k < j ==> h[j] <= i
    case Some(m) => m in h && k < m && i < h[m] && forall j {:trigger h[j]} :: j in h && k < j < m ==> h[j] <= i
  }

  /** p is the last anchor linked at level i before k. */
  ghost predicate IsPred(h: Heights, k: Key, i: nat, p: Key) {
    p in h && p < k && i < h[p] && forall j {:trigger h[j]} :: j in h && p < j < k ==> h[j] <= i
  }

  /** Heights determine every forward pointer. */
  lemma NextUnique(h: Heights, k: Key, i: nat, n: Option<Key>, m: Option<Key>)
    requires IsNext(h, k, i, n) && IsNext(h, k, i, m)
    ensures n == m
  {
  }

  /** A node p linked at level i whose successor there is not below k is k's predecessor. */
  lemma PredFromNext(h: Heights, k: Key, i: nat, p: Key, n: Option<Key>)
    requires p in h && p < k && i < h[p]
    requires IsNext(h, p, i, n) && (n.None? || k <= n.value)
    ensures IsPred(h, k, i, p)
  {
  }

  /** Linking a, so far linked below level i, at level i behind its predecessor p: p now leads to
      a, a to p's old successor, and no other pointer has to change. */
  lemma RaiseLevel(h: Heights, a: Key, i: nat, p: Key, n: Option<Key>)
    requires a in h && h[a] == i
    requires IsPred(h, a, i, p) && IsNext(h, p, i, n)
    ensures IsNext(h[a := i + 1], p, i, Some(a))
    ensures IsNext(h[a := i + 1], a, i, n)
    ensures forall k, j, m | k in h && j < h[k] && !(k == p && j == i) && IsNext(h, k, j, m) ::
              IsNext(h[a := i + 1], k, j, m)
  {
    var h' := h[a := i + 1];
    forall k, j, m | k in h && j < h[k] && !(k == p && j == i) && IsNext(h, k, j, m)
      ensures IsNext(h', k, j, m)
    {
      if j == i && k < a {
        assert k < p;
        assert m.Some? && m.value <= p;
      }
    }
  }

  /** a's own height plays no part in who precedes a. */
  lemma PredIgnoresSelf(h: Heights, a: Key, i: nat, p: Key, x: nat)
    requires IsPred(h, a, i, p)
    ensures IsPred(h[a := x], a, i, p)
  {
  }

  /** The forward pointers of every node, each named by the anchor it leads to. */
  type Links = map<Key, seq<Option<Key>>>

  /** Every node has a pointer for each level it is linked on. */
  ghost predicate Sized(h: Heights, links: Links) {
    forall k :: k in h ==> k in links && h[k] <= |links[k]|
  }

  /** k's pointer at level i is the one the heights ask for. */
  ghost predicate LinkOk(h: Heights, links: Links, k: Key, i: nat)
    requires k in links && i < |links[k]|
  {
    IsNext(h, k, i, links[k][i])
  }

  /** Every pointer on a level its node is linked on is the one the heights ask for. */
  ghost predicate Wired(h: Heights, links: Links) {
    && Sized(h, links)
    && (forall k, i {:trigger LinkOk(h, links, k, i)} :: k in h && 0 <= i < h[k] ==> LinkOk(h, links, k, i))
  }

  /** The two writes that link a at level i behind p. */
  ghost function LinkedIn(links: Links, a: Key, p: Key, i: nat): Links
    requires a in links && p in links && i < |links[a]| && i < |links[p]|
  {
    links[a := links[a][i := links[p][i]]][p := links[p][i := Some(a)]]
  }

  lemma LinkStep(h: Heights, links: Links, a: Key, p: Key, i: nat)
    requires Wired(h, links)
    requires a in h && h[a] == i && i < |links[a]|
    requires IsPred(h, a, i, p)
    ensures Wired(h[a := i + 1], LinkedIn(links, a, p, i))
  {
    assert LinkOk(h, links, p, i);
    var n := links[p][i];
    RaiseLevel(h, a, i, p, n);
    var h', links' := h[a := i + 1], LinkedIn(links, a, p, i);
    forall k, j | k in h' && 0 <= j < h'[k]
      ensures LinkOk(h', links', k, j)
    {
      if !(k == p && j == i) && !(k == a && j == i) {
        assert links'[k][j] == links[k][j];
        assert LinkOk(h, links, k, j);
      }
    }
  }

  /** A node of height 0 is on no level, so adding it changes no pointer. */
  lemma AddUnlinked(h: Heights, links: Links, a: Key, own: seq<Option<Key>>)
    requires Wired(h, links) && a !in h
    ensures Wired(h[a := 0], links[a := own])
  {
    var h', links' := h[a := 0], links[a := own];
    forall k, j | k in h' && 0 <= j < h'[k]
      ensures LinkOk(h', links', k, j)
    {
      assert LinkOk(h, links, k, j);
    }
  }

  /** What inserting a did to level i, told from the heights before and after: a stands between
      its predecessor and the predecessor's old successor, and no other pointer changed. */
  lemma SplicedIn(h: Heights, links: Links, links': Links, a: Key, level: nat, i: nat, p: Key)
    requires a !in h && i < level && IsPred(h, a, i, p)
    requires Wired(h, links) && Wired(h[a := level], links')
    ensures links'[p][i] == Some(a) && links'[a][i] == links[p][i]
    ensures forall k :: k in h && i < h[k] && k != p ==> links'[k][i] == links[k][i]
  {
    var h' := h[a := level];
    assert LinkOk(h, links, p, i) && LinkOk(h', links', p, i) && LinkOk(h', links', a, i);
    NextUnique(h', p, i, links'[p][i], Some(a));
    NextUnique(h', a, i, links'[a][i], links[p][i]);
    forall k | k in h && i < h[k] && k != p
      ensures links'[k][i] == links[k][i]
    {
      assert LinkOk(h, links, k, i) && LinkOk(h', links', k, i);
      NextUnique(h', k, i, links'[k][i], links[k][i]);
    }
  }

  /** Half way through a removal: below level i the pointers already pass over a. */
  ghost predicate Dropping(h: Heights, links: Links, a: Key, i: nat) {
    && Sized(h, links)
    && (forall k, j :: k in h && k != a && 0 <= j < h[k] ==>
          IsNext(if j < i then h - {a} else h, k, j, links[k][j]))
  }

  lemma DropStart(h: Heights, links: Links, a: Key)
    requires Wired(h, links)
    ensures Dropping(h, links, a, 0)
  {
    forall k, j | k in h && k != a && 0 <= j < h[k]
      ensures IsNext(if j < 0 then h - {a} else h, k, j, links[k][j])
    {
      assert LinkOk(h, links, k, j);
    }
  }

  /** One level of unlinking: a's predecessor takes over a's pointer. */
  lemma DropStep(h: Heights, links: Links, a: Key, p: Key, i: nat)
    requires Dropping(h, links, a, i)
    requires a in h && i < h[a] && IsNext(h, a, i, links[a][i])
    requires IsPred(h, a, i, p)
    ensures Dropping(h, links[p := links[p][i := links[a][i]]], a, i + 1)
  {
    var links' := links[p := links[p][i := links[a][i]]];
    forall k, j | k in h && k != a && 0 <= j < h[k]
      ensures IsNext(if j < i + 1 then h - {a} else h, k, j, links'[k][j])
    {
      assert IsNext(if j < i then h - {a} else h, k, j, links[k][j]);
      if j == i && k != p {
        assert links[k][j] != Some(a);
      }
    }
  }

  /** Above a's height nothing leads to a, so the removal is complete. */
  lemma DropDone(h: Heights, links: Links, a: Key, i: nat)
    requires Dropping(h, links, a, i)
    requires a in h && h[a] <= i
    ensures Wired(h - {a}, links)
  {
    forall k, j | k in h - {a} && 0 <= j < (h - {a})[k]
      ensures LinkOk(h - {a}, links, k, j)
    {
      assert IsNext(if j < i then h - {a} else h, k, j, links[k][j]);
    }
  }

  /** Same nodes, each with as many pointers as before. */
  ghost predicate SameSizes(links: Links, links': Links) {
    links'.Keys == links.Keys && forall k {:trigger links'[k]} {:trigger links[k]} :: k in links ==>
        |links'[k]| == |links[k]|
  }

  /** Calibrating a node does not touch the bottom level. */
  lemma RaiseKeepsBottom(h: Heights, links: Links, h': Heights, links': Links, a: Key, level: nat)
    requires Wired(h, links) && Wired(h', links')
    requires a in h && h' == h[a := level] && Grounded(h) && 1 <= level
    ensures forall k :: k in h ==> links'[k][0] == links[k][0]
  {
    forall k | k in h
      ensures links'[k][0] == links[k][0]
    {
      assert LinkOk(h, links, k, 0) && LinkOk(h', links', k, 0);
      var n := links[k][0];
      assert IsNext(h', k, 0, n);
      NextUnique(h', k, 0, n, links'[k][0]);
    }
  }

  /** Every node is linked on the bottom level. */
  ghost predicate Grounded(h: Heights) {
    forall k {:trigger h[k]} :: k in h ==> 1 <= h[k]
  }

  lemma GroundedUpdate(h: Heights, a: Key, level: nat)
    requires Grounded(h) && 1 <= level
    ensures Grounded(h[a := level])
  {
  }

  /** An anchor between d and d's successor on the bottom level is new, and d precedes it. */
  lemma BottomPred(h: Heights, links: Links, d: Key, a: Key)
    requires Wired(h, links) && Grounded(h) && d in h && d < a
    requires |links[d]| > 0 && (links[d][0].None? || a < links[d][0].value)
    ensures a !in h && IsPred(h[a := 0], a, 0, d) && Grounded(h[a := 0][a := 1])
  {
    assert LinkOk(h, links, d, 0);
  }

  /** The backward pointer of every node, named by the anchor it leads to. */
  type Backs = map<Key, Option<Key>>

  /** k's successor on the bottom level leads back to k. */
  ghost predicate LedBackTo(links: Links, backs: Backs, k: Key)
    requires k in links && |links[k]| > 0
  {
    links[k][0].Some? ==> links[k][0].value in backs && backs[links[k][0].value] == Some(k)
  }

  /** k is the successor, on the bottom level, of the node it leads back to. */
  ghost predicate LeadsBack(links: Links, backs: Backs, k: Key)
    requires k in backs
  {
    backs[k].Some? && backs[k].value in links && |links[backs[k].value]| > 0 &&
    links[backs[k].value][0] == Some(k)
  }

  /** The backward pointers are the inverse of the bottom level; the head has none. */
  ghost predicate Inverse(links: Links, backs: Backs) {
    && backs.Keys == links.Keys && HEAD in backs && backs[HEAD] == None
    && (forall k :: k in links ==> 1 <= |links[k]|)
    && (forall k {:trigger LedBackTo(links, backs, k)} :: k in links ==> LedBackTo(links, backs, k))
    && (forall k {:trigger LeadsBack(links, backs, k)} ::
          k in backs && k != HEAD ==> LeadsBack(links, backs, k))
  }

  /** No node waits for its upper levels, and the backward pointers are exact. */
  ghost predicate Settled(h: Heights, links: Links, backs: Backs) {
    && h.Keys == links.Keys && (forall k :: k in h ==> |links[k]| == h[k])
    && Inverse(links, backs)
  }

  /** The backward writes of insert: a leads back to p, and a's successor to a. */
  ghost function BackedIn(backs: Backs, a: Key, p: Key, n: Option<Key>): Backs {
    if n.Some? then backs[a := Some(p)][n.value := Some(a)] else backs[a := Some(p)]
  }

  lemma BackedInInverse(links: Links, backs: Backs, links': Links, a: Key, p: Key)
    requires Inverse(links, backs) && a !in links && a != HEAD && p in links
    requires links'.Keys == links.Keys + {a} && (forall k :: k in links' ==> 1 <= |links'[k]|)
    requires links'[p][0] == Some(a) && links'[a][0] == links[p][0]
    requires forall k :: k in links && k != p ==> links'[k][0] == links[k][0]
    ensures Inverse(links', BackedIn(backs, a, p, links[p][0]))
  {
    var n, backs' := links[p][0], BackedIn(backs, a, p, links[p][0]);
    assert LedBackTo(links, backs, p);
    forall k | k in links'
      ensures LedBackTo(links', backs', k)
    {
      if k in links {
        assert LedBackTo(links, backs, k);
      }
    }
    forall k | k in backs' && k != HEAD
      ensures LeadsBack(links', backs', k)
    {
      if k in backs {
        assert LeadsBack(links, backs, k);
      }
    }
  }

  /** insert leaves a settled list settled. */
  lemma InsertKeepsSettled(h: Heights, links: Links, backs: Backs, h': Heights, links': Links, a: Key,
                           level: nat, p: Key)
    requires Settled(h, links, backs) && Wired(h, links)
    requires SameSizes(links[a := seq(level, _ => None)], links')
    requires a !in h && a != HEAD && 1 <= level && IsPred(h, a, 0, p)
    requires h' == h[a := level] && Wired(h', links') && Grounded(h')
    ensures Settled(h', links', BackedIn(backs[a := None], a, p, links'[a][0]))
  {
    InsertedBottom(h, links, h', links', a, level, p);
    BackedInInverse(links, backs, links', a, p);
    BackedInAgain(backs, a, p, links[p][0]);
  }

  lemma BackedInAgain(backs: Backs, a: Key, p: Key, n: Option<Key>)
    ensures BackedIn(backs[a := None], a, p, n) == BackedIn(backs, a, p, n)
  {
  }

  lemma InsertedBottom(h: Heights, links: Links, h': Heights, links': Links, a: Key, level: nat, p: Key)
    requires Wired(h, links) && a !in h && 1 <= level && IsPred(h, a, 0, p)
    requires h' == h[a := level] && Wired(h', links')
    requires Grounded(h')
    ensures forall k :: k in h' ==> 1 <= |links'[k]|
    ensures links'[p][0] == Some(a) && links'[a][0] == links[p][0]
    ensures forall k :: k in h && k != p ==> links'[k][0] == links[k][0]
  {
    SplicedIn(h, links, links', a, level, 0, p);
    assert forall k :: k in h ==> h[k] == h'[k];
  }

  /** While a is being taken off, its predecessor's pointer tells whether a is on the level. */
  lemma DropPointer(h: Heights, links: Links, a: Key, i: nat, p: Key)
    requires Dropping(h, links, a, i) && a in h && IsPred(h, a, i, p)
    ensures links[p][i] == Some(a) <==> i < h[a]
  {
    assert IsNext(if i < i then h - {a} else h, p, i, links[p][i]);
    if i < h[a] {
      NextUnique(h, p, i, links[p][i], Some(a));
    }
  }

  /** What removing a did to level i, told from the heights before and after. */
  lemma SplicedOut(h: Heights, links: Links, links': Links, a: Key, i: nat, p: Key)
    requires a in h && i < h[a] && IsPred(h, a, i, p)
    requires Wired(h, links) && Wired(h - {a}, links')
    ensures links[p][i] == Some(a) && links'[p][i] == links[a][i] && links[a][i] != Some(a)
    ensures forall k :: k in h - {a} && i < h[k] && k != p ==> links'[k][i] == links[k][i]
  {
    assert LinkOk(h, links, p, i) && LinkOk(h, links, a, i) && LinkOk(h - {a}, links', p, i);
    NextUnique(h, p, i, links[p][i], Some(a));

    NextUnique(h - {a}, p, i, links'[p][i], links[a][i]);
    forall k | k in h - {a} && i < h[k] && k != p
      ensures links'[k][i] == links[k][i]
    {
      assert LinkOk(h, links, k, i) && LinkOk(h - {a}, links', k, i);
      assert links[k][i] != Some(a);
      NextUnique(h - {a}, k, i, links'[k][i], links[k][i]);
    }
  }

  /** No forward pointer names a, and no backward pointer will once remove is done. */
  ghost predicate Unnamed(links: Links, backs': Backs, a: Key) {
    && (forall k :: k in links && Some(a) in links[k] ==> k == a)
    && (a in links && |links[a]| > 0 ==> links[a][0] != Some(a))
    && (forall k :: k in backs' ==> backs'[k] != Some(a))
  }

  /** remove leaves a settled list settled, and nothing names the removed anchor any more. */
  lemma RemoveKeepsSettled(h: Heights, links: Links, backs: Backs, links': Links, a: Key, p: Key)
    requires Settled(h, links, backs) && Wired(h, links) && Grounded(h)
    requires a in h && a != HEAD && IsPred(h, a, 0, p)
    requires SameSizes(links, links') && links'[a] == links[a] && Wired(h - {a}, links')
    ensures Settled(h - {a}, links' - {a}, BackedOut(backs, a, links[a][0]))
    ensures Wired(h - {a}, links' - {a}) && Grounded(h - {a})
  {
    SplicedOut(h, links, links', a, 0, p);
    BackedOutInverse(links, backs, links' - {a}, a, p);
    forall k, i | k in h - {a} && 0 <= i < (h - {a})[k]
      ensures LinkOk(h - {a}, links' - {a}, k, i)
    {
      assert LinkOk(h - {a}, links', k, i);
    }
  }

  lemma RemoveUnnamed(h: Heights, links: Links, backs: Backs, links': Links, a: Key, p: Key)
    requires Settled(h, links, backs) && Wired(h, links) && Grounded(h)
    requires a in h && a != HEAD && IsPred(h, a, 0, p)
    requires SameSizes(links, links') && links'[a] == links[a] && Wired(h - {a}, links')
    ensures |links'[a]| > 0 && Unnamed(links', BackedOut(backs, a, links'[a][0]), a)
  {
    RemoveKeepsSettled(h, links, backs, links', a, p);
    assert LinkOk(h, links, a, 0);
    var backs' := BackedOut(backs, a, links'[a][0]);
    forall k | k in backs'
      ensures backs'[k] != Some(a)
    {
      assert k != HEAD ==> LeadsBack(links' - {a}, backs', k);
    }
    forall k, i | k in h - {a} && 0 <= i < |links'[k]|
      ensures links'[k][i] != Some(a)
    {
      assert LinkOk(h - {a}, links', k, i);
    }
  }

  /** The backward write of remove: a's successor leads back to a's predecessor. */
  ghost function BackedOut(backs: Backs, a: Key, n: Option<Key>): Backs
    requires a in backs
  {
    if n.Some? then backs[n.value := backs[a]] - {a} else backs - {a}
  }

  lemma BackedOutInverse(links: Links, backs: Backs, links': Links, a: Key, p: Key)
    requires Inverse(links, backs) && a in links && a != HEAD && p in links && p != a
    requires links'.Keys == links.Keys - {a} && (forall k :: k in links' ==> 1 <= |links'[k]|)
    requires links[p][0] == Some(a) && links'[p][0] == links[a][0] && links[a][0] != Some(a)
    requires forall k :: k in links' && k != p ==> links'[k][0] == links[k][0]
    ensures Inverse(links', BackedOut(backs, a, links[a][0]))
  {
    var n, backs' := links[a][0], BackedOut(backs, a, links[a][0]);
    assert LedBackTo(links, backs, a) && LedBackTo(links, backs, p);
    forall k | k in links'
      ensures LedBackTo(links', backs', k)
    {
      assert LedBackTo(links, backs, k);
    }
    forall k | k in backs' && k != HEAD
      ensures LeadsBack(links', backs', k)
    {
      assert LeadsBack(links, backs, k);
    }
  }

  /** The heights of a settled list determine all its pointers, in both directions: how the list
      came about does not matter. */
  lemma SettledUnique(h: Heights, links: Links, backs: Backs, links': Links, backs': Backs)
    requires Settled(h, links, backs) && Wired(h, links)
    requires Settled(h, links', backs') && Wired(h, links')
    ensures links == links' && backs == backs'
  {
    forall k | k in h
      ensures links[k] == links'[k]
    {
      forall i | 0 <= i < |links[k]|
        ensures links[k][i] == links'[k][i]
      {
        assert LinkOk(h, links, k, i) && LinkOk(h, links', k, i);
        NextUnique(h, k, i, links[k][i], links'[k][i]);
      }
    }
    assert links == links';
    forall k | k in backs
      ensures backs[k] == backs'[k]
    {
      if k != HEAD {
        assert LeadsBack(links, backs, k);
        assert LedBackTo(links, backs', backs[k].value);
      }
    }
  }
}
