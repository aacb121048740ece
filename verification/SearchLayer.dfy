/** The search layer: a skip list over the anchors of the data nodes
    (src/components/search_layer). */
module SearchLayer {
  import opened Keys
  import opened Levels
  import opened DataLayer

  const MAX_LEVEL: nat := 16

  lemma AddThenDrop<V>(m: map<Key, V>, k: Key, v: V)
    requires k !in m
    ensures m[k := v] - {k} == m
  {
  }

  lemma UpdateTwice(h: Heights, k: Key, i: nat, j: nat)
    ensures h[k := i][k := j] == h[k := j]
  {
  }

  class SkipListNode {
    const anchor: Key
    var dataNode: RemoteAddress
    var typ: LinkedNodeType
    var forwards: seq<SkipListNode?>
    var backward: SkipListNode?

    /** A node of the given level that is not linked anywhere. */
    constructor (level: nat, k: Key, r: RemoteAddress, t: LinkedNodeType, b: SkipListNode?)
      requires 1 <= level
      ensures anchor == k && dataNode == r && typ == t && backward == b
      ensures |forwards| == level && forall i :: 0 <= i < level ==> forwards[i] == null
    {
      anchor := k;
      forwards := [null];
      backward := b;
      dataNode := r;
      typ := t;
      new;
      for i := 1 to level
        invariant |forwards| == i && forall j :: 0 <= j < i ==> forwards[j] == null
        invariant backward == b && dataNode == r && typ == t
      {
        forwards := forwards + [null];
      }
    }
  }

  ghost function AnchorOf(n: SkipListNode?): Option<Key> {
    if n == null then None else Some(n.anchor)
  }

  /** The node an anchor names in a list, or no node. */
  ghost function NodeAt(nodes: map<Key, SkipListNode>, a: Option<Key>): SkipListNode? {
    if a.Some? && a.value in nodes then nodes[a.value] else null
  }

  ghost function NodesAt(nodes: map<Key, SkipListNode>, names: seq<Option<Key>>): (r: seq<SkipListNode?>)
    ensures |r| == |names|
  {
    seq(|names|, i requires 0 <= i < |names| => NodeAt(nodes, names[i]))
  }

  lemma NodesAtUpdate(nodes: map<Key, SkipListNode>, names: seq<Option<Key>>, i: nat, a: Option<Key>)
    requires i < |names|
    ensures NodesAt(nodes, names[i := a]) == NodesAt(nodes, names)[i := NodeAt(nodes, a)]
  {
  }

  /** Every anchor named is an anchor of the list. */
  ghost predicate Known(nodes: map<Key, SkipListNode>, names: seq<Option<Key>>, back: Option<Key>) {
    && (forall i :: 0 <= i < |names| && names[i].Some? ==> names[i].value in nodes)
    && (back.Some? ==> back.value in nodes)
  }

  lemma NodesAtGrow(nodes: map<Key, SkipListNode>, names: seq<Option<Key>>, back: Option<Key>,
                    k: Key, n: SkipListNode)
    requires Known(nodes, names, back) && k !in nodes
    ensures NodesAt(nodes[k := n], names) == NodesAt(nodes, names)
    ensures NodeAt(nodes[k := n], back) == NodeAt(nodes, back)
    ensures Known(nodes[k := n], names, back)
  {
  }

  lemma NodesAtShrink(nodes: map<Key, SkipListNode>, names: seq<Option<Key>>, k: Key)
    requires Known(nodes, names, None) && Some(k) !in names
    ensures NodesAt(nodes - {k}, names) == NodesAt(nodes, names) && Known(nodes - {k}, names, None)
  {
    forall i | 0 <= i < |names|
      ensures NodeAt(nodes - {k}, names[i]) == NodeAt(nodes, names[i])
      ensures names[i].Some? ==> names[i].value in nodes - {k}
    {
      assert names[i] in names;
    }
  }

  /** The pointers stored in n lead forward to the nodes named by names and back to the one
      named by back. */
  ghost predicate Stores(nodes: map<Key, SkipListNode>, n: SkipListNode, names: seq<Option<Key>>,
                         back: Option<Key>)
    reads n`forwards, n`backward
  {
    && n.forwards == NodesAt(nodes, names) && n.backward == NodeAt(nodes, back)
    && Known(nodes, names, back)
  }

  /** n is the last node linked at level i before key, in a list of heights h. */
  ghost predicate PredNode(nodes: map<Key, SkipListNode>, h: Heights, n: SkipListNode?, key: Key, i: nat) {
    n != null && n.anchor in nodes && nodes[n.anchor] == n && IsPred(h, key, i, n.anchor)
  }

  /** update holds key's predecessors on levels lo to hi - 1. */
  ghost predicate Preds(nodes: map<Key, SkipListNode>, h: Heights, update: seq<SkipListNode?>,
                        key: Key, lo: nat, hi: nat)
  {
    && |update| == MAX_LEVEL && hi <= MAX_LEVEL
    && (forall j {:trigger PredNode(nodes, h, update[j], key, j)} :: lo <= j < hi ==>
          PredNode(nodes, h, update[j], key, j))
  }

  lemma PredsAt(nodes: map<Key, SkipListNode>, h: Heights, update: seq<SkipListNode?>, key: Key,
                lo: nat, hi: nat, j: nat)
    requires Preds(nodes, h, update, key, lo, hi) && lo <= j < hi
    ensures PredNode(nodes, h, update[j], key, j)
  {
  }

  lemma PredsGrow(nodes: map<Key, SkipListNode>, h: Heights, update: seq<SkipListNode?>, key: Key,
                  lo: nat, hi: nat, n: SkipListNode)
    requires Preds(nodes, h, update, key, lo, hi) && key !in nodes
    ensures Preds(nodes[key := n], h, update, key, lo, hi)
  {
    forall j | lo <= j < hi
      ensures PredNode(nodes[key := n], h, update[j], key, j)
    {
      PredsAt(nodes, h, update, key, lo, hi, j);
    }
  }

  ghost predicate WellShaped(nodes: map<Key, SkipListNode>, head: SkipListNode, h: Heights,
                             links: Links, currentLevel: nat)
  {
    && HEAD in nodes && nodes[HEAD] == head
    && h.Keys == nodes.Keys == links.Keys && h[HEAD] == MAX_LEVEL
    && (forall k {:trigger links[k]} :: k in nodes ==> HEAD <= k && |links[k]| <= MAX_LEVEL)
    && currentLevel <= MAX_LEVEL
    && (forall k {:trigger h[k]} :: k in nodes && k != HEAD ==> h[k] <= currentLevel)
  }

  lemma ShapeWithout(nodes: map<Key, SkipListNode>, head: SkipListNode, h: Heights, links: Links,
                     links': Links, currentLevel: nat, a: Key)
    requires WellShaped(nodes, head, h, links, currentLevel) && a != HEAD && SameSizes(links, links')
    ensures WellShaped(nodes - {a}, head, h - {a}, links' - {a}, currentLevel)
  {
  }

  lemma ShapeWith(nodes: map<Key, SkipListNode>, head: SkipListNode, h: Heights, links: Links,
                  currentLevel: nat, a: Key, n: SkipListNode, names: seq<Option<Key>>)
    requires WellShaped(nodes, head, h, links, currentLevel) && HEAD < a && |names| <= MAX_LEVEL
    ensures WellShaped(nodes[a := n], head, h[a := 0], links[a := names], currentLevel)
  {
  }

  class SkipList {
    var currentLevel: nat
    const head: SkipListNode

    /** The nodes of the list by anchor, the number of levels each is linked on, and the anchors
        its forward and backward pointers lead to. */
    ghost var nodes: map<Key, SkipListNode>
    ghost var heights: Heights
    ghost var links: Links
    ghost var backs: Backs

    ghost predicate InList(n: SkipListNode?)
      reads this`nodes
    {
      n != null && n.anchor in nodes && nodes[n.anchor] == n
    }

    /** Every node stores, under its own anchor, the pointers that links names. */
    ghost predicate Stored()
      reads this, nodes.Values
    {
      && nodes.Keys == links.Keys == backs.Keys
      && (forall k {:trigger nodes[k]} :: k in nodes ==> nodes[k].anchor == k)
      && (forall k {:trigger Stores(nodes, nodes[k], links[k], backs[k])} ::
            k in nodes ==> Stores(nodes, nodes[k], links[k], backs[k]))
    }

    /** The stored pointers are exactly the ones the heights ask for, on every level. */
    ghost predicate Wired()
      reads this, nodes.Values
    {
      && Stored() && WellShaped(nodes, head, heights, links, currentLevel)
      && Levels.Wired(heights, links)
    }

    /** A list between operations: wired, with every node on the bottom level. */
    ghost predicate Valid()
      reads this, nodes.Values
    {
      Wired() && Grounded(heights)
    }

    /** What the list stores, as a map from anchors. */
    ghost function Contents(): map<Key, (RemoteAddress, LinkedNodeType)>
      reads this, nodes.Values
    {
      map k | k in nodes && k != HEAD :: (nodes[k].dataNode, nodes[k].typ)
    }

    constructor ()
      ensures Valid() && Inverse(links, backs) && fresh(head)
      ensures nodes == map[HEAD := head] && heights == map[HEAD := MAX_LEVEL] && currentLevel == 1
      ensures head.typ == TypeHead && Contents() == map[]
    {
      currentLevel := 1;
      head := new SkipListNode(MAX_LEVEL, HEAD, 0, TypeHead, null);
      nodes := map[HEAD := head];
      heights := map[HEAD := MAX_LEVEL];
      links := map[HEAD := seq(MAX_LEVEL, _ => None)];
      backs := map[HEAD := None];
    }

    lemma StoredAt(k: Key)
      requires Stored() && k in nodes
      ensures nodes[k].anchor == k && Stores(nodes, nodes[k], links[k], backs[k])
    {
    }

    /** The walk along one level that every operation starts with: from walker to the last node
        before key. */
    method Advance(walker: SkipListNode, i: nat, key: Key) returns (w: SkipListNode)
      requires Wired() && InList(walker) && i < heights[walker.anchor] && walker.anchor < key
      ensures PredNode(nodes, heights, w, key, i)
    {
      w := walker;
      assert Stores(nodes, w, links[w.anchor], backs[w.anchor]) && LinkOk(heights, links, w.anchor, i);
      while w.forwards[i] != null && w.forwards[i].anchor < key
        invariant InList(w) && i < heights[w.anchor] && w.anchor < key
        invariant Stores(nodes, w, links[w.anchor], backs[w.anchor])
        invariant LinkOk(heights, links, w.anchor, i)
        decreases key - w.anchor
      {
        w := w.forwards[i];
        assert Stores(nodes, w, links[w.anchor], backs[w.anchor]) && LinkOk(heights, links, w.anchor, i);
      }
      PredFromNext(heights, key, i, w.anchor, links[w.anchor][i]);
    }

    /** The two pointer writes that put node behind pred at level i. */
    method Relink(node: SkipListNode, pred: SkipListNode, i: nat)
      requires Stored() && InList(node) && InList(pred)
      requires i < |links[node.anchor]| && i < |links[pred.anchor]|
      modifies node`forwards, pred`forwards, this`links
      ensures Stored() && links == LinkedIn(old(links), node.anchor, pred.anchor, i)
    {
      hide IsNext;
      assert Stores(nodes, node, links[node.anchor], backs[node.anchor]);
      assert Stores(nodes, pred, links[pred.anchor], backs[pred.anchor]);
      ghost var a, p := node.anchor, pred.anchor;
      NodesAtUpdate(nodes, links[a], i, links[p][i]);
      NodesAtUpdate(nodes, links[p], i, Some(a));
      node.forwards := node.forwards[i := pred.forwards[i]];
      pred.forwards := pred.forwards[i := node];
      links := LinkedIn(links, node.anchor, pred.anchor, i);
    }

    /** One level of linking, as in the last loop of insert and of calibrate. */
    method LinkAt(node: SkipListNode, pred: SkipListNode, i: nat)
      requires Wired() && InList(node) && node != head && heights[node.anchor] == i
      requires i < |links[node.anchor]| && i < currentLevel
      requires PredNode(nodes, heights, pred, node.anchor, i)
      modifies node`forwards, pred`forwards, this`heights, this`links
      ensures Wired() && heights == old(heights)[node.anchor := i + 1]
      ensures links == LinkedIn(old(links), node.anchor, pred.anchor, i)
    {
      LinkStep(heights, links, node.anchor, pred.anchor, i);
      assert i < |links[pred.anchor]|;
      hide Stores, IsNext, IsPred, Levels.Wired;
      Relink(node, pred, i);
      heights := heights[node.anchor := i + 1];
    }

    /** The descent of insert, remove, calibrate and the searches: level by level from the top
        down to bottom, remembering the last node before key on each. */
    method Descend(key: Key, bottom: nat) returns (walker: SkipListNode, update: seq<SkipListNode?>)
      requires Wired() && HEAD < key && bottom < MAX_LEVEL
      ensures Preds(nodes, heights, update, key, bottom, currentLevel)
      ensures PredNode(nodes, heights, walker, key, bottom)
    {
      update := seq(MAX_LEVEL, _ => null);
      walker := head;
      var i := currentLevel;
      while bottom < i
        invariant bottom <= i || i == currentLevel
        invariant i <= currentLevel
        invariant i < currentLevel ==> PredNode(nodes, heights, walker, key, i)
        invariant i == currentLevel ==> walker == head
        invariant Preds(nodes, heights, update, key, i, currentLevel)
      {
        i := i - 1;
        walker := Advance(walker, i, key);
        update := update[i := walker];
      }
    }

    /** A node that is on no level yet becomes part of the list. */
    ghost method Join(node: SkipListNode, names: seq<Option<Key>>, back: Option<Key>)
      requires Stored() && node.anchor !in nodes && node !in nodes.Values
      requires Stores(nodes, node, names, back) && forall i :: 0 <= i < |names| ==> names[i] == None
      modifies this`nodes, this`heights, this`links, this`backs
      ensures Stored() && nodes == old(nodes)[node.anchor := node]
      ensures heights == old(heights)[node.anchor := 0] && links == old(links)[node.anchor := names]
      ensures backs == old(backs)[node.anchor := back]
    {
      ghost var a := node.anchor;
      nodes, heights := nodes[a := node], heights[a := 0];
      links, backs := links[a := names], backs[a := back];
      forall k | k in nodes
        ensures Stores(nodes, nodes[k], links[k], backs[k])
      {
        assert k != a ==> old(Stores(nodes, nodes[k], links[k], backs[k]));
        NodesAtGrow(old(nodes), links[k], backs[k], a, node);
      }
    }

    /** A fresh node in the list, on no level yet. */
    method NewNode(anchor: Key, r: RemoteAddress, t: LinkedNodeType, level: nat, b: SkipListNode?)
      returns (node: SkipListNode)
      requires Wired() && HEAD < anchor && anchor !in nodes && 1 <= level <= MAX_LEVEL
      requires b == null || InList(b)
      modifies this`nodes, this`heights, this`links, this`backs
      ensures Wired() && fresh(node) && nodes == old(nodes)[anchor := node]
      ensures node.anchor == anchor && node.dataNode == r && node.typ == t && |node.forwards| == level
      ensures heights == old(heights)[anchor := 0] && backs == old(backs)[anchor := AnchorOf(b)]
      ensures links == old(links)[anchor := seq(level, _ => None)]
    {
      node := new SkipListNode(level, anchor, r, t, b);
      ghost var names := seq(level, _ => None);
      AddUnlinked(heights, links, anchor, names);
      ShapeWith(nodes, head, heights, links, currentLevel, anchor, node, names);
      Join(node, names, AnchorOf(b));
    }

    /** One round of the loop below. */
    method LinkNext(node: SkipListNode, pred: SkipListNode?, i: nat, ghost h: Heights)
      requires Wired() && InList(node) && node != head && heights == h[node.anchor := i]
      requires PredNode(nodes, h, pred, node.anchor, i) && i < |links[node.anchor]| && i < currentLevel
      modifies node`forwards, pred`forwards, this`heights, this`links
      ensures Wired() && heights == h[node.anchor := i + 1] && SameSizes(old(links), links)
    {
      hide Stores;
      PredIgnoresSelf(h, node.anchor, i, pred.anchor, i);
      UpdateTwice(h, node.anchor, i, i + 1);
      LinkAt(node, pred, i);
    }

    /** The last loop of insert (from 0) and of calibrate (from 1).  h gives the heights update was
        computed for; they may differ from the present ones in node's own height. */
    method LinkLevels(node: SkipListNode, update: seq<SkipListNode?>, from: nat, level: nat,
                      ghost h: Heights)
      requires Wired() && InList(node) && node != head && heights[node.anchor] == from <= level
      requires heights == h[node.anchor := from] && Preds(nodes, h, update, node.anchor, from, level)
      requires level <= |links[node.anchor]| && level <= currentLevel
      modifies nodes.Values`forwards, this`heights, this`links
      ensures Wired() && heights == h[node.anchor := level] && SameSizes(old(links), links)
    {
      assert node.anchor in links;
      hide Wired, IsPred;
      for i := from to level
        invariant Wired() && heights == h[node.anchor := i]
        invariant SameSizes(old(links), links)
      {
        PredsAt(nodes, h, update, node.anchor, from, level, i);
        LinkNext(node, update[i], i, h);
      }
    }

    /** The first half of insert (bottom 0) and of calibrate (bottom 1): the predecessors of key on
        the levels a node of this level needs.  Levels above the current top have no node but the
        head, and become part of the list. */
    method FindPlace(key: Key, bottom: nat, level: nat) returns (update: seq<SkipListNode?>)
      requires Wired() && HEAD < key && bottom < MAX_LEVEL && level <= MAX_LEVEL
      modifies this`currentLevel
      ensures Wired() && Preds(nodes, heights, update, key, bottom, level)
      ensures currentLevel == if level > old(currentLevel) then level else old(currentLevel)
    {
      var walker;
      walker, update := Descend(key, bottom);
      if level > currentLevel {
        for i := currentLevel to level
          invariant Preds(nodes, heights, update, key, bottom, i)
        {
          update := update[i := head];
        }
        currentLevel := level;
      }
    }

    /** The last lines of insert: the links back. */
    method LinkBack(node: SkipListNode, pred: SkipListNode)
      requires Stored() && InList(node) && InList(pred) && 1 <= |links[node.anchor]|
      modifies nodes.Values`backward, this`backs
      ensures Stored()
      ensures backs == BackedIn(old(backs), node.anchor, pred.anchor, links[node.anchor][0])
    {
      ghost var n := links[node.anchor][0];
      assert Stores(nodes, node, links[node.anchor], backs[node.anchor]);
      if n.Some? {
        StoredAt(n.value);
      }
      node.backward := pred;
      if node.forwards[0] != null {
        node.forwards[0].backward := node;
      }
      backs := BackedIn(backs, node.anchor, pred.anchor, n);
    }

    /** The forward writes of insert; pred is the node it goes behind on the bottom level. */
    method LinkForward(anchor: Key, r: RemoteAddress, t: LinkedNodeType, level: nat)
      returns (node: SkipListNode, pred: SkipListNode)
      requires Wired() && HEAD < anchor && anchor !in nodes && 1 <= level <= MAX_LEVEL
      modifies this, nodes.Values`forwards
      ensures Wired() && heights == old(heights)[anchor := level]
      ensures currentLevel == if level > old(currentLevel) then level else old(currentLevel)
      ensures fresh(node) && nodes == old(nodes)[anchor := node]
      ensures node.anchor == anchor && node.dataNode == r && node.typ == t
      ensures backs == old(backs)[anchor := None]
      ensures SameSizes(old(links)[anchor := seq(level, _ => None)], links)
      ensures InList(pred) && IsPred(old(heights), anchor, 0, pred.anchor)
    {
      hide Wired, IsPred, Preds, SameSizes;
      var update := FindPlace(anchor, 0, level);
      ghost var h := heights;
      PredsAt(nodes, h, update, anchor, 0, level, 0);
      pred := update[0];
      node := NewNode(anchor, r, t, level, null);
      PredsGrow(old(nodes), h, update, anchor, 0, level, node);
      LinkLevels(node, update, 0, level, h);
    }

    /** All the writes of insert. */
    method Place(anchor: Key, r: RemoteAddress, t: LinkedNodeType, level: nat)
      returns (node: SkipListNode, ghost pred: Key)
      requires Wired() && HEAD < anchor && anchor !in nodes && 1 <= level <= MAX_LEVEL
      modifies this, nodes.Values`forwards, nodes.Values`backward
      ensures Wired() && heights == old(heights)[anchor := level]
      ensures currentLevel == if level > old(currentLevel) then level else old(currentLevel)
      ensures fresh(node) && nodes == old(nodes)[anchor := node]
      ensures node.anchor == anchor && node.dataNode == r && node.typ == t
      ensures backs == BackedIn(old(backs)[anchor := None], anchor, pred, links[anchor][0])
      ensures SameSizes(old(links)[anchor := seq(level, _ => None)], links)
      ensures IsPred(old(heights), anchor, 0, pred)
    {
      hide IsNext, IsPred, WellShaped, Levels.Wired, Stores;
      var p;
      node, p := LinkForward(anchor, r, t, level);
      pred := p.anchor;
      assert WellShaped(nodes, head, heights, links, currentLevel);
      LinkBack(node, p);
      assert WellShaped(nodes, head, heights, links, currentLevel) && Levels.Wired(heights, links);
    }

    method InsertNode(anchor: Key, r: RemoteAddress, t: LinkedNodeType, level: nat) returns (node: SkipListNode)
      requires Valid() && HEAD < anchor && anchor !in nodes && 1 <= level <= MAX_LEVEL
      modifies this, nodes.Values`forwards, nodes.Values`backward
      ensures Valid() && heights == old(heights)[anchor := level]
      ensures currentLevel == if level > old(currentLevel) then level else old(currentLevel)
      ensures fresh(node) && nodes == old(nodes)[anchor := node] && node.dataNode == r && node.typ == t
      ensures SameSizes(old(links)[anchor := seq(level, _ => None)], links)
      ensures old(Settled(heights, links, backs)) ==> Settled(heights, links, backs)
    {
      ghost var h, links0, backs0, pred := heights, links, backs, HEAD;
      node, pred := Place(anchor, r, t, level);
      GroundedUpdate(h, anchor, level);
      if Settled(h, links0, backs0) {
        InsertKeepsSettled(h, links0, backs0, heights, links, anchor, level, pred);
      }
    }

    /** A node goes in behind its predecessors on its lowest `level` levels; level is the outcome
        of random_level. */
    method Insert(anchor: Key, r: RemoteAddress, t: LinkedNodeType, level: nat) returns (ok: bool)
      requires Valid() && HEAD < anchor && anchor !in nodes && 1 <= level <= MAX_LEVEL
      modifies this, nodes.Values`forwards, nodes.Values`backward
      ensures ok && Valid() && heights == old(heights)[anchor := level]
      ensures currentLevel == if level > old(currentLevel) then level else old(currentLevel)
      ensures anchor in nodes && fresh(nodes[anchor]) && nodes == old(nodes)[anchor := nodes[anchor]]
      ensures Contents() == old(Contents())[anchor := (r, t)]
      ensures SameSizes(old(links)[anchor := seq(level, _ => None)], links)
      ensures old(Settled(heights, links, backs)) ==> Settled(heights, links, backs)
    {
      hide Levels.Wired, Grounded, WellShaped, SameSizes, Stores, Settled;
      var node := InsertNode(anchor, r, t, level);
      ok := true;
    }

    lemma BottomPlace(d: SkipListNode, anchor: Key)
      requires Valid() && InList(d) && d != head && d.anchor < anchor
      requires links[d.anchor][0].Some? ==> anchor < links[d.anchor][0].value
      ensures anchor !in nodes && HEAD < anchor && 0 < currentLevel && nodes.Keys == links.Keys && 0 < |links[d.anchor]|
      ensures IsPred(heights[anchor := 0], anchor, 0, d.anchor) && Grounded(heights[anchor := 0][anchor := 1])
    {
      BottomPred(heights, links, d.anchor, anchor);
    }

    /** All the writes of async_update's link step. */
    method PlaceBottom(d: SkipListNode, anchor: Key, r: RemoteAddress, t: LinkedNodeType, level: nat)
      returns (node: SkipListNode)
      requires Valid() && InList(d) && d != head && d.anchor < anchor && 1 <= level <= MAX_LEVEL
      requires links[d.anchor][0].Some? ==> anchor < links[d.anchor][0].value
      modifies this`nodes, this`heights, this`links, this`backs, d`forwards
      ensures Valid() && heights == old(heights)[anchor := 1]
      ensures fresh(node) && nodes == old(nodes)[anchor := node]
      ensures node.anchor == anchor && node.dataNode == r && node.typ == t
      ensures SameSizes(old(links)[anchor := seq(level, _ => None)], links)
      ensures backs == old(backs)[anchor := Some(d.anchor)]
    {
      hide IsPred, IsNext, Stores, WellShaped, Grounded, Levels.Wired, Wired;
      ghost var h := heights;
      BottomPlace(d, anchor);
      UpdateTwice(h, anchor, 0, 1);
      node := NewNode(anchor, r, t, level, d);
      LinkAt(node, d, 0);
    }

    /** async_update: the right half of a split node d is linked behind d on the bottom level only,
        and d's old successor keeps its backward pointer. */
    method LinkBottom(d: SkipListNode, anchor: Key, r: RemoteAddress, t: LinkedNodeType, level: nat)
      returns (node: SkipListNode)
      requires Valid() && InList(d) && d != head && d.anchor < anchor && 1 <= level <= MAX_LEVEL
      requires links[d.anchor][0].Some? ==> anchor < links[d.anchor][0].value
      modifies this`nodes, this`heights, this`links, this`backs, d`forwards
      ensures Valid() && heights == old(heights)[anchor := 1]
      ensures fresh(node) && nodes == old(nodes)[anchor := node]
      ensures node.anchor == anchor && node.dataNode == r && node.typ == t
      ensures SameSizes(old(links)[anchor := seq(level, _ => None)], links)
      ensures backs == old(backs)[anchor := Some(d.anchor)]
      ensures Contents() == old(Contents())[anchor := (r, t)]
    {
      BottomPlace(d, anchor);
      hide Valid, SameSizes, IsPred, Grounded;
      node := PlaceBottom(d, anchor, r, t, level);
    }

    /** A data node moves to another place in remote memory, or changes its type. */
    method Retarget(node: SkipListNode, r: RemoteAddress, t: LinkedNodeType)
      requires Valid() && InList(node) && node != head
      modifies node`dataNode, node`typ
      ensures Valid() && Contents() == old(Contents())[node.anchor := (r, t)]
    {
      node.dataNode := r;
      node.typ := t;
    }

    /** fake_head: the head gets a remote pointer as well. */
    method FakeHead(r: RemoteAddress)
      requires Valid()
      modifies head`dataNode
      ensures Valid() && Contents() == old(Contents()) && head.dataNode == r
    {
      head.dataNode := r;
    }

    /** All the writes of calibrate. */
    method Raise(node: SkipListNode, level: nat)
      requires Valid() && InList(node) && node != head && heights[node.anchor] == 1
      requires 1 <= level <= |links[node.anchor]|
      modifies this`currentLevel, this`heights, this`links, nodes.Values`forwards
      ensures Valid() && heights == old(heights)[node.anchor := level]
      ensures currentLevel == if level > old(currentLevel) then level else old(currentLevel)
      ensures SameSizes(old(links), links)
    {
      hide IsNext, IsPred, Stores;
      ghost var h := heights;
      GroundedUpdate(h, node.anchor, level);
      var update := FindPlace(node.anchor, 1, level);
      LinkLevels(node, update, 1, level, h);
    }

    /** calibrate: the upper levels of a node that async_update linked at the bottom. */
    method Calibrate(node: SkipListNode, level: nat)
      requires Valid() && InList(node) && node != head && heights[node.anchor] == 1
      requires 1 <= level <= |links[node.anchor]|
      modifies this`currentLevel, this`heights, this`links, nodes.Values`forwards
      ensures Valid() && heights == old(heights)[node.anchor := level]
      ensures currentLevel == if level > old(currentLevel) then level else old(currentLevel)
      ensures SameSizes(old(links), links) && Contents() == old(Contents())
      ensures forall k :: k in nodes ==> links[k][0] == old(links)[k][0]
    {
      hide Stores, Levels.Wired, Grounded;
      ghost var h, links0 := heights, links;
      Raise(node, level);
      RaiseKeepsBottom(h, links0, heights, links, node.anchor, level);
    }

    /** The node stored under an anchor, if any. */
    method SearchNode(anchor: Key) returns (node: SkipListNode?)
      requires Valid() && HEAD < anchor
      ensures node == NodeAt(nodes, Some(anchor))
      ensures node != null <==> anchor in Contents()
      ensures node != null ==> Contents()[anchor] == (node.dataNode, node.typ)
    {
      var walker, update := Descend(anchor, 0);
      assert Stores(nodes, walker, links[walker.anchor], backs[walker.anchor]);
      assert LinkOk(heights, links, walker.anchor, 0);
      if walker.forwards[0] == null {
        return null;
      }
      if walker.forwards[0].anchor == anchor {
        return walker.forwards[0];
      }
      return null;
    }

    method Update(anchor: Key, r: RemoteAddress, t: LinkedNodeType) returns (ok: bool)
      requires Valid() && HEAD < anchor
      modifies nodes.Values`dataNode, nodes.Values`typ
      ensures Valid() && ok == (anchor in nodes)
      ensures Contents() == if ok then old(Contents())[anchor := (r, t)] else old(Contents())
    {
      var node := SearchNode(anchor);
      if node == null {
        return false;
      }
      node.dataNode := r;
      node.typ := t;
      return true;
    }

    /** The node with the greatest anchor at most member, the head if there is none: fuzzy_search
        never gives up on a list at rest. */
    method FuzzySearch(member: Key) returns (node: SkipListNode?)
      requires Valid() && HEAD < member
      ensures InList(node) && node.anchor <= member
      ensures forall k :: k in nodes && k <= member ==> k <= node.anchor
    {
      var walker, update := Descend(member, 0);
      assert Stores(nodes, walker, links[walker.anchor], backs[walker.anchor]);
      assert LinkOk(heights, links, walker.anchor, 0);
      if walker.forwards[0] != null && walker.forwards[0].anchor == member {
        return walker.forwards[0];
      }
      if walker.forwards[0] == null || (walker.forwards[0].anchor > member && walker.anchor <= member) {
        return walker;
      }
      return null;
    }

    /** One level of unlinking. */
    method DropAt(target: SkipListNode, pred: SkipListNode, i: nat)
      requires Stored() && InList(target) && InList(pred) && target != pred
      requires i < |links[target.anchor]| && i < |links[pred.anchor]|
      modifies pred`forwards, this`links
      ensures Stored()
      ensures links == old(links)[pred.anchor := old(links)[pred.anchor][i := old(links)[target.anchor][i]]]
    {
      ghost var a, p := target.anchor, pred.anchor;
      StoredAt(a);
      StoredAt(p);
      NodesAtUpdate(nodes, links[p], i, links[a][i]);
      pred.forwards := pred.forwards[i := target.forwards[i]];
      links := links[p := links[p][i := links[a][i]]];
    }

    /** The pointer that remove inspects on level i leads to target exactly if target is on it. */
    lemma PointsAt(target: SkipListNode, pred: SkipListNode, i: nat)
      requires Stored() && InList(target) && InList(pred) && i < |links[pred.anchor]|
      ensures i < |pred.forwards|
      ensures pred.forwards[i] == target <==> links[pred.anchor][i] == Some(target.anchor)
    {
      StoredAt(pred.anchor);
      var n := links[pred.anchor][i];
      assert pred.forwards[i] == NodeAt(nodes, n);
      if n.Some? {
        StoredAt(n.value);
      }
    }

    /** One round of the unlinking loop of remove, on a level where target is linked. */
    method DropLevel(target: SkipListNode, pred: SkipListNode, i: nat, ghost h: Heights, ghost links0: Links)
      requires Stored() && InList(target) && InList(pred) && target != pred
      requires Levels.Wired(h, links0) && SameSizes(links0, links) && links[target.anchor] == links0[target.anchor]
      requires target.anchor in h && i < h[target.anchor] && IsPred(h, target.anchor, i, pred.anchor)
      requires pred.anchor in links
      requires Dropping(h, links, target.anchor, i)
      modifies pred`forwards, this`links
      ensures Stored() && Dropping(h, links, target.anchor, i + 1)
      ensures SameSizes(links0, links) && links[target.anchor] == links0[target.anchor]
    {
      hide Stores;
      assert LinkOk(h, links0, target.anchor, i);
      DropStep(h, links, target.anchor, pred.anchor, i);
      hide Dropping, IsPred;
      DropAt(target, pred, i);
    }

    /** The unlinking loop of remove. */
    method DropLevels(target: SkipListNode, update: seq<SkipListNode?>)
      requires Wired() && InList(target) && target != head
      requires Preds(nodes, heights, update, target.anchor, 0, currentLevel)
      modifies nodes.Values`forwards, this`links
      ensures Stored() && SameSizes(old(links), links) && links[target.anchor] == old(links)[target.anchor]
      ensures Levels.Wired(heights - {target.anchor}, links)
    {
      hide Stores;
      ghost var a, h := target.anchor, heights;
      var i := 0;
      DropStart(h, links, a);
      while i < currentLevel
        invariant i <= currentLevel && Stored() && Dropping(h, links, a, i)
        invariant SameSizes(old(links), links) && links[a] == old(links)[a]
      {
        PredsAt(nodes, h, update, a, 0, currentLevel, i);
        DropPointer(h, links, a, i, update[i].anchor);
        PointsAt(target, update[i], i);
        if update[i].forwards[i] != target {
          break;
        }
        DropLevel(target, update[i], i, h, old(links));
        i := i + 1;
      }
      DropDone(h, links, a, i);
    }

    /** The last write of remove: target's successor leads back past target. */
    method SkipBack(target: SkipListNode)
      requires Stored() && InList(target) && 1 <= |links[target.anchor]|
      requires links[target.anchor][0] != Some(target.anchor)
      modifies this`backs, nodes.Values`backward
      ensures Stored()
      ensures backs == BackedOut(old(backs), target.anchor,
              links[target.anchor][0])[target.anchor := old(backs)[target.anchor]]
    {
      ghost var a, n := target.anchor, links[target.anchor][0];
      StoredAt(a);
      if n.Some? {
        StoredAt(n.value);
      }
      if target.forwards[0] != null {
        target.forwards[0].backward := target.backward;
      }
      backs := BackedOut(backs, a, n)[a := backs[a]];
    }

    /** A node that nothing names leaves the list. */
    ghost method Forget(a: Key)
      requires Stored() && a in nodes && Unnamed(links, backs - {a}, a)
      modifies this`nodes, this`heights, this`links, this`backs
      ensures Stored() && nodes == old(nodes) - {a}
      ensures heights == old(heights) - {a} && links == old(links) - {a} && backs == old(backs) - {a}
    {
      nodes, heights := nodes - {a}, heights - {a};
      backs, links := backs - {a}, links - {a};
      forall k | k in nodes
        ensures Stores(nodes, nodes[k], links[k], backs[k])
      {
        assert old(Stores(nodes, nodes[k], links[k], backs[k]));
        NodesAtShrink(old(nodes), links[k], a);
      }
    }

    /** The rest of remove's writes. */
    method Detach(target: SkipListNode)
      requires Stored() && InList(target) && 1 <= |links[target.anchor]|
      requires Unnamed(links, BackedOut(backs, target.anchor, links[target.anchor][0]), target.anchor)
      modifies this`nodes, this`heights, this`links, this`backs, nodes.Values`backward
      ensures Stored() && nodes == old(nodes) - {target.anchor}
      ensures heights == old(heights) - {target.anchor} && links == old(links) - {target.anchor}
      ensures backs == BackedOut(old(backs), target.anchor, old(links)[target.anchor][0])
    {
      ghost var a, backs' := target.anchor, BackedOut(backs, target.anchor, links[target.anchor][0]);
      SkipBack(target);
      assert backs - {a} == backs';
      Forget(a);
    }

    /** The last loop of remove. */
    method LowerTop()
      requires Valid()
      modifies this`currentLevel
      ensures Valid() && currentLevel <= old(currentLevel)
      ensures currentLevel > 0 ==> links[HEAD][currentLevel - 1].Some?
    {
      hide Grounded;
      StoredAt(HEAD);
      while currentLevel > 0 && head.forwards[currentLevel - 1] == null
        invariant Valid() && currentLevel <= old(currentLevel)
      {
        assert LinkOk(heights, links, HEAD, currentLevel - 1);
        currentLevel := currentLevel - 1;
      }
    }

    /** The first half of remove: the node of an anchor with its predecessors, or no node. */
    method FindTarget(anchor: Key) returns (target: SkipListNode?, update: seq<SkipListNode?>, ghost pred: Key)
      requires Valid() && HEAD < anchor
      requires exists k :: k in nodes && anchor <= k
      ensures target == NodeAt(nodes, Some(anchor)) && (target != null <==> anchor in nodes)
      ensures target != null ==>
              InList(target) && target != head && target.anchor == anchor &&
              IsPred(heights, anchor, 0, pred)
      ensures Preds(nodes, heights, update, anchor, 0, currentLevel) && heights.Keys == nodes.Keys
    {
      var walker;
      walker, update := Descend(anchor, 0);
      pred := walker.anchor;
      StoredAt(walker.anchor);
      assert LinkOk(heights, links, walker.anchor, 0);
      target := if walker.forwards[0].anchor != anchor then null else walker.forwards[0];
    }

    /** The node of an anchor leaves the list.  Some anchor has to be at or above the key, because
        the source reads the successor without a test. */
    method Remove(anchor: Key) returns (ok: bool)
      requires Valid() && Settled(heights, links, backs) && HEAD < anchor
      requires exists k :: k in nodes && anchor <= k
      modifies this, nodes.Values`forwards, nodes.Values`backward
      ensures Valid() && Settled(heights, links, backs) && ok == (anchor in old(nodes))
      ensures nodes == old(nodes) - {anchor} && heights == old(heights) - {anchor}
      ensures Contents() == old(Contents()) - {anchor}
      ensures ok && currentLevel > 0 ==> links[HEAD][currentLevel - 1].Some?
      ensures !ok ==> currentLevel == old(currentLevel) && links == old(links) && backs == old(backs)
    {
      hide Inverse, SameSizes, IsNext, IsPred, Settled, Grounded, Wired, Valid, Preds;
      var target, update;
      ghost var pred;
      target, update, pred := FindTarget(anchor);
      if target == null {
        return false;
      }
      RemoveFound(target, pred, update);
      return true;
    }

    method RemoveFound(target: SkipListNode, ghost pred: Key, update: seq<SkipListNode?>)
      requires Valid() && Settled(heights, links, backs) && InList(target) && target != head
      requires IsPred(heights, target.anchor, 0, pred)
      requires Preds(nodes, heights, update, target.anchor, 0, currentLevel)
      modifies this, nodes.Values`forwards, nodes.Values`backward
      ensures Valid() && Settled(heights, links, backs)
      ensures nodes == old(nodes) - {target.anchor} && heights == old(heights) - {target.anchor}
      ensures currentLevel > 0 ==> links[HEAD][currentLevel - 1].Some?
    {
      hide IsNext, IsPred, Settled, Inverse;
      RemoveNode(target, pred, update);
      LowerTop();
    }

    /** The writes of remove; links1 are the pointers just before target leaves the list. */
    method Unlink(target: SkipListNode, ghost pred: Key, update: seq<SkipListNode?>)
      returns (ghost links1: Links)
      requires Valid() && Settled(heights, links, backs) && InList(target) && target != head
      requires IsPred(heights, target.anchor, 0, pred)
      requires Preds(nodes, heights, update, target.anchor, 0, currentLevel)
      modifies this`nodes, this`heights, this`links, this`backs
      modifies nodes.Values`forwards, nodes.Values`backward
      ensures Stored() && SameSizes(old(links), links1) && Levels.Wired(heights, links1)
      ensures links1[target.anchor] == old(links)[target.anchor] && links == links1 - {target.anchor}
      ensures nodes == old(nodes) - {target.anchor} && heights == old(heights) - {target.anchor}
      ensures backs == BackedOut(old(backs), target.anchor, old(links)[target.anchor][0])
    {
      DropLevels(target, update);
      links1 := links;
      RemoveUnnamed(heights, old(links), backs, links, target.anchor, pred);
      Detach(target);
    }

    method RemoveNode(target: SkipListNode, ghost pred: Key, update: seq<SkipListNode?>)
      requires Valid() && Settled(heights, links, backs) && InList(target) && target != head
      requires IsPred(heights, target.anchor, 0, pred)
      requires Preds(nodes, heights, update, target.anchor, 0, currentLevel)
      modifies this`nodes, this`heights, this`links, this`backs
      modifies nodes.Values`forwards, nodes.Values`backward
      ensures Valid() && Settled(heights, links, backs)
      ensures nodes == old(nodes) - {target.anchor} && heights == old(heights) - {target.anchor}
    {
      ghost var nodes0, h0, links0, backs0 := nodes, heights, links, backs;
      ghost var links1 := Unlink(target, pred, update);
      RemoveKeepsSettled(h0, links0, backs0, links1, target.anchor, pred);
      ShapeWithout(nodes0, head, h0, links0, links1, currentLevel, target.anchor);
    }

    /** Removing an anchor right after inserting it puts every pointer back. */
    method InsertThenRemove(anchor: Key, r: RemoteAddress, t: LinkedNodeType, level: nat)
      requires Valid() && Settled(heights, links, backs)
      requires HEAD < anchor && anchor !in nodes && 1 <= level <= MAX_LEVEL
      modifies this, nodes.Values`forwards, nodes.Values`backward
      ensures Valid() && nodes == old(nodes)
      ensures forall k :: k in nodes ==>
                nodes[k].forwards == old(nodes[k].forwards) && nodes[k].backward == old(nodes[k].backward)
    {
      var inserted := Insert(anchor, r, t, level);
      ghost var n := nodes[anchor];
      var removed := Remove(anchor);
      AddThenDrop(old(heights), anchor, level);
      AddThenDrop(old(nodes), anchor, n);
      SettledUnique(heights, links, backs, old(links), old(backs));
      forall k | k in nodes
        ensures nodes[k].forwards == old(nodes[k].forwards) && nodes[k].backward == old(nodes[k].backward)
      {
        StoredAt(k);
        assert old(Stores(nodes, nodes[k], links[k], backs[k]));
      }
    }
  }
}
