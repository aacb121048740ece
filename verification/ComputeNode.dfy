/** A compute node in sequential use: skip list, remote data nodes and local stage together are one
    insert-if-absent map (put, get, async_update and the calibration thread,
    src/components/node/compute_node). */
module ComputeNodes {
  import opened Keys
  import opened DataLayer
  import opened Split
  import opened PutPaths
  import opened Placement
  import opened LocalStage
  import Levels
  import opened SearchLayer

  // ---------------------------------------------------------------- remote memory

  /** A data node as it lies in remote memory: its header and as many record slots as were written. */
  datatype Image = Image(typ: LinkedNodeType, fingerprints: seq<Byte>, pairs: seq<KV>, next: nat)

  function Recs(im: Image): seq<KV>
    requires im.next <= |im.pairs|
  {
    im.pairs[..im.next]
  }

  /** A data node every record of which has a slot of its own. */
  ghost predicate ImageOk(finger: Key -> Byte, im: Image) {
    && im.typ in {Type10, Type12, Type14, Type16}
    && |im.fingerprints| == 16 && im.next <= |im.pairs| <= Capacity(im.typ)
    && (forall i {:trigger im.pairs[i]} :: 0 <= i < im.next ==> im.fingerprints[i] == finger(im.pairs[i].key))
    && Distinct(Recs(im))
  }

  /** The address of the placeholder that the head of the skip list is given. */
  const PLACEHOLDER: RemoteAddress := 1

  /** What a read of a node of 16 from there brings: a placeholder nobody gives a content, and the
      bytes behind it. */
  datatype Placeholder = Placeholder(crc: nat, fingerprints: seq<Byte>, pairs: seq<KV>, next: nat)

  /** The placeholder as it would be in zeroed memory. */
  function Zeroed(): Placeholder {
    Placeholder(0, seq(16, _ => 0), seq(16, _ => KV(EMPTY, 0)), 0)
  }

  predicate Whole(p: Placeholder) {
    |p.fingerprints| == 16 && |p.pairs| == 16
  }

  /** Slot i of what was read answers a lookup, if no earlier one does. */
  predicate Shows(finger: Key -> Byte, p: Placeholder, key: Key, i: nat)
    requires Whole(p) && i < 16
  {
    i < p.next && p.fingerprints[i] == finger(key) && p.pairs[i].key == key
  }

  /** No slot answers. */
  ghost predicate ShowsNothing(finger: Key -> Byte, p: Placeholder, key: Key)
    requires Whole(p)
  {
    forall i {:trigger Shows(finger, p, key, i)} :: 0 <= i < 16 ==> !Shows(finger, p, key, i)
  }

  /** Where the skip list says each data node is. */
  type Locations = map<Key, (RemoteAddress, LinkedNodeType)>

  ghost predicate At(finger: Key -> Byte, loc: Locations, remote: map<RemoteAddress, Image>, placed: Placed, a: Key)
    requires a in loc && a in placed
  {
    var (p, t) := loc[a];
    p in remote && remote[p].typ == t && ImageOk(finger, remote[p]) && Recs(remote[p]) == placed[a]
  }

  /** Index and data agree: every anchor leads to an image of the type the index gives, which holds
      the records placed there; no two anchors share an image. */
  ghost predicate Located(finger: Key -> Byte, loc: Locations, remote: map<RemoteAddress, Image>, placed: Placed,
                          next: nat) {
    && loc.Keys == placed.Keys
    && (forall a {:trigger At(finger, loc, remote, placed, a)} :: a in placed ==> At(finger, loc, remote, placed, a))
    && (forall a, b {:trigger loc[a], loc[b]} :: a in loc && b in loc && a != b ==> loc[a].0 != loc[b].0)
    && PLACEHOLDER < next && (forall p {:trigger remote[p]} :: p in remote ==> PLACEHOLDER < p < next)
  }

  lemma NothingLocated(finger: Key -> Byte)
    ensures Located(finger, map[], map[], map[], PLACEHOLDER + 1)
  {
  }

  /** A data node is written back in place. */
  lemma LocatedRewrite(finger: Key -> Byte, loc: Locations, remote: map<RemoteAddress, Image>, placed: Placed,
                       next: nat, a: Key, im: Image)
    requires Located(finger, loc, remote, placed, next) && a in placed && ImageOk(finger, im) && im.typ == loc[a].1
    ensures Located(finger, loc, remote[loc[a].0 := im], placed[a := Recs(im)], next)
  {
    var remote', placed' := remote[loc[a].0 := im], placed[a := Recs(im)];
    assert At(finger, loc, remote, placed, a);
    forall b | b in placed'
      ensures At(finger, loc, remote', placed', b)
    {
      assert At(finger, loc, remote, placed, b);
    }
  }

  /** A data node is written to a new place; a may be a new anchor. */
  lemma LocatedMove(finger: Key -> Byte, loc: Locations, remote: map<RemoteAddress, Image>, placed: Placed, next: nat,
                    a: Key, p: RemoteAddress, im: Image)
    requires Located(finger, loc, remote, placed, next) && ImageOk(finger, im) && p >= next
    ensures Located(finger, loc[a := (p, im.typ)], remote[p := im], placed[a := Recs(im)], p + 1)
  {
    var loc', remote', placed' := loc[a := (p, im.typ)], remote[p := im], placed[a := Recs(im)];
    forall b | b in placed'
      ensures At(finger, loc', remote', placed', b)
    {
      if b != a {
        assert At(finger, loc, remote, placed, b);
      }
    }
    forall b, c | b in loc' && c in loc' && b != c
      ensures loc'[b].0 != loc'[c].0
    {
      assert b != a ==> At(finger, loc, remote, placed, b);
      assert c != a ==> At(finger, loc, remote, placed, c);
    }
  }

  /** An image that no anchor leads to. */
  ghost predicate Loose(loc: Locations, remote: map<RemoteAddress, Image>, p: RemoteAddress) {
    p in remote && forall a {:trigger loc[a]} :: a in loc ==> loc[a].0 != p
  }

  lemma LocatedLoose(finger: Key -> Byte, loc: Locations, remote: map<RemoteAddress, Image>, placed: Placed, next: nat,
                     p: RemoteAddress, im: Image)
    requires Located(finger, loc, remote, placed, next) && p >= next
    ensures Located(finger, loc, remote[p := im], placed, p + 1) && Loose(loc, remote[p := im], p)
  {
    forall b | b in placed
      ensures At(finger, loc, remote[p := im], placed, b) && loc[b].0 != p
    {
      assert At(finger, loc, remote, placed, b);
    }
  }

  /** A new anchor is led to an image that is already there. */
  lemma LocatedLink(finger: Key -> Byte, loc: Locations, remote: map<RemoteAddress, Image>, placed: Placed, next: nat,
                    a: Key, p: RemoteAddress)
    requires Located(finger, loc, remote, placed, next) && Loose(loc, remote, p) && ImageOk(finger, remote[p])
    requires a !in placed
    ensures Located(finger, loc[a := (p, remote[p].typ)], remote, placed[a := Recs(remote[p])], next)
  {
    var loc', placed' := loc[a := (p, remote[p].typ)], placed[a := Recs(remote[p])];
    forall b | b in placed'
      ensures At(finger, loc', remote, placed', b)
    {
      if b != a {
        assert At(finger, loc, remote, placed, b);
      }
    }
  }

  // ---------------------------------------------------------------- calibration requests

  datatype CalibrateContext = CalibrateContext(newNode: SkipListNode, level: nat)

  ghost predicate Calibratable(c: CalibrateContext, nodes: map<Key, SkipListNode>, heights: Levels.Heights,
                               links: Levels.Links) {
    var a := c.newNode.anchor;
    && a in nodes && nodes[a] == c.newNode && a != HEAD
    && a in heights && heights[a] == 1 && a in links && 1 <= c.level == |links[a]|
  }

  /** Every request is for a node that is linked at the bottom only, and no two for the same one. */
  ghost predicate QueueOk(queue: seq<CalibrateContext>, nodes: map<Key, SkipListNode>, heights: Levels.Heights,
                          links: Levels.Links) {
    && (forall i {:trigger queue[i]} :: 0 <= i < |queue| ==> Calibratable(queue[i], nodes, heights, links))
    && (forall i, j {:trigger queue[i], queue[j]} :: 0 <= i < j < |queue| ==>
        queue[i].newNode.anchor != queue[j].newNode.anchor)
  }

  /** The list gets a node that the queue does not speak of. */
  lemma QueueKept(queue: seq<CalibrateContext>, nodes: map<Key, SkipListNode>, heights: Levels.Heights,
                  links: Levels.Links, nodes': map<Key, SkipListNode>, heights': Levels.Heights, links': Levels.Links,
                  a: Key, level: nat, names: seq<Option<Key>>)
    requires QueueOk(queue, nodes, heights, links) && a !in nodes && a in nodes' && nodes' == nodes[a := nodes'[a]]
    requires heights' == heights[a := level] && Levels.SameSizes(links[a := names], links')
    ensures QueueOk(queue, nodes', heights', links')
    ensures forall i {:trigger queue[i]} :: 0 <= i < |queue| ==> queue[i].newNode.anchor != a
  {
    forall i | 0 <= i < |queue|
      ensures Calibratable(queue[i], nodes', heights', links') && queue[i].newNode.anchor != a
    {
      assert Calibratable(queue[i], nodes, heights, links);
      var b := queue[i].newNode.anchor;
      assert links[a := names][b] == links[b];
    }
  }

  /** The queue has a request for the node of anchor a. */
  ghost predicate Requested(queue: seq<CalibrateContext>, a: Key) {
    exists i {:trigger queue[i]} :: 0 <= i < |queue| && queue[i].newNode.anchor == a
  }

  /** Every node that is not on all its levels waits for calibration; one may be excepted. */
  ghost predicate Awaited(queue: seq<CalibrateContext>, heights: Levels.Heights, links: Levels.Links,
                          except: Option<Key>) {
    forall a {:trigger heights[a]} :: a in heights && a in links && Some(a) != except && heights[a] < |links[a]| ==>
      Requested(queue, a)
  }

  /** A new node is the only one that has no request yet, if it needs one. */
  lemma AwaitedLinked(queue: seq<CalibrateContext>, heights: Levels.Heights, links: Levels.Links,
                      links': Levels.Links, a: Key, height: nat, level: nat)
    requires Awaited(queue, heights, links, None) && heights.Keys == links.Keys && a !in heights
    requires Levels.SameSizes(links[a := seq(level, _ => None)], links')
    ensures Awaited(queue, heights[a := height], links', if height < level then Some(a) else None)
  {
    var heights' := heights[a := height];
    forall b | b in heights' && b in links' && b != a && heights'[b] < |links'[b]|
      ensures Requested(queue, b)
    {
      assert |links'[b]| == |links[a := seq(level, _ => None)][b]| == |links[b]|;
      assert heights[b] < |links[b]|;
    }
    assert |links'[a]| == level;
  }

  lemma AwaitedPushed(queue: seq<CalibrateContext>, c: CalibrateContext, heights: Levels.Heights, links: Levels.Links)
    requires Awaited(queue, heights, links, Some(c.newNode.anchor))
    ensures Awaited(queue + [c], heights, links, None)
  {
    assert (queue + [c])[|queue|] == c;
    forall a | a in heights && a in links && heights[a] < |links[a]|
      ensures Requested(queue + [c], a)
    {
      if a != c.newNode.anchor {
        assert Requested(queue, a);
        var i :| 0 <= i < |queue| && queue[i].newNode.anchor == a;
        assert (queue + [c])[i] == queue[i];
      }
    }
  }

  /** The request at the front brings its node to all its levels. */
  lemma AwaitedPopped(queue: seq<CalibrateContext>, nodes: map<Key, SkipListNode>, heights: Levels.Heights,
                      links: Levels.Links, links': Levels.Links)
    requires queue != [] && QueueOk(queue, nodes, heights, links) && Levels.SameSizes(links, links')
    requires Awaited(queue, heights, links, None)
    ensures Awaited(queue[1..], heights[queue[0].newNode.anchor := queue[0].level], links', None)
  {
    var c := queue[0];
    var heights' := heights[c.newNode.anchor := c.level];
    assert Calibratable(c, nodes, heights, links);
    forall a | a in heights' && a in links' && heights'[a] < |links'[a]|
      ensures Requested(queue[1..], a)
    {
      assert |links'[a]| == |links[a]| && a != c.newNode.anchor && heights[a] < |links[a]|;
      assert Requested(queue, a);
      var i :| 0 <= i < |queue| && queue[i].newNode.anchor == a;
      assert queue[1..][i - 1] == queue[i];
    }
  }

  lemma QueuePushed(queue: seq<CalibrateContext>, c: CalibrateContext, nodes: map<Key, SkipListNode>,
                    heights: Levels.Heights, links: Levels.Links)
    requires QueueOk(queue, nodes, heights, links) && Calibratable(c, nodes, heights, links)
    requires forall i {:trigger queue[i]} :: 0 <= i < |queue| ==> queue[i].newNode.anchor != c.newNode.anchor
    ensures QueueOk(queue + [c], nodes, heights, links)
  {
  }

  lemma QueuePopped(queue: seq<CalibrateContext>, nodes: map<Key, SkipListNode>, heights: Levels.Heights,
                    links: Levels.Links, links': Levels.Links)
    requires queue != [] && QueueOk(queue, nodes, heights, links) && Levels.SameSizes(links, links')
    ensures QueueOk(queue[1..], nodes, heights[queue[0].newNode.anchor := queue[0].level], links')
  {
    var heights' := heights[queue[0].newNode.anchor := queue[0].level];
    forall i | 0 <= i < |queue[1..]|
      ensures Calibratable(queue[1..][i], nodes, heights', links')
    {
      assert Calibratable(queue[i + 1], nodes, heights, links);
      assert queue[0].newNode.anchor != queue[i + 1].newNode.anchor;
    }
  }

  // ---------------------------------------------------------------- the node

  /** What a put comes to: the source throws when no anchor is at or below the key. */
  datatype PutResult = Stored | Refused

  /** What a get comes to.  A key below every anchor leads to the head, and so to the placeholder: the
      get may go on retrying over a checksum that is not zero, or look for the key past the sixteen
      records it has read. */
  datatype GetResult = Answer(value: Option<Value>) | Retrying | Overrun

  /** How find goes on in a placeholder whose checksum is accepted. */
  ghost predicate Glimpsed(finger: Key -> Byte, p: Placeholder, key: Key, r: GetResult)
    requires Whole(p)
  {
    && (r == Answer(None) <==> ShowsNothing(finger, p, key) && p.next <= 16)
    && (r == Overrun <==> ShowsNothing(finger, p, key) && p.next > 16)
    && (r.Answer? && r.value.Some? ==>
          exists i {:trigger Shows(finger, p, key, i)} :: 0 <= i < 16 && Shows(finger, p, key, i) &&
            r.value.value == p.pairs[i].value && forall j :: 0 <= j < i ==> !Shows(finger, p, key, j))
    && r != Retrying
  }

  /** What that means, record by record: the first one that answers is the answer, and if none does, it
      depends on whether the sixteen records read are all there are. */
  lemma GlimpsedMeans(finger: Key -> Byte, p: Placeholder, key: Key, r: GetResult)
    requires Whole(p) && Glimpsed(finger, p, key, r)
    ensures p.next <= 16 ==>
              (r == Answer(None) <==>
                forall i {:trigger p.pairs[i]} :: 0 <= i < p.next ==>
                  p.fingerprints[i] != finger(key) || p.pairs[i].key != key)
    ensures p.next > 16 ==>
              (r == Overrun <==>
                forall i {:trigger p.pairs[i]} :: 0 <= i < 16 ==>
                  p.fingerprints[i] != finger(key) || p.pairs[i].key != key)
  {
    if ShowsNothing(finger, p, key) {
      forall i | 0 <= i < 16 && i < p.next
        ensures p.fingerprints[i] != finger(key) || p.pairs[i].key != key
      {
        assert !Shows(finger, p, key, i);
      }
    } else {
      var i :| 0 <= i < 16 && Shows(finger, p, key, i);
      assert p.pairs[i].key == key;
    }
  }

  lemma FirstAnswers(finger: Key -> Byte, p: Placeholder, key: Key, r: GetResult, i: nat)
    requires Whole(p) && Glimpsed(finger, p, key, r) && i < 16 && i < p.next
    requires p.fingerprints[i] == finger(key) && p.pairs[i].key == key
    requires forall j :: 0 <= j < i ==> p.fingerprints[j] != finger(key) || p.pairs[j].key != key
    ensures r == Answer(Some(p.pairs[i].value))
  {
    assert Shows(finger, p, key, i) && !ShowsNothing(finger, p, key);
    assert r.Answer? && r.value.Some?;
    var first :| 0 <= first < 16 && Shows(finger, p, key, first) && r.value.value == p.pairs[first].value &&
      forall j :: 0 <= j < first ==> !Shows(finger, p, key, j);
    assert first == i;
  }

  /** The first read with an accepted checksum, or the number of reads. */
  function FirstAccepted(seen: seq<Placeholder>): (n: nat)
    ensures n <= |seen| && (n < |seen| ==> seen[n].crc == 0)
    ensures forall i :: 0 <= i < n ==> seen[i].crc != 0
  {
    if seen == [] || seen[0].crc == 0 then 0 else 1 + FirstAccepted(seen[1..])
  }

  function ImageOf(node: LinkedNode, slots: nat): (im: Image)
    requires slots <= node.pairs.Length && 16 <= node.fingerprints.Length
    reads node, node.fingerprints, node.pairs
  {
    Image(node.typ, node.fingerprints[..16], node.pairs[..slots], node.next)
  }

  /** A buffer whose records fit the slots that are written becomes a sound image. */
  lemma ImageFits(node: LinkedNode, slots: nat)
    requires node.Valid() && node.typ in {Type10, Type12, Type14, Type16}
    requires node.next <= slots <= Capacity(node.typ) && slots <= node.pairs.Length && 16 <= node.fingerprints.Length
    ensures ImageOk(node.finger, ImageOf(node, slots)) && Recs(ImageOf(node, slots)) == node.Records()
  {
    assert Recs(ImageOf(node, slots)) == node.Records();
  }

  /** The requests of losers that a put meets: those that wait while it serves, those that slip in just
      before it counts what is pending, and those that come after the count. */
  datatype Batch = Batch(waiting: seq<KV>, slipped: seq<KV>, late: seq<KV>) {
    function All(): seq<KV> {
      waiting + slipped + late
    }
  }

  const NOBODY := Batch([], [], [])

  /** A put for which a split has no slots, or for which it finds the node's own anchor as the only
      key. */
  ghost predicate Troubled(t: LinkedNodeType, anchor: Key, recs: seq<KV>, kv: KV, batch: Batch) {
    var counted := Counted(anchor, recs, Capacity(t), kv, batch.waiting) + |batch.slipped|;
    var wanted := Wanted(anchor, recs, kv, batch.All());
    LacksSlots(t, counted, wanted) || (Splits(t, counted) && wanted == 1 && kv.key == anchor)
  }

  lemma DealtLate(batch: seq<KV>, rest: seq<KV>, replies: seq<Reply>, served: seq<KV>, late: seq<KV>)
    requires Dealt(batch, rest, replies, served)
    ensures Dealt(batch + late, rest + late, replies, served)
  {
    forall a | InRange(batch + late, a)
      ensures served == Kept(replies, a)
    {
      InRangePrefix(batch, late, a);
    }
  }

  lemma InRangePrefix(batch: seq<KV>, more: seq<KV>, a: Key)
    requires InRange(batch + more, a)
    ensures InRange(batch, a)
  {
    forall i | 0 <= i < |batch|
      ensures a <= batch[i].key
    {
      assert (batch + more)[i] == batch[i];
    }
  }

  /** What became of a batch of requests: none is lost, and served holds, in the order they were
      answered, the records of those that were granted. */
  ghost predicate Dealt(batch: seq<KV>, rest: seq<KV>, replies: seq<Reply>, served: seq<KV>) {
    && AllAsked(batch, rest, replies) && multiset(served) <= multiset(Asked(replies))
    && (forall a {:trigger InRange(batch, a)} :: InRange(batch, a) ==> served == Kept(replies, a))
  }

  ghost predicate AllGranted(batch: seq<KV>, rest: seq<KV>, replies: seq<Reply>, served: seq<KV>) {
    && rest == [] && multiset(served) == multiset(batch)
    && (forall i {:trigger replies[i]} :: 0 <= i < |replies| ==> replies[i].succeed)
  }

  lemma DealtSubset(batch: seq<KV>, rest: seq<KV>, replies: seq<Reply>, served: seq<KV>)
    requires Dealt(batch, rest, replies, served)
    ensures multiset(served) <= multiset(batch)
  {
  }

  lemma {:induction false} KeptSubset(replies: seq<Reply>, anchor: Key)
    ensures multiset(Kept(replies, anchor)) <= multiset(Asked(replies))
  {
    if replies != [] {
      KeptSubset(replies[..|replies| - 1], anchor);
    }
  }

  lemma DealtKept(batch: seq<KV>, rest: seq<KV>, replies: seq<Reply>, anchor: Key)
    requires AllAsked(batch, rest, replies) && InRange(batch, anchor)
    ensures Dealt(batch, rest, replies, Kept(replies, anchor)) && multiset(Kept(replies, anchor)) <= multiset(batch)
  {
    KeptSubset(replies, anchor);
    forall a | InRange(batch, a)
      ensures Kept(replies, anchor) == Kept(replies, a)
    {
      AskedInRange(batch, rest, replies, anchor);
      AskedInRange(batch, rest, replies, a);
      KeptAnyAnchor(replies, anchor, a);
    }
  }

  lemma AskedInRange(batch: seq<KV>, rest: seq<KV>, replies: seq<Reply>, a: Key)
    requires AllAsked(batch, rest, replies) && InRange(batch, a)
    ensures InRange(Asked(replies), a)
  {
    forall i | 0 <= i < |Asked(replies)|
      ensures a <= Asked(replies)[i].key
    {
      assert Asked(replies)[i] in multiset(batch);
    }
  }

  /** The skip list of a new compute node. */
  method EmptyIndex() returns (list: SkipList)
    ensures fresh(list) && fresh(list.nodes.Values)
    ensures list.Valid() && list.head.typ == TypeHead && list.head.dataNode == PLACEHOLDER && list.Contents() == map[]
    ensures Awaited([], list.heights, list.links, None)
  {
    list := new SkipList();
    list.FakeHead(PLACEHOLDER);
  }

  class ComputeNode {
    const finger: Key -> Byte
    const slist: SkipList
    const local: LocalNodes
    const buffer: ThreadBuffer
    var remotePut: bool
    var remote: map<RemoteAddress, Image>
    var nextFree: RemoteAddress
    var updateQueue: seq<CalibrateContext>

    /** What the skip list stores, the records of each remote data node by anchor, and the map the
        store promises to be. */
    ghost var loc: Locations
    ghost var placed: Placed
    ghost var contents: map<Key, Value>

    /** The search layer, the buffer and the queue are sound, and every node that is not on all its
        levels is in the queue, but for one that may be about to get there. */
    ghost predicate MachineBut(except: Option<Key>)
      reads this`updateQueue, this`loc, slist, slist.nodes.Values, buffer.Repr()
    {
      && slist.Valid() && slist.head.typ == TypeHead && slist.Contents() == loc
      && slist.head.dataNode == PLACEHOLDER
      && buffer.Valid() && buffer.node.finger == finger
      && QueueOk(updateQueue, slist.nodes, slist.heights, slist.links)
      && Awaited(updateQueue, slist.heights, slist.links, except)
    }

    ghost predicate Machine()
      reads this`updateQueue, this`loc, slist, slist.nodes.Values, buffer.Repr()
    {
      MachineBut(None)
    }

    ghost predicate ReadyBut(except: Option<Key>)
      reads this, slist, slist.nodes.Values, buffer.Repr()
    {
      MachineBut(except) && PLACEHOLDER < nextFree && Located(finger, loc, remote, placed, nextFree)
    }

    ghost predicate Ready()
      reads this, slist, slist.nodes.Values, buffer.Repr()
    {
      ReadyBut(None)
    }

    /** No key of the store has fingerprint zero (morph_node counts fingerprints). */
    ghost predicate Fingered()
      reads this
    {
      forall k {:trigger k in contents} :: k in contents ==> finger(k) != 0
    }

    /** The store once it is remote. */
    ghost predicate Serving()
      reads this, slist, slist.nodes.Values, buffer.Repr()
    {
      remotePut && Ready() && Fingered() && Represents(placed, contents)
    }

    ghost predicate Valid()
      reads this, slist, slist.nodes.Values, buffer.Repr(), local.Repr()
    {
      if remotePut then Serving()
      else
        && Ready() && Fingered() && placed == map[]
        && local.Valid(contents) && local.first.finger == finger && local.Repr() !! buffer.Repr()
    }

    /** The node the list gives for a key is the one responsible for it. */
    lemma FoundOwns(n: SkipListNode, key: Key)
      requires Ready() && slist.InList(n) && n.anchor <= key && n != slist.head
      requires forall k :: k in slist.nodes && k <= key ==> k <= n.anchor
      ensures n.anchor in placed && Owns(placed.Keys, n.anchor, key)
      ensures At(finger, loc, remote, placed, n.anchor)
    {
      assert n.anchor in loc;
      forall b | b in placed && b <= key
        ensures b <= n.anchor
      {
        assert b in loc;
      }
    }

    /** A read of a data node into the buffer. */
    method Fetch(im: Image)
      requires buffer.Valid() && buffer.node.finger == finger && ImageOk(finger, im)
      modifies buffer.node, buffer.node.fingerprints, buffer.node.pairs
      ensures buffer.Valid() && buffer.node.Records() == Recs(im) && buffer.node.typ == im.typ
    {
      var node := buffer.node;
      forall i | 0 <= i < 16 {
        node.fingerprints[i] := im.fingerprints[i];
      }
      forall i | 0 <= i < |im.pairs| {
        node.pairs[i] := im.pairs[i];
      }
      node.next := im.next;
      node.typ := im.typ;
      assert node.Records() == Recs(im);
    }

    method Repoint(n: SkipListNode, r: RemoteAddress, t: LinkedNodeType)
      requires Machine() && slist.InList(n) && n != slist.head
      modifies n`dataNode, n`typ, this`loc
      ensures Machine() && loc == old(loc)[n.anchor := (r, t)]
    {
      slist.Retarget(n, r, t);
      loc := loc[n.anchor := (r, t)];
    }

    method Allocate() returns (p: RemoteAddress)
      requires Machine()
      modifies this`nextFree
      ensures Machine() && p == old(nextFree) && nextFree == p + 1
    {
      p := nextFree;
      nextFree := nextFree + 1;
    }

    /** A write of an image to remote memory. */
    method Write(p: RemoteAddress, im: Image, ghost placed': Placed)
      requires Machine()
      modifies this`remote, this`placed
      ensures Machine() && remote == old(remote)[p := im] && placed == placed'
    {
      remote := remote[p := im];
      placed := placed';
    }

    /** A put that found room: the buffer goes back to where it came from. */
    method WriteBackCurrent(n: SkipListNode, ghost all: seq<KV>)
      requires Ready() && slist.InList(n) && n != slist.head && n.anchor in placed
      requires buffer.node.typ == n.typ && n.typ in {Type10, Type12, Type14, Type16}
      requires buffer.node.Records() == all && |all| <= Capacity(n.typ)
      modifies this`remote, this`placed
      ensures slist.nodes == old(slist.nodes)
      ensures Ready() && placed == old(placed)[n.anchor := all]
    {
      hide QueueOk, SkipList.Valid;
      ImageFits(buffer.node, Capacity(n.typ));
      var im := ImageOf(buffer.node, Capacity(n.typ));
      LocatedRewrite(finger, loc, remote, placed, nextFree, n.anchor, im);
      Write(n.dataNode, im, placed[n.anchor := all]);
    }

    /** A morphed node is written to a place of its new size. */
    method WriteBackMorphed(n: SkipListNode, ghost all: seq<KV>)
      requires Ready() && slist.InList(n) && n != slist.head && n.anchor in placed
      requires buffer.node.typ in {Type10, Type12, Type14, Type16}
      requires buffer.node.Records() == all && |all| <= Capacity(buffer.node.typ)
      modifies this`loc, this`remote, this`placed, this`nextFree, n`dataNode, n`typ
      ensures slist.nodes == old(slist.nodes)
      ensures Ready() && placed == old(placed)[n.anchor := all]
    {
      hide Located, QueueOk, SkipList.Valid;
      ImageFits(buffer.node, Capacity(buffer.node.typ));
      var im := ImageOf(buffer.node, Capacity(buffer.node.typ));
      LocatedMove(finger, loc, remote, placed, nextFree, n.anchor, nextFree, im);
      var r := Allocate();
      Write(r, im, placed[n.anchor := all]);
      Repoint(n, r, im.typ);
    }

    /** Both halves of a split are written to new places, and the anchor is led to the left one. */
    method WriteBackSplitted(n: SkipListNode, rightSlots: nat) returns (r: RemoteAddress)
      requires Ready() && slist.InList(n) && n != slist.head && n.anchor in placed
      requires buffer.node.typ in {Type10, Type12, Type14, Type16} &&
               buffer.right.typ in {Type10, Type12, Type14, Type16}
      requires buffer.node.next <= Capacity(buffer.node.typ) &&
               buffer.right.next <= rightSlots <= Capacity(buffer.right.typ)
      modifies this`loc, this`remote, this`placed, this`nextFree, n`dataNode, n`typ
      ensures Ready() && placed == old(placed)[n.anchor := buffer.node.Records()]
      ensures Loose(loc, remote, r) && ImageOk(finger, remote[r])
      ensures Recs(remote[r]) == buffer.right.Records() && remote[r].typ == buffer.right.typ
    {
      hide Located, QueueOk, SkipList.Valid;
      ImageFits(buffer.node, Capacity(buffer.node.typ));
      ImageFits(buffer.right, rightSlots);
      var left, right := ImageOf(buffer.node, Capacity(buffer.node.typ)), ImageOf(buffer.right, rightSlots);
      var l;
      l, r := WriteTwo(n.anchor, left, right);
      Repoint(n, l, left.typ);
    }

    /** Both halves are written before the anchor is led to the left one. */
    method WriteTwo(ghost a: Key, left: Image, right: Image) returns (l: RemoteAddress, r: RemoteAddress)
      requires Ready() && a in placed && ImageOk(finger, left) && ImageOk(finger, right)
      modifies this`remote, this`placed, this`nextFree
      ensures Machine() && PLACEHOLDER < nextFree && placed == old(placed)[a := Recs(left)]
      ensures Located(finger, loc[a := (l, left.typ)], remote, placed, nextFree)
      ensures Loose(loc[a := (l, left.typ)], remote, r) && remote[r] == right
    {
      hide Located, QueueOk, SkipList.Valid;
      SplitLocated(a, left, right);
      l := Allocate();
      r := Allocate();
      Write(l, left, placed);
      Write(r, right, placed[a := Recs(left)]);
    }

    lemma SplitLocated(a: Key, left: Image, right: Image)
      requires Ready() && a in placed && ImageOk(finger, left) && ImageOk(finger, right)
      ensures var (l, r) := (nextFree, nextFree + 1);
              var (loc', remote') := (loc[a := (l, left.typ)], remote[l := left][r := right]);
              Located(finger, loc', remote', placed[a := Recs(left)], r + 1) && Loose(loc', remote', r)
    {
      var l, r := nextFree, nextFree + 1;
      LocatedMove(finger, loc, remote, placed, l, a, l, left);
      LocatedLoose(finger, loc[a := (l, left.typ)], remote[l := left], placed[a := Recs(left)], r, r, right);
    }

    /** The right half gets a node on the bottom level. */
    method LinkRight(n: SkipListNode, anchor: Key, r: RemoteAddress, t: LinkedNodeType, level: nat,
                     ghost placed': Placed)
      returns (node: SkipListNode)
      requires Machine() && slist.InList(n) && n != slist.head && n.anchor < anchor && 1 <= level <= MAX_LEVEL
      requires slist.links[n.anchor][0].Some? ==> anchor < slist.links[n.anchor][0].value
      requires anchor !in slist.nodes
      modifies this`loc, this`placed, slist`nodes, slist`heights, slist`links, slist`backs, n`forwards
      ensures MachineBut(if level == 1 then None else Some(anchor))
      ensures loc == old(loc)[anchor := (r, t)] && placed == placed'
      ensures remote == old(remote) && nextFree == old(nextFree)
      ensures fresh(node) && slist.nodes == old(slist.nodes)[anchor := node]
      ensures Calibratable(CalibrateContext(node, level), slist.nodes, slist.heights, slist.links) &&
              node.anchor == anchor
      ensures forall i {:trigger updateQueue[i]} :: 0 <= i < |updateQueue| ==> updateQueue[i].newNode.anchor != anchor
      ensures anchor in slist.links && |slist.links[anchor]| == level &&
              slist.heights == old(slist.heights)[anchor := 1]
      ensures slist.links.Keys == old(slist.links).Keys + {anchor}
    {
      hide QueueOk, SkipList.Valid, Calibratable, Awaited;
      node := LinkNode(n, anchor, r, t, level);
      loc, placed := loc[anchor := (r, t)], placed';
    }

    method LinkNode(n: SkipListNode, anchor: Key, r: RemoteAddress, t: LinkedNodeType, level: nat)
      returns (node: SkipListNode)
      requires Machine() && slist.InList(n) && n != slist.head && n.anchor < anchor && 1 <= level <= MAX_LEVEL
      requires slist.links[n.anchor][0].Some? ==> anchor < slist.links[n.anchor][0].value
      requires anchor !in slist.nodes
      modifies slist`nodes, slist`heights, slist`links, slist`backs, n`forwards
      ensures slist.Valid() && slist.head.typ == TypeHead && slist.Contents() == loc[anchor := (r, t)]
      ensures QueueOk(updateQueue, slist.nodes, slist.heights, slist.links)
      ensures Awaited(updateQueue, slist.heights, slist.links, if level == 1 then None else Some(anchor))
      ensures fresh(node) && slist.nodes == old(slist.nodes)[anchor := node]
      ensures Calibratable(CalibrateContext(node, level), slist.nodes, slist.heights, slist.links) &&
              node.anchor == anchor
      ensures forall i {:trigger updateQueue[i]} :: 0 <= i < |updateQueue| ==> updateQueue[i].newNode.anchor != anchor
      ensures anchor in slist.links && |slist.links[anchor]| == level &&
              slist.heights == old(slist.heights)[anchor := 1]
      ensures slist.links.Keys == old(slist.links).Keys + {anchor}
    {
      hide QueueOk, Awaited;
      ghost var nodes0, heights0, links0 := slist.nodes, slist.heights, slist.links;
      node := slist.LinkBottom(n, anchor, r, t, level);
      QueueKept(updateQueue, nodes0, heights0, links0, slist.nodes, slist.heights, slist.links, anchor, 1,
          seq(level, _ => None));
      AwaitedLinked(updateQueue, heights0, links0, slist.links, anchor, 1, level);
    }

    method Enqueue(c: CalibrateContext)
      requires ReadyBut(Some(c.newNode.anchor)) && Calibratable(c, slist.nodes, slist.heights, slist.links)
      requires forall i {:trigger updateQueue[i]} :: 0 <= i < |updateQueue| ==>
               updateQueue[i].newNode.anchor != c.newNode.anchor
      modifies this`updateQueue
      ensures Ready() && updateQueue == old(updateQueue) + [c]
    {
      hide Located, SkipList.Valid, Awaited;
      QueuePushed(updateQueue, c, slist.nodes, slist.heights, slist.links);
      AwaitedPushed(updateQueue, c, slist.heights, slist.links);
      updateQueue := updateQueue + [c];
    }

    lemma NotLocated(a: Key)
      requires Ready() && a !in slist.nodes
      ensures a !in loc && a !in placed
    {
    }

    /** The new node in the list, and its records in the books. */
    method LinkLocated(n: SkipListNode, anchor: Key, r: RemoteAddress, level: nat) returns (node: SkipListNode)
      requires Ready() && slist.InList(n) && n != slist.head && n.anchor < anchor && 1 <= level <= MAX_LEVEL
      requires slist.links[n.anchor][0].Some? ==> anchor < slist.links[n.anchor][0].value
      requires anchor !in slist.nodes && Loose(loc, remote, r) && ImageOk(finger, remote[r])
      modifies this`loc, this`placed, slist`nodes, slist`heights, slist`links, slist`backs, n`forwards
      ensures ReadyBut(if level == 1 then None else Some(anchor)) && placed == old(placed)[anchor := Recs(remote[r])]
      ensures fresh(node) && slist.nodes == old(slist.nodes)[anchor := node] && node.anchor == anchor
      ensures Calibratable(CalibrateContext(node, level), slist.nodes, slist.heights, slist.links)
      ensures forall i {:trigger updateQueue[i]} :: 0 <= i < |updateQueue| ==> updateQueue[i].newNode.anchor != anchor
      ensures anchor in slist.links && |slist.links[anchor]| == level &&
              slist.heights == old(slist.heights)[anchor := 1]
      ensures slist.links.Keys == old(slist.links).Keys + {anchor}
    {
      NotLocated(anchor);
      LocatedLink(finger, loc, remote, placed, nextFree, anchor, r);
      hide MachineBut, Located, ImageOk, Loose, Calibratable;
      node := LinkRight(n, anchor, r, remote[r].typ, level, placed[anchor := Recs(remote[r])]);
    }

    /** async_update: a node of more than one level also gets a request for the others in the queue. */
    method AsyncUpdate(n: SkipListNode, anchor: Key, r: RemoteAddress, level: nat)
      requires Ready() && slist.InList(n) && n != slist.head && n.anchor < anchor && 1 <= level <= MAX_LEVEL
      requires slist.links[n.anchor][0].Some? ==> anchor < slist.links[n.anchor][0].value
      requires anchor !in slist.nodes && Loose(loc, remote, r) && ImageOk(finger, remote[r])
      modifies this`loc, this`placed, this`updateQueue
      modifies slist`nodes, slist`heights, slist`links, slist`backs, n`forwards
      ensures Ready() && placed == old(placed)[anchor := Recs(remote[r])]
      ensures anchor in slist.nodes && fresh(slist.nodes[anchor]) &&
              slist.nodes == old(slist.nodes)[anchor := slist.nodes[anchor]]
      ensures updateQueue == if level == 1 then old(updateQueue)
              else old(updateQueue) + [CalibrateContext(slist.nodes[anchor], level)]
      ensures anchor in slist.links && |slist.links[anchor]| == level &&
              slist.heights == old(slist.heights)[anchor := 1]
      ensures slist.links.Keys == old(slist.links).Keys + {anchor}
    {
      hide ReadyBut, ImageOk, Loose, Calibratable;
      var node := LinkLocated(n, anchor, r, level);
      if level == 1 {
        return;
      }
      Enqueue(CalibrateContext(node, level));
    }

    /** A node without a record, in the local stage. */
    lemma StartsValid()
      requires slist.Valid() && slist.head.typ == TypeHead && slist.Contents() == map[]
      requires slist.head.dataNode == PLACEHOLDER
      requires buffer.Valid() && buffer.node.finger == finger
      requires Awaited([], slist.heights, slist.links, None)
      requires !remotePut && remote == map[] && nextFree == PLACEHOLDER + 1 && updateQueue == []
      requires loc == map[] && placed == map[] && contents == map[]
      requires local.Valid(map[]) && local.first.finger == finger && local.Repr() !! buffer.Repr()
      ensures Valid()
    {
      hide LocalNodes.Valid, ThreadBuffer.Valid, SkipList.Valid;
      NothingLocated(finger);
    }

    constructor (finger: Key -> Byte)
      ensures Valid() && contents == map[] && !remotePut && this.finger == finger
      ensures fresh(slist) && fresh(slist.nodes.Values) && fresh(buffer.Repr()) && fresh(local.Repr())
    {
      hide LocalNodes.Valid, ThreadBuffer.Valid, SkipList.Valid, Valid;
      this.finger := finger;
      var b := new ThreadBuffer(finger);
      var l := new LocalNodes(finger);
      assert l.Repr() !! b.Repr();
      local, buffer := l, b;
      var list := EmptyIndex();
      slist := list;
      remotePut, remote, nextFree, updateQueue := false, map[], PLACEHOLDER + 1, [];
      loc, placed, contents := map[], map[], map[];
      new;
      StartsValid();
    }

    ghost predicate AllFingered(recs: seq<KV>) {
      forall i {:trigger recs[i]} :: 0 <= i < |recs| ==> finger(recs[i].key) != 0
    }

    lemma StillFingered(recs: seq<KV>, kvs: seq<KV>, all: seq<KV>)
      requires AllFingered(recs) && AllFingered(kvs) && Contents(all) == PutAll(Contents(recs), kvs)
      ensures AllFingered(all)
    {
      forall i | 0 <= i < |all|
        ensures finger(all[i].key) != 0
      {
        var k := all[i].key;
        ContentsHas(all, k);
        PutAllKeys(Contents(recs), kvs, k);
        ContentsHas(recs, k);
      }
    }

    lemma SameFingered(kvs: seq<KV>, kvs': seq<KV>)
      requires AllFingered(kvs) && multiset(kvs') <= multiset(kvs)
      ensures AllFingered(kvs')
    {
      forall i | 0 <= i < |kvs'|
        ensures finger(kvs'[i].key) != 0
      {
        assert kvs'[i] in multiset(kvs);
      }
    }

    /** What a put makes of a node and of a batch of its range: no record has fingerprint zero, and
        with room for everything all is granted. */
    lemma AllServed(anchor: Key, kv: KV, batch: seq<KV>, rest: seq<KV>, replies: seq<Reply>, predCap: nat,
                    pred: seq<KV>, pred': seq<KV>, recs: seq<KV>, all: seq<KV>, cap: nat, refuses: bool)
      requires Made(anchor, kv, batch, rest, replies, predCap, pred, pred', recs, all, cap, refuses)
      requires InRange(batch, anchor)
      requires AllFingered(recs) && AllFingered([kv]) && AllFingered(batch) && Distinct(recs)
      ensures Distinct(all) && AllFingered(all) && Dealt(batch, rest, replies, Kept(replies, anchor))
      ensures Contents(all) == PutAll(Contents(recs), [kv] + Kept(replies, anchor))
      ensures |recs| + 1 + |batch| <= cap ==> AllGranted(batch, rest, replies, Kept(replies, anchor))
    {
      DealtKept(batch, rest, replies, anchor);
      SameFingered(batch, Kept(replies, anchor));
      StillFingered(recs, [kv] + Kept(replies, anchor), all);
      if |recs| + 1 + |batch| <= cap {
        RoomForAll(anchor, kv, batch, rest, replies, refuses && |all| == cap, predCap, pred, pred', recs, all, cap);
        KeptAll(replies, anchor);
      }
    }

    /** A split of a single record names that record's key. */
    lemma SingleAnchor(anchor: Key, kv: KV, batch: seq<KV>, rest: seq<KV>, replies: seq<Reply>, predCap: nat,
                       pred: seq<KV>, pred': seq<KV>, recs: seq<KV>, all: seq<KV>, refuses: bool, ranchor: Key)
      requires Made(anchor, kv, batch, rest, replies, predCap, pred, pred', recs, all, 21, refuses)
      requires |all| == 1 && Has(all, ranchor)
      ensures ranchor == kv.key && Wanted(anchor, recs, kv, batch) == 1
    {
      MadeSize(anchor, kv, batch, rest, replies, predCap, pred, pred', recs, all, 21, refuses);
      PutAllOwn(Contents(recs), kv, Kept(replies, anchor), kv.key);
      ContentsHas(all, kv.key);
    }

    /** The requests a put has met are of the node's range and have fingerprints, if all are. */
    lemma MetToo(batch: Batch, out: Outcome, anchor: Key)
      requires InRange(batch.All(), anchor) && AllFingered(batch.All())
      ensures var met := Met(out, batch.waiting + batch.slipped, batch.late);
              && InRange(met, anchor) && AllFingered(met)
              && batch.All() == if out == InPlace then met + batch.late else met
    {
      InRangePrefix(batch.waiting + batch.slipped, batch.late, anchor);
      SameFingered(batch.All(), batch.waiting + batch.slipped);
    }

    /** put_dispatcher, up to the write: the node is read, and the put for its type done in the buffer. */
    method Dispatch(im: Image, anchor: Key, kv: KV, batch: Batch)
      returns (out: Outcome, rest: seq<KV>, replies: seq<Reply>, ghost all: seq<KV>)
      requires buffer.Valid() && buffer.node.finger == finger && ImageOk(finger, im) && InRange(batch.All(), anchor)
      requires AllFingered(Recs(im)) && AllFingered([kv]) && AllFingered(batch.All())
      requires !Troubled(im.typ, anchor, Recs(im), kv, batch)
      modifies buffer.Repr()
      ensures unchanged(this) && unchanged(slist)
      ensures buffer.Valid() && Distinct(all) && buffer.Holds(out, all) && buffer.Writable(out)
      ensures out == InPlace ==> buffer.node.typ == im.typ
      ensures out.SplitAt? && |all| == 1 ==> out.anchor != anchor
      ensures Contents(all) == PutAll(Contents(Recs(im)), [kv] + Kept(replies, anchor))
      ensures Dealt(batch.All(), rest, replies, Kept(replies, anchor))
      ensures batch.late == [] && |batch.All()| <= 4 ==>
                AllGranted(batch.All(), rest, replies, Kept(replies, anchor))
    {
      hide InRange, AllFingered, Contents, PutAll, Kept, Wanted, Dealt, AllGranted, Made, NoZeros, Distinct, Has;
      hide ThreadBuffer.Writable, LacksSlots, Splits, Counted, Below, AtOrAbove;
      Fetch(im);
      ghost var pred0 := buffer.pred.Records();
      var counted;
      out, counted, rest, replies, all := buffer.PutByType(anchor, kv, batch.waiting, batch.slipped, batch.late);
      ghost var predCap, p := StoreCapacity(buffer.pred.typ), buffer.pred.Records();
      if out.SplitAt? && |all| == 1 {
        SingleAnchor(anchor, kv, batch.All(), rest, replies, predCap, pred0, p, Recs(im), all, im.typ == Type10,
            out.anchor);
      }
      rest := Outstanding(anchor, kv, batch, out, rest, replies, predCap, pred0, p, Recs(im), all, im.typ);
    }

    /** What is left of all requests, with those that nobody looked at. */
    method Outstanding(ghost anchor: Key, ghost kv: KV, batch: Batch, out: Outcome, rest: seq<KV>,
                       ghost replies: seq<Reply>, ghost predCap: nat, ghost pred: seq<KV>, ghost pred': seq<KV>,
                       ghost recs: seq<KV>, ghost all: seq<KV>, ghost t: LinkedNodeType)
      returns (rest': seq<KV>)
      requires InRange(batch.All(), anchor)
      requires AllFingered(recs) && AllFingered([kv]) && AllFingered(batch.All()) && Distinct(recs)
      requires Made(anchor, kv, Met(out, batch.waiting + batch.slipped, batch.late), rest, replies, predCap, pred,
               pred', recs, all, Slots(out), t == Type10)
      requires batch.late == [] ==>
               Made(anchor, kv, batch.waiting + batch.slipped, rest, replies, predCap, pred, pred', recs, all,
                    Gathering(t), t == Type10)
      requires t in {Type10, Type12, Type14, Type16} && |recs| <= Capacity(t)
      ensures Distinct(all) && NoZeros(finger, all)
      ensures Contents(all) == PutAll(Contents(recs), [kv] + Kept(replies, anchor))
      ensures Dealt(batch.All(), rest', replies, Kept(replies, anchor))
      ensures batch.late == [] && |batch.All()| <= 4 ==>
                AllGranted(batch.All(), rest', replies, Kept(replies, anchor))
    {
      hide InRange, AllFingered, Contents, PutAll, Kept, Wanted, Dealt, AllGranted, Made, NoZeros, Distinct;
      ghost var met, served := Met(out, batch.waiting + batch.slipped, batch.late), Kept(replies, anchor);
      MetToo(batch, out, anchor);
      AllServed(anchor, kv, met, rest, replies, predCap, pred, pred', recs, all, Slots(out), t == Type10);
      FingeredNoZeros(all);
      rest' := rest;
      if out == InPlace {
        DealtLate(met, rest, replies, served, batch.late);
        rest' := rest + batch.late;
      }
      if batch.late == [] {
        assert batch.All() == batch.waiting + batch.slipped && rest' == rest;
        AllServed(anchor, kv, batch.All(), rest, replies, predCap, pred, pred', recs, all, Gathering(t), t == Type10);
      }
    }

    lemma FingeredNoZeros(recs: seq<KV>)
      requires AllFingered(recs)
      ensures NoZeros(finger, recs)
    {
    }

    /** The successor of a node on the bottom level is the next anchor. */
    lemma NextAnchor(n: SkipListNode, anchor: Key)
      requires Ready() && slist.InList(n) && n != slist.head && anchor !in placed && n.anchor < anchor
      requires forall b :: b in placed && n.anchor < b ==> anchor < b
      ensures |slist.links[n.anchor]| > 0 && anchor !in slist.nodes
      ensures slist.links[n.anchor][0].Some? ==> anchor < slist.links[n.anchor][0].value
    {
      assert Levels.LinkOk(slist.heights, slist.links, n.anchor, 0);
      assert forall b :: b in loc <==> b in slist.nodes && b != HEAD;
      assert forall b :: b in loc <==> b in placed;
    }

    /** A split: two writes, and a new anchor. */
    method InstallSplit(n: SkipListNode, ranchor: Key, rightSlots: nat, ghost all: seq<KV>, ghost m: map<Key, Value>,
                        level: nat)
      requires Ready() && slist.InList(n) && n != slist.head && n.anchor in placed && 1 <= level <= MAX_LEVEL
      requires Distinct(all) && buffer.Holds(SplitAt(ranchor, rightSlots), all) &&
               buffer.Writable(SplitAt(ranchor, rightSlots)) && (|all| == 1 ==> ranchor != n.anchor)
      requires Represents(placed[n.anchor := all], m)
      modifies this`loc, this`placed, this`updateQueue, this`remote, this`nextFree
      modifies slist`nodes, slist`heights, slist`links, slist`backs, n`forwards, n`dataNode, n`typ
      ensures Ready() && Represents(placed, m) && old(placed).Keys <= placed.Keys
      ensures forall a :: a in slist.links && a !in old(slist.links) ==> |slist.links[a]| == level
      ensures ranchor in slist.nodes && fresh(slist.nodes[ranchor])
      ensures slist.nodes == old(slist.nodes)[ranchor := slist.nodes[ranchor]]
    {
      hide QueueOk, SkipList.Valid, Located, Awaited, Represents, ImageOk, Loose, Below, Owns, Distinct;
      ghost var whole, a := placed[n.anchor := all], n.anchor;
      assert whole.Keys == placed.Keys;
      SplitAnchor(whole, m, a, ranchor);
      SplitPlaces(whole, m, a, ranchor);
      NextAnchor(n, ranchor);
      assert whole[a := Below(all, ranchor)] == placed[a := Below(all, ranchor)];
      var r := WriteBackSplitted(n, rightSlots);
      AsyncUpdate(n, ranchor, r, level);
    }

    /** The rest of a put: what the buffer holds is written, and the index follows. */
    method Install(n: SkipListNode, out: Outcome, ghost all: seq<KV>, ghost m: map<Key, Value>, level: nat)
      requires Ready() && slist.InList(n) && n != slist.head && n.anchor in placed && 1 <= level <= MAX_LEVEL
      requires Distinct(all) && buffer.Holds(out, all) && buffer.Writable(out) &&
               (out == InPlace ==> buffer.node.typ == n.typ)
      requires out.SplitAt? && |all| == 1 ==> out.anchor != n.anchor
      requires Represents(placed[n.anchor := all], m)
      modifies this`loc, this`placed, this`updateQueue, this`remote, this`nextFree
      modifies slist`nodes, slist`heights, slist`links, slist`backs, n`forwards, n`dataNode, n`typ
      ensures Ready() && Represents(placed, m) && old(placed).Keys <= placed.Keys
      ensures forall a :: a in slist.links && a !in old(slist.links) ==> |slist.links[a]| == level
      ensures forall o :: o in slist.nodes.Values ==> o in old(slist.nodes.Values) || fresh(o)
    {
      hide Machine, Ready, Located, Represents, Distinct, Below, AtOrAbove, Has;
      match out {
        case InPlace => WriteBackCurrent(n, all);
        case Morphed => WriteBackMorphed(n, all);
        case SplitAt(ranchor, rightSlots) => InstallSplit(n, ranchor, rightSlots, all, m, level);
      }
    }

    /** Every key of the batch belongs on the same node as key does. */
    ghost predicate SameRange(key: Key, batch: seq<KV>)
      reads this
    {
      forall i {:trigger batch[i]} :: 0 <= i < |batch| ==>
        forall b {:trigger b in placed} :: b in placed ==> (b <= key <==> b <= batch[i].key)
    }

    /** A put on the node responsible is in trouble. */
    ghost predicate Overloaded(kv: KV, batch: Batch)
      reads this
    {
      exists a {:trigger a in placed} :: a in placed && a in loc && Owns(placed.Keys, a, kv.key) &&
        Troubled(loc[a].1, a, placed[a], kv, batch)
    }

    /** What is known about the node responsible for a batch. */
    lemma BatchOwned(a: Key, kv: KV, batch: seq<KV>, served: seq<KV>, all: seq<KV>)
      requires Represents(placed, contents) && Fingered() && Owns(placed.Keys, a, kv.key) && SameRange(kv.key, batch)
      requires multiset(served) <= multiset(batch)
      requires Distinct(all) && Contents(all) == PutAll(Contents(placed[a]), [kv] + served)
      ensures Represents(placed[a := all], PutAll(contents, [kv] + served))
    {
      var kvs := [kv] + served;
      forall i | 0 <= i < |kvs|
        ensures Owns(placed.Keys, a, kvs[i].key)
      {
        if i > 0 {
          assert kvs[i] == served[i - 1] && served[i - 1] in multiset(batch);
          var j :| 0 <= j < |batch| && batch[j] == kvs[i];
        }
      }
      PutPlaces(placed, contents, a, all, kvs);
    }

    lemma NodeFingered(a: Key)
      requires Represents(placed, contents) && Fingered() && a in placed
      ensures AllFingered(placed[a])
    {
      forall i | 0 <= i < |placed[a]|
        ensures finger(placed[a][i].key) != 0
      {
        assert Has(placed[a], placed[a][i].key);
        RecordKnown(placed, contents, a, placed[a][i].key);
      }
    }

    lemma BatchInRange(a: Key, kv: KV, batch: seq<KV>)
      requires a in placed && a <= kv.key && SameRange(kv.key, batch)
      ensures InRange(batch, a)
    {
    }

    /** Only a key below every anchor leads to the head. */
    lemma FoundHead(n: SkipListNode, key: Key)
      requires Ready() && slist.InList(n)
      requires forall k :: k in slist.nodes && k <= key ==> k <= n.anchor
      ensures n == slist.head ==> !Reached(placed, key)
    {
      assert forall b :: b in placed ==> b in loc && b in slist.nodes && HEAD < b;
    }

    /** Where the index leads, there are the node's records. */
    lemma FoundAt(n: SkipListNode)
      requires Ready() && slist.InList(n) && n.anchor in placed
      ensures At(finger, loc, remote, placed, n.anchor) && loc[n.anchor] == (n.dataNode, n.typ)
    {
    }

    /** The buffer's part of a put, on the node responsible. */
    method Serve(n: SkipListNode, kv: KV, batch: Batch)
      returns (out: Outcome, rest: seq<KV>, replies: seq<Reply>, ghost all: seq<KV>)
      requires Ready() && slist.InList(n) && n != slist.head && n.anchor in placed && InRange(batch.All(), n.anchor)
      requires AllFingered(placed[n.anchor]) && AllFingered([kv]) && AllFingered(batch.All())
      requires !Troubled(n.typ, n.anchor, placed[n.anchor], kv, batch)
      modifies buffer.Repr()
      ensures unchanged(this) && unchanged(n) && unchanged(slist)
      ensures Ready() && Distinct(all) && buffer.Holds(out, all) && buffer.Writable(out)
      ensures out == InPlace ==> buffer.node.typ == n.typ
      ensures out.SplitAt? && |all| == 1 ==> out.anchor != n.anchor
      ensures Contents(all) == PutAll(Contents(placed[n.anchor]), [kv] + Kept(replies, n.anchor))
      ensures Dealt(batch.All(), rest, replies, Kept(replies, n.anchor))
      ensures batch.late == [] && |batch.All()| <= 4 ==>
                AllGranted(batch.All(), rest, replies, Kept(replies, n.anchor))
    {
      hide QueueOk, SkipList.Valid, Located, InRange, AllFingered, Troubled, Contents, PutAll, Kept, Wanted, Dealt,
          AllGranted, ThreadBuffer.Holds, ThreadBuffer.Writable;
      FoundAt(n);
      out, rest, replies, all := Dispatch(remote[n.dataNode], n.anchor, kv, batch);
    }

    /** A put once the store is remote, together with any number of requests of losers for the same
        node, whenever they arrive.  The source throws if the key is below every anchor.  Otherwise the
        store is the old map with the winner's record and all granted ones inserted where absent; no
        request is lost, and up to four are all granted if none comes late. */
    method RemotePut(kv: KV, batch: Batch, level: nat)
      returns (res: PutResult, rest: seq<KV>, replies: seq<Reply>, ghost served: seq<KV>)
      requires Serving() && EMPTY < kv.key && 1 <= level <= MAX_LEVEL
      requires AllFingered([kv]) && AllFingered(batch.All())
      requires SameRange(kv.key, batch.All()) && !Overloaded(kv, batch)
      modifies this, buffer.Repr()
      modifies slist`nodes, slist`heights, slist`links, slist`backs
      modifies slist.nodes.Values`forwards, slist.nodes.Values`dataNode, slist.nodes.Values`typ
      ensures Serving() && old(placed).Keys <= placed.Keys
      ensures forall a :: a in slist.links && a !in old(slist.links) ==> |slist.links[a]| == level
      ensures res == Refused <==> !Reached(old(placed), kv.key)
      ensures res == Refused ==>
                contents == old(contents) && placed == old(placed) && rest == batch.All() && replies == []
      ensures res == Stored ==>
                contents == PutAll(old(contents), [kv] + served) && Dealt(batch.All(), rest, replies, served)
      ensures res == Stored ==> Extends(old(contents), kv, served, contents)
      ensures res == Stored && batch.late == [] && |batch.All()| <= 4 ==>
                AllGranted(batch.All(), rest, replies, served)
      ensures forall o :: o in slist.nodes.Values ==> o in old(slist.nodes.Values) || fresh(o)
    {
      hide QueueOk, Awaited, Represents, Extends, Dealt, AllGranted, PutAll;
      var n := slist.FuzzySearch(kv.key);
      FoundHead(n, kv.key);
      if n == slist.head {
        return Refused, batch.All(), [], [];
      }
      FoundOwns(n, kv.key);
      NodeFingered(n.anchor);
      BatchInRange(n.anchor, kv, batch.All());
      ghost var m := contents;
      rest, replies, served := PutOn(n, kv, batch, level);
      BatchExtends(m, kv, served);
      res := Stored;
    }

    method PutOn(n: SkipListNode, kv: KV, batch: Batch, level: nat)
      returns (rest: seq<KV>, replies: seq<Reply>, ghost served: seq<KV>)
      requires Serving() && 1 <= level <= MAX_LEVEL
      requires slist.InList(n) && n != slist.head && n.anchor in placed && InRange(batch.All(), n.anchor)
      requires AllFingered(placed[n.anchor]) && AllFingered([kv]) && AllFingered(batch.All())
      requires !Troubled(n.typ, n.anchor, placed[n.anchor], kv, batch)
      requires Owns(placed.Keys, n.anchor, kv.key) && SameRange(kv.key, batch.All())
      modifies this, buffer.Repr()
      modifies slist`nodes, slist`heights, slist`links, slist`backs, n`forwards, n`dataNode, n`typ
      ensures old(placed).Keys <= placed.Keys
      ensures forall a :: a in slist.links && a !in old(slist.links) ==> |slist.links[a]| == level
      ensures Serving() && Dealt(batch.All(), rest, replies, served) && contents == PutAll(old(contents), [kv] + served)
      ensures batch.late == [] && |batch.All()| <= 4 ==>
                AllGranted(batch.All(), rest, replies, served)
      ensures forall o :: o in slist.nodes.Values ==> o in old(slist.nodes.Values) || fresh(o)
    {
      hide Troubled, AllFingered, InRange;
      var out;
      ghost var all;
      out, rest, replies, all := Serve(n, kv, batch);
      served := Kept(replies, n.anchor);
      DealtSubset(batch.All(), rest, replies, served);
      BatchOwned(n.anchor, kv, batch.All(), served, all);
      FingeredMore([kv] + served, batch.All(), kv);
      Commit(n, out, all, PutAll(contents, [kv] + served), level);
    }

    /** Install, and the store is the map m from then on. */
    method Commit(n: SkipListNode, out: Outcome, ghost all: seq<KV>, ghost m: map<Key, Value>, level: nat)
      requires remotePut && Ready() && slist.InList(n) && n != slist.head && n.anchor in placed &&
               1 <= level <= MAX_LEVEL
      requires Distinct(all) && buffer.Holds(out, all) && buffer.Writable(out) &&
               (out == InPlace ==> buffer.node.typ == n.typ)
      requires out.SplitAt? && |all| == 1 ==> out.anchor != n.anchor
      requires Represents(placed[n.anchor := all], m) && forall k {:trigger k in m} :: k in m ==> finger(k) != 0
      modifies this`loc, this`placed, this`updateQueue, this`remote, this`nextFree, this`contents
      modifies slist`nodes, slist`heights, slist`links, slist`backs, n`forwards, n`dataNode, n`typ
      ensures Serving() && contents == m && old(placed).Keys <= placed.Keys
      ensures forall a :: a in slist.links && a !in old(slist.links) ==> |slist.links[a]| == level
      ensures forall o :: o in slist.nodes.Values ==> o in old(slist.nodes.Values) || fresh(o)
    {
      hide Located, QueueOk, SkipList.Valid, Represents;
      Install(n, out, all, m, level);
      Become(m);
    }

    ghost method Become(m: map<Key, Value>)
      requires remotePut && Ready() && Represents(placed, m) && forall k {:trigger k in m} :: k in m ==> finger(k) != 0
      modifies this`contents
      ensures Serving() && contents == m
    {
      hide Located, QueueOk, SkipList.Valid, Represents;
      contents := m;
    }

    lemma FingeredMore(kvs: seq<KV>, batch: seq<KV>, kv: KV)
      requires Fingered() && AllFingered([kv]) && AllFingered(batch)
      requires kvs != [] && kvs[0] == kv && multiset(kvs[1..]) <= multiset(batch)
      ensures forall k {:trigger k in PutAll(contents, kvs)} :: k in PutAll(contents, kvs) ==> finger(k) != 0
    {
      SameFingered(batch, kvs[1..]);
      forall k | k in PutAll(contents, kvs)
        ensures finger(k) != 0
      {
        PutAllKeys(contents, kvs, k);
        if k !in contents {
          var i :| 0 <= i < |kvs| && kvs[i].key == k;
          assert i > 0 ==> kvs[i] == kvs[1..][i - 1];
          assert [kv][0] == kv;
        }
      }
    }

    /** A lookup in a data node, through the buffer. */
    method FetchAndFind(im: Image, key: Key) returns (r: Option<Value>)
      requires Ready() && ImageOk(finger, im)
      modifies buffer.Repr()
      ensures Ready() && unchanged(this) && r == Lookup(Contents(Recs(im)), key)
    {
      hide QueueOk, SkipList.Valid, Located;
      Fetch(im);
      assert Ready();
      r := buffer.node.Find(key);
    }

    /** What a get of a key below every anchor comes to; the right answer is that the store does not
        have it. */
    ghost predicate HeadAnswer(key: Key, seen: seq<Placeholder>, r: GetResult)
      requires forall i {:trigger seen[i]} :: 0 <= i < |seen| ==> Whole(seen[i])
      reads this
    {
      var n := FirstAccepted(seen);
      && (r == Retrying <==> n == |seen|)
      && (n < |seen| ==> Glimpsed(finger, seen[n], key, r))
      && key !in contents
      && (r == Answer(None) <==>
            n < |seen| && ShowsNothing(finger, seen[n], key) && seen[n].next <= 16)
    }

    /** find, in what was read from the placeholder. */
    method FindInPlaceholder(p: Placeholder, key: Key) returns (r: GetResult)
      requires Whole(p)
      ensures Glimpsed(finger, p, key, r)
    {
      var f := finger(key);
      for i := 0 to 16
        invariant forall j :: 0 <= j < i ==> !Shows(finger, p, key, j)
      {
        if i >= p.next {
          return Answer(None);
        }
        if f == p.fingerprints[i] && key == p.pairs[i].key {
          assert Shows(finger, p, key, i);
          return Answer(Some(p.pairs[i].value));
        }
      }
      return if p.next <= 16 then Answer(None) else Overrun;
    }

    /** A get that the index leads to the head.  Its type has the checksum zero, so the placeholder is
        read again until its checksum is zero. */
    method GetFromHead(key: Key, seen: seq<Placeholder>) returns (r: GetResult)
      requires forall i {:trigger seen[i]} :: 0 <= i < |seen| ==> Whole(seen[i])
      ensures r == Retrying <==> FirstAccepted(seen) == |seen|
      ensures FirstAccepted(seen) < |seen| ==> Glimpsed(finger, seen[FirstAccepted(seen)], key, r)
    {
      for i := 0 to |seen|
        invariant forall j :: 0 <= j < i ==> seen[j].crc != 0
      {
        if seen[i].crc == 0 {
          r := FindInPlaceholder(seen[i], key);
          return;
        }
      }
      return Retrying;
    }

    /** No key below every anchor is in the store. */
    lemma NotReachedAbsent(key: Key)
      requires Serving() && !Reached(placed, key)
      ensures key !in contents
    {
      hide Ready, Fingered;
    }

    /** get, on a store that is remote already; seen is what it gets to see of the placeholder, if
        the key is below every anchor.  Then it returns what the store has, which is nothing, exactly
        if a read brings the checksum zero, and the first such read no more than sixteen records, none
        of which answers to the key. */
    method RemoteGet(key: Key, seen: seq<Placeholder>) returns (r: GetResult)
      requires Serving() && EMPTY < key
      requires forall i {:trigger seen[i]} :: 0 <= i < |seen| ==> Whole(seen[i])
      modifies buffer.Repr()
      ensures Serving() && (key in contents ==> r == Answer(Some(contents[key])))
      ensures Reached(placed, key) && key !in contents ==> r == Answer(None)
      ensures !Reached(placed, key) ==> HeadAnswer(key, seen, r)
      ensures !Reached(placed, key) && seen != [] && seen[0] == Zeroed() ==> r == Answer(None)
    {
      hide QueueOk, SkipList.Valid, Located;
      var n := slist.FuzzySearch(key);
      FoundHead(n, key);
      if n == slist.head {
        NotReachedAbsent(key);
        r := GetFromHead(key, seen);
        return;
      }
      FoundOwns(n, key);
      assert Agrees(placed, contents, n.anchor, key);
      assert Reached(placed, key);
      hide Represents, Owns, Reached;
      var v := FetchAndFind(remote[n.dataNode], key);
      return Answer(v);
    }

    method CalibrateFirst()
      requires Machine() && updateQueue != []
      modifies slist`currentLevel, slist`heights, slist`links, slist.nodes.Values`forwards
      ensures slist.Valid() && slist.Contents() == loc && slist.nodes == old(slist.nodes)
      ensures slist.heights == old(slist.heights)[updateQueue[0].newNode.anchor := updateQueue[0].level]
      ensures slist.links.Keys == old(slist.links).Keys
      ensures QueueOk(updateQueue[1..], slist.nodes, slist.heights, slist.links)
      ensures Awaited(updateQueue[1..], slist.heights, slist.links, None)
    {
      hide Awaited;
      var c := updateQueue[0];
      ghost var heights0, links0 := slist.heights, slist.links;
      slist.Calibrate(c.newNode, c.level);
      QueuePopped(updateQueue, slist.nodes, heights0, links0, slist.links);
      AwaitedPopped(updateQueue, slist.nodes, heights0, links0, slist.links);
    }

    method CalibrateNext()
      requires Machine() && updateQueue != []
      modifies this`updateQueue, slist`currentLevel, slist`heights, slist`links, slist.nodes.Values`forwards
      ensures Machine() && slist.nodes == old(slist.nodes) && updateQueue == old(updateQueue)[1..]
      ensures var c := old(updateQueue)[0];
              slist.heights == old(slist.heights)[c.newNode.anchor := c.level]
    {
      hide Located, QueueOk, SkipList.Valid, Represents, Awaited;
      CalibrateFirst();
      updateQueue := updateQueue[1..];
    }

    /** The calibration thread takes one request, if there is one: its node is linked on all its
        levels. */
    method CalibrateOne()
      requires Serving()
      modifies this`updateQueue, slist`currentLevel, slist`heights, slist`links, slist.nodes.Values`forwards
      ensures Serving() && contents == old(contents) && slist.nodes == old(slist.nodes)
      ensures if old(updateQueue) == [] then updateQueue == [] && slist.heights == old(slist.heights)
              else updateQueue == old(updateQueue)[1..] &&
                   var c := old(updateQueue)[0];
                   slist.heights == old(slist.heights)[c.newNode.anchor := c.level]
    {
      hide MachineBut, Located, Represents;
      if updateQueue != [] {
        CalibrateNext();
      }
    }

    lemma Unlisted(a: Key)
      requires slist.Valid() && a !in slist.nodes
      ensures a !in slist.heights && slist.heights.Keys == slist.links.Keys
    {
    }

    /** With no request left, every node is linked on all the levels it was made with: each of its
        pointers leads to the next anchor whose node has that level. */
    lemma DrainedIsComplete()
      requires Ready() && updateQueue == []
      ensures forall a {:trigger slist.links[a]} :: a in slist.nodes ==>
                && a in slist.links && a in slist.heights && slist.heights[a] == |slist.links[a]|
                && forall i {:trigger slist.links[a][i]} :: 0 <= i < |slist.links[a]| ==>
                     Levels.IsNext(slist.heights, a, i, slist.links[a][i])
    {
      forall a | a in slist.nodes
        ensures a in slist.links && a in slist.heights && slist.heights[a] == |slist.links[a]|
      {
        assert slist.heights[a] < |slist.links[a]| ==> Requested(updateQueue, a);
      }
      forall a, i | a in slist.nodes && 0 <= i < |slist.links[a]|
        ensures Levels.IsNext(slist.heights, a, i, slist.links[a][i])
      {
        assert Levels.LinkOk(slist.heights, slist.links, a, i);
      }
    }

    /** slist.insert, for one of the two anchors of the local stage. */
    method InsertAnchor(anchor: Key, r: RemoteAddress, t: LinkedNodeType, level: nat)
      requires Machine() && HEAD < anchor && anchor !in slist.nodes && 1 <= level <= MAX_LEVEL
      modifies this`loc, slist, slist.nodes.Values`forwards, slist.nodes.Values`backward
      ensures Machine() && loc == old(loc)[anchor := (r, t)]
      ensures slist.nodes.Keys == old(slist.nodes).Keys + {anchor}
      ensures slist.heights == old(slist.heights)[anchor := level]
      ensures forall o :: o in slist.nodes.Values ==> o in old(slist.nodes.Values) || fresh(o)
    {
      hide QueueOk, SkipList.Valid, SkipList.Contents, Awaited;
      InsertInto(anchor, r, t, level);
      loc := loc[anchor := (r, t)];
    }

    /** The new anchor is on all its levels at once, so the queue need not speak of it. */
    lemma QueueIgnores(nodes: map<Key, SkipListNode>, heights: Levels.Heights, links: Levels.Links, anchor: Key,
                       level: nat)
      requires QueueOk(updateQueue, nodes, heights, links) && Awaited(updateQueue, heights, links, None)
      requires anchor !in nodes && anchor !in heights && heights.Keys == links.Keys
      requires anchor in slist.nodes && slist.nodes == nodes[anchor := slist.nodes[anchor]]
      requires slist.heights == heights[anchor := level]
      requires Levels.SameSizes(links[anchor := seq(level, _ => None)], slist.links)
      ensures QueueOk(updateQueue, slist.nodes, slist.heights, slist.links)
      ensures Awaited(updateQueue, slist.heights, slist.links, None)
    {
      QueueKept(updateQueue, nodes, heights, links, slist.nodes, slist.heights, slist.links, anchor, level,
          seq(level, _ => None));
      AwaitedLinked(updateQueue, heights, links, slist.links, anchor, level, level);
    }

    method InsertInto(anchor: Key, r: RemoteAddress, t: LinkedNodeType, level: nat)
      requires Machine() && HEAD < anchor && anchor !in slist.nodes && 1 <= level <= MAX_LEVEL
      modifies slist, slist.nodes.Values`forwards, slist.nodes.Values`backward
      ensures slist.Valid() && slist.head.typ == TypeHead && slist.Contents() == loc[anchor := (r, t)]
      ensures slist.head.dataNode == PLACEHOLDER && buffer.Valid()
      ensures slist.heights == old(slist.heights)[anchor := level]
      ensures QueueOk(updateQueue, slist.nodes, slist.heights, slist.links)
      ensures Awaited(updateQueue, slist.heights, slist.links, None)
      ensures anchor in slist.nodes && fresh(slist.nodes[anchor]) &&
              slist.nodes == old(slist.nodes)[anchor := slist.nodes[anchor]]
    {
      Unlisted(anchor);
      hide SkipList.Valid, QueueOk, Awaited, Levels.SameSizes;
      ghost var nodes0, heights0, links0 := slist.nodes, slist.heights, slist.links;
      var ok := slist.Insert(anchor, r, t, level);
      QueueIgnores(nodes0, heights0, links0, anchor, level);
    }

    // -------------------------------------------------------------- the flush

    /** The full local node with the new record in it, as a node of 12. */
    method Enlarge(target: LinkedNode, kv: KV) returns (big: Image)
      requires target.Valid() && target.finger == finger && target.next == 10
      requires target.pairs.Length == 10 && target.fingerprints.Length == 16
      ensures ImageOk(finger, big) && big.typ == Type12 && |big.pairs| == 12
      ensures Recs(big) == AfterStore(12, target.Records(), kv.key, kv.value)
    {
      var node := new LinkedNode(finger, 16, 12, Type12);
      forall i | 0 <= i < 16 {
        node.fingerprints[i] := target.fingerprints[i];
      }
      forall i | 0 <= i < 10 {
        node.pairs[i] := target.pairs[i];
      }
      node.next := target.next;
      assert node.Records() == target.Records();
      var ok := node.Store(12, kv.key, kv.value);
      ImageFits(node, 12);
      big := ImageOf(node, 12);
    }

    /** Both local nodes are written to fresh places. */
    method FlushWrites(big: Image, small: Image) returns (larger: RemoteAddress, smaller: RemoteAddress)
      requires Machine()
      modifies this`nextFree, this`remote, this`placed
      ensures Machine() && placed == old(placed) && nextFree == old(nextFree) + 2
      ensures smaller == old(nextFree) && larger == smaller + 1
      ensures remote == old(remote)[smaller := small][larger := big]
    {
      hide QueueOk, SkipList.Valid, Represents, Located;
      smaller := Allocate();
      larger := Allocate();
      Write(larger, big, placed);
      Write(smaller, small, placed);
      assert old(remote)[larger := big][smaller := small] == old(remote)[smaller := small][larger := big];
    }

    /** The index and the data after the flush: b is the anchor of the larger node, s the other one. */
    lemma FlushLocated(b: Key, big: Image, s: Key, small: Image)
      requires Located(finger, map[], remote, map[], nextFree) && b != s
      requires ImageOk(finger, big) && ImageOk(finger, small)
      ensures Located(finger, map[s := (nextFree, small.typ), b := (nextFree + 1, big.typ)],
                      remote[nextFree := small][nextFree + 1 := big], map[s := Recs(small), b := Recs(big)],
                          nextFree + 2)
    {
      LocatedMove(finger, map[], remote, map[], nextFree, s, nextFree, small);
      LocatedMove(finger, map[s := (nextFree, small.typ)], remote[nextFree := small], map[s := Recs(small)],
          nextFree + 1, b, nextFree + 1, big);
    }

    lemma NotIndexed(a: Key)
      requires Machine() && a !in loc && HEAD < a
      ensures a !in slist.nodes
    {
      assert a !in slist.Contents();
    }

    /** Both anchors get their node in the skip list, the first one first. */
    method FlushIndex(a0: Key, p0: RemoteAddress, t0: LinkedNodeType, level0: nat,
                      a1: Key, p1: RemoteAddress, t1: LinkedNodeType, level1: nat)
      requires Machine() && loc == map[] && HEAD < a0 < a1 && 1 <= level0 <= MAX_LEVEL && 1 <= level1 <= MAX_LEVEL
      modifies this`loc, slist, slist.nodes.Values`forwards, slist.nodes.Values`backward
      ensures Machine() && loc == map[a0 := (p0, t0), a1 := (p1, t1)]
      ensures remote == old(remote) && nextFree == old(nextFree)
      ensures slist.heights == old(slist.heights)[a0 := level0][a1 := level1]
      ensures forall o :: o in slist.nodes.Values ==> o in old(slist.nodes.Values) || fresh(o)
    {
      hide Machine;
      NotIndexed(a0);
      NotIndexed(a1);
      InsertAnchor(a0, p0, t0, level0);
      InsertAnchor(a1, p1, t1, level1);
    }

    /** The local nodes are the store, and target, which is full, is the one the new key belongs on. */
    ghost predicate FlushDue(target: LinkedNode, kv: KV)
      reads this, local.Repr()
    {
      && local.Holds(contents) && local.first.finger == finger
      && local.anchor0 != EMPTY && local.anchor1 != EMPTY
      && (target == local.node0 || target == local.node1) && target.next == 10
      && Owns(local.Placed().Keys, if target == local.node0 then local.anchor0 else local.anchor1, kv.key)
    }

    /** The records the two remote nodes are to hold. */
    ghost function Flushed(target: LinkedNode, kv: KV): Placed
      requires FlushDue(target, kv)
      reads this, local.Repr()
    {
      var all := AfterStore(12, target.Records(), kv.key, kv.value);
      if target == local.node0 then map[local.anchor0 := all, local.anchor1 := local.node1.Records()]
      else map[local.anchor0 := local.node0.Records(), local.anchor1 := all]
    }

    lemma FlushRepresents(target: LinkedNode, kv: KV)
      requires FlushDue(target, kv)
      ensures Represents(Flushed(target, kv), InsertIfAbsent(contents, kv.key, kv.value))
    {
      hide Represents;
      var a, all := if target == local.node0 then local.anchor0
          else local.anchor1, AfterStore(12, target.Records(), kv.key, kv.value);
      AfterStoreInserts(12, target.Records(), kv.key, kv.value);
      PutAllAppend(Contents(target.Records()), [], kv);
      PutAllAppend(contents, [], kv);
      assert [] + [kv] == [kv];
      PutPlaces(local.Placed(), contents, a, all, [kv]);
      assert local.Placed()[a := all] == Flushed(target, kv);
    }

    lemma FlushStart(target: LinkedNode, kv: KV)
      requires Ready() && Fingered() && placed == map[] && FlushDue(target, kv) && finger(kv.key) != 0
      ensures loc == map[] && HEAD < local.anchor0 < local.anchor1
      ensures Represents(Flushed(target, kv), InsertIfAbsent(contents, kv.key, kv.value))
      ensures var m := InsertIfAbsent(contents, kv.key, kv.value);
              forall k {:trigger k in m} :: k in m ==> finger(k) != 0
    {
      FlushRepresents(target, kv);
      assert loc == map[];
    }

    /** The end of the local stage: the full node goes to remote memory with the new record in it,
        the other one as it is, and each gets its anchor in the skip list. */
    method Flush(target: LinkedNode, kv: KV, level0: nat, level1: nat)
      requires Ready() && Fingered() && !remotePut && placed == map[] && FlushDue(target, kv) && finger(kv.key) != 0
      requires 1 <= level0 <= MAX_LEVEL && 1 <= level1 <= MAX_LEVEL
      modifies this, slist, slist.nodes.Values`forwards, slist.nodes.Values`backward
      ensures Serving() && placed == old(Flushed(target, kv))
      ensures contents == if kv.key in old(contents) then old(contents) else old(contents)[kv.key := kv.value]
      ensures slist.heights == old(slist.heights)[local.anchor0 := level0][local.anchor1 := level1]
      ensures forall o :: o in slist.nodes.Values ==> o in old(slist.nodes.Values) || fresh(o)
    {
      FlushStart(target, kv);
      ghost var placed', m := Flushed(target, kv), InsertIfAbsent(contents, kv.key, kv.value);
      var a0, a1 := local.anchor0, local.anchor1;
      hide Represents, Owns, Located, FlushDue, Flushed, Machine, Ready, Fingered, Serving;
      var p0, t0, p1, t1 := FlushData(target, kv);
      FlushIndex(a0, p0, t0, level0, a1, p1, t1, level1);
      GoRemote(placed', m);
    }

    /** The writes of the flush. */
    method FlushData(target: LinkedNode, kv: KV)
      returns (p0: RemoteAddress, t0: LinkedNodeType, p1: RemoteAddress, t1: LinkedNodeType)
      requires Ready() && placed == map[] && loc == map[] && FlushDue(target, kv)
      modifies this`nextFree, this`remote, this`placed
      ensures Machine() && PLACEHOLDER < nextFree
      ensures Located(finger, map[local.anchor0 := (p0, t0), local.anchor1 := (p1, t1)], remote,
              old(Flushed(target, kv)), nextFree)
    {
      hide QueueOk, SkipList.Valid, Represents, Located;
      ghost var placed' := Flushed(target, kv);
      var small, big := FlushImages(target, kv);
      var a0, a1 := local.anchor0, local.anchor1;
      if target == local.node0 {
        FlushLocated(a0, big, a1, small);
        assert map[a1 := Recs(small), a0 := Recs(big)] == placed';
      } else {
        FlushLocated(a1, big, a0, small);
        assert map[a0 := Recs(small), a1 := Recs(big)] == placed';
      }
      var first := target == local.node0;
      var larger, smaller := FlushWrites(big, small);
      if first {
        p0, t0, p1, t1 := larger, big.typ, smaller, small.typ;
        assert map[a1 := (smaller, small.typ), a0 := (larger, big.typ)] == map[a0 := (p0, t0), a1 := (p1, t1)];
      } else {
        p0, t0, p1, t1 := smaller, small.typ, larger, big.typ;
      }
    }

    method FlushImages(target: LinkedNode, kv: KV) returns (small: Image, big: Image)
      requires FlushDue(target, kv)
      ensures ImageOk(finger, small) && ImageOk(finger, big) && small.typ == Type10 && big.typ == Type12
      ensures Recs(big) == AfterStore(12, target.Records(), kv.key, kv.value)
      ensures Recs(small) == (if target == local.node0 then local.node1 else local.node0).Records()
    {
      var noMove := if target == local.node0 then local.node1 else local.node0;
      big := Enlarge(target, kv);
      ImageFits(noMove, 10);
      small := ImageOf(noMove, 10);
    }

    method GoRemote(ghost placed': Placed, ghost m: map<Key, Value>)
      requires Machine() && PLACEHOLDER < nextFree && Located(finger, loc, remote, placed', nextFree) &&
               Represents(placed', m)
      requires forall k {:trigger k in m} :: k in m ==> finger(k) != 0
      modifies this`remotePut, this`placed, this`contents
      ensures Serving() && placed == placed' && contents == m
    {
      hide Located, QueueOk, SkipList.Valid, Represents;
      placed, contents := placed', m;
      remotePut := true;
    }

    // -------------------------------------------------------------- the store

    /** quick_put: the key goes to a local node; a full one is the end of the local stage. */
    method QuickPut(kv: KV, level0: nat, level1: nat)
      requires Valid() && !remotePut && EMPTY < kv.key && finger(kv.key) != 0 && !local.Clash(kv.key)
      requires 1 <= level0 <= MAX_LEVEL && 1 <= level1 <= MAX_LEVEL
      modifies this, slist, slist.nodes.Values`forwards, slist.nodes.Values`backward, local.Repr()
      ensures Valid()
      ensures contents == if kv.key in old(contents) then old(contents) else old(contents)[kv.key := kv.value]
      ensures slist.heights == if remotePut then old(slist.heights)[local.anchor0 := level0][local.anchor1 := level1]
              else old(slist.heights)
      ensures forall o :: o in slist.nodes.Values ==> o in old(slist.nodes.Values) || fresh(o)
    {
      hide Ready, Fingered, FlushDue, Represents, Located, LocalNodes.Valid;
      var stored, target := LocalPut(kv);
      if !stored {
        Flush(target, kv, level0, level1);
      }
    }

    /** The local part of quick_put. */
    method LocalPut(kv: KV) returns (stored: bool, target: LinkedNode)
      requires Valid() && !remotePut && EMPTY < kv.key && finger(kv.key) != 0 && !local.Clash(kv.key)
      modifies this`contents, local.Repr()
      ensures unchanged(slist)
      ensures stored ==> Valid() && contents == InsertIfAbsent(old(contents), kv.key, kv.value)
      ensures !stored ==> Ready() && Fingered() && placed == map[] && FlushDue(target, kv) && contents == old(contents)
    {
      hide Ready, LocalNodes.Valid, Represents, Owns;
      stored, target := StoreLocally(kv);
      if stored {
        KeepLocal(InsertIfAbsent(contents, kv.key, kv.value));
      }
    }

    /** The store's map, while the store is local. */
    ghost method KeepLocal(m: map<Key, Value>)
      requires !remotePut && Ready() && placed == map[] && local.Valid(m) && local.first.finger == finger
      requires local.Repr() !! buffer.Repr() && forall k {:trigger k in m} :: k in m ==> finger(k) != 0
      modifies this`contents
      ensures Valid() && contents == m
    {
      hide Located, QueueOk, SkipList.Valid, Represents, LocalNodes.Valid, ThreadBuffer.Valid;
      contents := m;
    }

    method StoreLocally(kv: KV) returns (stored: bool, target: LinkedNode)
      requires Ready() && local.Valid(contents) && local.first.finger == finger && local.Repr() !! buffer.Repr()
      requires EMPTY < kv.key && !local.Clash(kv.key)
      modifies local.Repr()
      ensures Ready() && unchanged(this)
      ensures if stored then local.Valid(InsertIfAbsent(contents, kv.key, kv.value))
              else local.Holds(contents) && local.anchor0 != EMPTY && local.anchor1 != EMPTY && target.next == 10 &&
                   (target == local.node0 || target == local.node1) &&
                   Owns(local.Placed().Keys, if target == local.node0 then local.anchor0 else local.anchor1, kv.key)
    {
      hide Located, QueueOk, SkipList.Valid, Represents, Owns, LocalNodes.Valid, LocalNodes.Holds, LocalNodes.Shaped,
          ThreadBuffer.Valid;
      stored, target := local.Put(kv.key, kv.value, contents);
    }

    /** put. */
    method Put(kv: KV, level0: nat, level1: nat) returns (res: PutResult)
      requires Valid() && EMPTY < kv.key && finger(kv.key) != 0 && (remotePut || !local.Clash(kv.key))
      requires 1 <= level0 <= MAX_LEVEL && 1 <= level1 <= MAX_LEVEL
      modifies this, slist, slist.nodes.Values, buffer.Repr(), local.Repr()
      ensures Valid()
      ensures res == Refused <==> old(remotePut) && !Reached(old(placed), kv.key)
      ensures res == Refused ==> contents == old(contents) && placed == old(placed)
      ensures res == Stored ==>
                contents == if kv.key in old(contents) then old(contents) else old(contents)[kv.key := kv.value]
      ensures old(remotePut) ==> remotePut
      ensures old(remotePut) ==> forall a :: a in slist.links && a !in old(slist.links) ==> |slist.links[a]| == level0
      ensures !old(remotePut) && remotePut ==>
                slist.heights == old(slist.heights)[local.anchor0 := level0][local.anchor1 := level1]
      ensures forall o :: o in slist.nodes.Values ==> o in old(slist.nodes.Values) || fresh(o)
    {
      if !remotePut {
        QuickPut(kv, level0, level1);
        return Stored;
      }
      res := PutAlone(kv, level0);
    }

    method PutAlone(kv: KV, level: nat) returns (res: PutResult)
      requires Serving() && EMPTY < kv.key && finger(kv.key) != 0 && 1 <= level <= MAX_LEVEL
      modifies this, buffer.Repr()
      modifies slist`nodes, slist`heights, slist`links, slist`backs
      modifies slist.nodes.Values`forwards, slist.nodes.Values`dataNode, slist.nodes.Values`typ
      ensures Serving() && old(placed).Keys <= placed.Keys
      ensures res == Refused <==> !Reached(old(placed), kv.key)
      ensures res == Refused ==> placed == old(placed)
      ensures contents == if res == Refused then old(contents) else InsertIfAbsent(old(contents), kv.key, kv.value)
      ensures forall a :: a in slist.links && a !in old(slist.links) ==> |slist.links[a]| == level
      ensures forall o :: o in slist.nodes.Values ==> o in old(slist.nodes.Values) || fresh(o)
    {
      AloneFits(kv);
      var rest, replies;
      ghost var served, m := [], contents;
      res, rest, replies, served := RemotePut(kv, NOBODY, level);
      if res == Stored {
        DealtSubset(NOBODY.All(), rest, replies, served);
        NoneServed(m, kv, served);
      }
    }

    /** A put that nobody joins is never in trouble. */
    lemma AloneFits(kv: KV)
      requires Ready()
      ensures !Overloaded(kv, NOBODY)
    {
      forall a | a in placed && a in loc
        ensures !Troubled(loc[a].1, a, placed[a], kv, NOBODY)
      {
        assert At(finger, loc, remote, placed, a);
        ContentsSize(placed[a]);
        assert [kv] + InRangeOf([], a) == [kv];
        PutAllBound(Contents(placed[a]), [kv]);
        InsertIfAbsentSize(Contents(placed[a]), kv.key, kv.value);
        PutAllAppend(Contents(placed[a]), [], kv);
      }
    }

    /** get. */
    method Get(key: Key, seen: seq<Placeholder>) returns (r: GetResult)
      requires Valid() && EMPTY < key
      requires forall i {:trigger seen[i]} :: 0 <= i < |seen| ==> Whole(seen[i])
      modifies buffer.Repr()
      ensures Valid() && (key in contents ==> r == Answer(Some(contents[key])))
      ensures (!remotePut || Reached(placed, key)) && key !in contents ==> r == Answer(None)
      ensures remotePut && !Reached(placed, key) ==> HeadAnswer(key, seen, r)
    {
      if !remotePut {
        var v := local.Get(key, contents);
        return Answer(v);
      }
      r := RemoteGet(key, seen);
    }

    /** A key that was not put before never breaks the ranges of the local stage. */
    lemma NewKeysNeverClash(key: Key)
      requires Valid() && !remotePut && key !in contents
      ensures !Stuck(key)
    {
    }

    predicate MayPut(kvs: seq<KV>) {
      forall i {:trigger kvs[i]} :: 0 <= i < |kvs| ==> EMPTY < kvs[i].key && finger(kvs[i].key) != 0
    }

    /** The calibration thread takes so many turns. */
    method Calibrations(turns: nat)
      requires Serving()
      modifies this`updateQueue, slist`currentLevel, slist`heights, slist`links, slist.nodes.Values`forwards
      ensures Serving() && contents == old(contents) && slist.nodes == old(slist.nodes)
      ensures updateQueue == if turns < old(|updateQueue|) then old(updateQueue)[turns..] else []
    {
      hide Serving;
      for i := 0 to turns
        invariant Serving() && contents == old(contents) && slist.nodes == old(slist.nodes)
        invariant updateQueue == if i < old(|updateQueue|) then old(updateQueue)[i..] else []
      {
        CalibrateOne();
      }
    }

    /** A put that keeps the ranges of the local stage, after some turns of the calibration thread. */
    method PutNext(kv: KV, level0: nat, level1: nat, turns: nat) returns (res: PutResult)
      requires Valid() && EMPTY < kv.key && finger(kv.key) != 0 && (remotePut || !local.Clash(kv.key))
      requires 1 <= level0 <= MAX_LEVEL && 1 <= level1 <= MAX_LEVEL
      modifies this, slist, slist.nodes.Values, buffer.Repr(), local.Repr()
      ensures Valid() && (old(remotePut) ==> remotePut)
      ensures res == Refused ==> contents == old(contents) && remotePut && !Reached(placed, kv.key)
      ensures res == Stored ==>
                contents == if kv.key in old(contents) then old(contents) else old(contents)[kv.key := kv.value]
      ensures forall o :: o in slist.nodes.Values ==> o in old(slist.nodes.Values) || fresh(o)
    {
      if remotePut {
        Calibrations(turns);
      }
      res := Put(kv, level0, level1);
    }

    /** The next key cannot be put: it is below every anchor of the remote store, or it is a key whose
        put would break the ranges of the local stage. */
    ghost predicate Stuck(key: Key)
      reads this, local
    {
      if remotePut then !Reached(placed, key) else local.Clash(key)
    }

    /** The records of a sequence one after the other, as far as they can be put. */
    method PutUntilStuck(kvs: seq<KV>, levels: seq<nat>, turns: seq<nat>) returns (n: nat)
      requires Valid() && MayPut(kvs) && |levels| == |kvs| + 1 && |turns| == |kvs|
      requires forall i {:trigger levels[i]} :: 0 <= i < |levels| ==> 1 <= levels[i] <= MAX_LEVEL
      modifies this, slist, slist.nodes.Values, buffer.Repr(), local.Repr()
      ensures Valid() && n <= |kvs| && contents == PutAll(old(contents), kvs[..n])
      ensures n < |kvs| ==> Stuck(kvs[n].key)
    {
      hide Valid, Reached, LocalNodes.Clash;
      n := 0;
      ghost var m0 := contents;
      while n < |kvs|
        invariant Valid() && n <= |kvs| && contents == PutAll(m0, kvs[..n])
        invariant forall o :: o in slist.nodes.Values ==> o in old(slist.nodes.Values) || fresh(o)
      {
        PutAllNext(m0, kvs, n);
        if !remotePut && local.Clash(kvs[n].key) {
          break;
        }
        var res := PutNext(kvs[n], levels[n], levels[n + 1], turns[n]);
        if res == Refused {
          break;
        }
        n := n + 1;
      }
    }

    /** A sequence of puts, the calibration thread getting turns in between, through the local stage,
        the flush, and every morph and split: the store is the map with the records inserted where
        absent, up to the first key that cannot be put.  A key that was there keeps its value, and any
        other has the value it was first put with. */
    method PutSequence(kvs: seq<KV>, levels: seq<nat>, turns: seq<nat>) returns (n: nat)
      requires Valid() && MayPut(kvs) && |levels| == |kvs| + 1 && |turns| == |kvs|
      requires forall i {:trigger levels[i]} :: 0 <= i < |levels| ==> 1 <= levels[i] <= MAX_LEVEL
      modifies this, slist, slist.nodes.Values, buffer.Repr(), local.Repr()
      ensures Valid() && n <= |kvs| && contents == PutAll(old(contents), kvs[..n])
      ensures forall k {:trigger k in contents} :: k in contents <==> k in old(contents) || Has(kvs[..n], k)
      ensures forall k {:trigger contents[k]} :: k in old(contents) ==> contents[k] == old(contents)[k]
      ensures forall i {:trigger kvs[i]} ::
                0 <= i < n && kvs[i].key !in old(contents) && !Has(kvs[..i], kvs[i].key) ==>
                  kvs[i].key in contents && contents[kvs[i].key] == kvs[i].value
      ensures n < |kvs| ==> Stuck(kvs[n].key)
    {
      hide Valid, MayPut, Stuck, PutAll;
      n := PutUntilStuck(kvs, levels, turns);
      FirstValues(old(contents), kvs, n);
    }
  }

  /** The store after n puts, key by key. */
  lemma FirstValues(m: map<Key, Value>, kvs: seq<KV>, n: nat)
    requires n <= |kvs|
    ensures forall k {:trigger k in PutAll(m, kvs[..n])} :: k in PutAll(m, kvs[..n]) <==> k in m || Has(kvs[..n], k)
    ensures forall k {:trigger PutAll(m, kvs[..n])[k]} :: k in m ==> PutAll(m, kvs[..n])[k] == m[k]
    ensures forall i {:trigger kvs[i]} :: 0 <= i < n && kvs[i].key !in m && !Has(kvs[..i], kvs[i].key) ==>
              kvs[i].key in PutAll(m, kvs[..n]) && PutAll(m, kvs[..n])[kvs[i].key] == kvs[i].value
  {
    PutAllMeans(m, kvs[..n]);
    forall i | 0 <= i < n && kvs[i].key !in m && !Has(kvs[..i], kvs[i].key)
      ensures kvs[i].key in PutAll(m, kvs[..n]) && PutAll(m, kvs[..n])[kvs[i].key] == kvs[i].value
    {
      assert kvs[..n][i] == kvs[i] && kvs[..n][..i] == kvs[..i];
    }
  }

  /** After n puts the store has the first n records. */
  lemma PutAllNext(m: map<Key, Value>, kvs: seq<KV>, n: nat)
    requires n < |kvs|
    ensures PutAll(m, kvs[..n + 1]) == InsertIfAbsent(PutAll(m, kvs[..n]), kvs[n].key, kvs[n].value)
  {
    PutAllAppend(m, kvs[..n], kvs[n]);
    assert kvs[..n + 1] == kvs[..n] + [kvs[n]];
  }

  /** The map m' has the keys of m with their values, the key of kv with its value unless m has that
      key, and otherwise the keys of the records served. */
  ghost predicate Extends(m: map<Key, Value>, kv: KV, served: seq<KV>, m': map<Key, Value>) {
    && (forall k {:trigger k in m'} :: k in m' <==> k in m || k == kv.key || Has(served, k))
    && (forall k {:trigger m'[k]} :: k in m ==> m'[k] == m[k])
    && (kv.key !in m ==> m'[kv.key] == kv.value)
    && (forall i {:trigger served[i]} ::
          0 <= i < |served| && served[i].key !in m && served[i].key != kv.key && !Has(served[..i], served[i].key) ==>
            m'[served[i].key] == served[i].value)
  }

  lemma BatchExtends(m: map<Key, Value>, kv: KV, served: seq<KV>)
    ensures Extends(m, kv, served, PutAll(m, [kv] + served))
  {
    var kvs := [kv] + served;
    PutAllMeans(m, kvs);
    assert kvs[0] == kv && kvs[..0] == [];
    forall k
      ensures Has(kvs, k) <==> k == kv.key || Has(served, k)
    {
      HasFirst(kv, served, k);
    }
    forall i | 0 <= i < |served| && served[i].key !in m && served[i].key != kv.key && !Has(served[..i], served[i].key)
      ensures served[i].key in PutAll(m, kvs) && PutAll(m, kvs)[served[i].key] == served[i].value
    {
      assert kvs[i + 1] == served[i] && kvs[..i + 1] == [kv] + served[..i];
      HasFirst(kv, served[..i], served[i].key);
    }
  }

  lemma HasFirst(kv: KV, kvs: seq<KV>, k: Key)
    ensures Has([kv] + kvs, k) <==> k == kv.key || Has(kvs, k)
  {
    assert ([kv] + kvs)[0] == kv;
    if Has(kvs, k) {
      var i :| 0 <= i < |kvs| && kvs[i].key == k;
      assert ([kv] + kvs)[i + 1].key == k;
    }
  }

  lemma NoneServed(m: map<Key, Value>, kv: KV, served: seq<KV>)
    requires multiset(served) <= multiset([])
    ensures PutAll(m, [kv] + served) == InsertIfAbsent(m, kv.key, kv.value)
  {
    assert |served| == |multiset(served)| == 0;
    PutAllAppend(m, [], kv);
    assert [kv] + served == [] + [kv];
  }
}
