/** The compute node's allocator: page mirrors, page groups, segments and the threads' groups
    (src/components/memory/compute_node). */
module Allocator {
  import opened Keys
  import opened Pages

  datatype Status = Ok | EmptyPage | EmptyPageGroup

  /** What a thread lacks to be served: nothing, new pages for the full ones of a class, or a group. */
  datatype Lack = Nothing | Pages(full: seq<bool>) | Group

  /** A page as the compute node sees it; its descriptor's fields are bytes. */
  class PageMirror {
    const pageBase: Address
    var emptySlots: nat
    var allocationClass: Class
    var offset: nat

    ghost predicate Sound()
      reads this
    {
      emptySlots < 256 && offset < 256 && (allocationClass == UNKNOWN ==> offset == 0)
    }

    constructor (base: Address)
      ensures pageBase == base && allocationClass == UNKNOWN && offset == 0 && Sound()
    {
      pageBase := base;
      emptySlots, allocationClass, offset := 0, UNKNOWN, 0;
    }

    method Initialize(ac: Class)
      requires ac != UNKNOWN
      modifies this
      ensures allocationClass == ac && offset == 0 && emptySlots == Slots(ac) % 256 && Sound()
    {
      allocationClass := ac;
      emptySlots := Slots(ac) % 256;
      offset := 0;
    }

    /** Whether another slot is left, as far as the byte can tell. */
    predicate Available()
      requires allocationClass != UNKNOWN
      reads this
    {
      offset < Slots(allocationClass)
    }

    /** A page of class ac without a slot left. */
    predicate Full(ac: Class)
      reads this
    {
      ac != UNKNOWN && allocationClass == ac && offset >= Slots(ac)
    }

    /** The next slot. */
    method Allocate() returns (p: Address)
      requires Sound() && allocationClass != UNKNOWN
      modifies this`offset, this`emptySlots
      ensures Sound() && p == SlotAddress(pageBase, old(offset), allocationClass) && offset == (old(offset) + 1) % 256
      ensures emptySlots == if old(emptySlots) == 0 then 255 else old(emptySlots) - 1
    {
      emptySlots := if emptySlots == 0 then 255 else emptySlots - 1;
      p := SlotAddress(pageBase, offset, allocationClass);
      offset := (offset + 1) % 256;
    }

    /** The first slot of a page that takes class ac. */
    method Begin(ac: Class) returns (p: Address)
      requires Sound() && allocationClass == UNKNOWN && ac != UNKNOWN
      modifies this
      ensures Sound() && allocationClass == ac && p == SlotAddress(pageBase, old(offset), ac) &&
              offset == old(offset) + 1
    {
      Initialize(ac);
      p := Allocate();
    }

    /** Up to n allocations from a new page, each after asking whether there is a slot left.  The page
        refuses one exactly if its slots have run out and its class is not the smallest, and hands an
        address out twice exactly if its class is the smallest and it is asked more than 256 times. */
    method AllocateMany(n: nat) returns (chunks: seq<Address>)
      requires Sound() && allocationClass != UNKNOWN && offset == 0
      modifies this
      ensures Sound() && allocationClass == old(allocationClass) &&
              chunks == HandedOut(pageBase, allocationClass, |chunks|)
      ensures |chunks| == if allocationClass != 0 && n > Slots(allocationClass) then Slots(allocationClass) else n
      ensures Repeats(chunks) <==> allocationClass == 0 && n > 256
    {
      chunks := [];
      ghost var c := allocationClass;
      SlotsBound(c);
      while |chunks| < n && Available()
        invariant Sound() && allocationClass == c && offset == |chunks| % 256
        invariant |chunks| <= n && (c != 0 ==> |chunks| <= Slots(c)) && chunks == HandedOut(pageBase, c, |chunks|)
      {
        var p := Allocate();
        chunks := chunks + [p];
      }
      RepeatsIff(pageBase, c, |chunks|);
    }
  }

  /** Pages of any class but the smallest have far fewer slots than a byte can count. */
  lemma SlotsBound(c: Class)
    requires c != UNKNOWN
    ensures if c == 0 then Slots(c) == 256 else 1 <= Slots(c) <= 128
  {
  }

  /** A new page that serves requests of one size hands an address out twice exactly if the size is
      at most 16 and it is asked more than 256 times. */
  method ServeRequests(base: Address, sz: nat, n: nat) returns (chunks: seq<Address>)
    requires 0 < sz <= PAGE
    ensures Repeats(chunks) <==> sz <= 16 && n > 256
  {
    ClassFits(sz);
    var page := new PageMirror(base);
    page.Initialize(GetClass(sz));
    chunks := page.AllocateMany(n);
  }

  /** A thread's pages. */
  class PageGroup {
    var pages: seq<PageMirror>

    constructor (pages: seq<PageMirror>)
      ensures this.pages == pages
    {
      this.pages := pages;
    }

    /** The page at i can serve class ac. */
    predicate Serves(i: nat, ac: Class)
      requires i < |pages| && ac != UNKNOWN
      reads this, pages
    {
      (pages[i].allocationClass == ac && pages[i].Available()) || pages[i].allocationClass == UNKNOWN
    }

    /** Ok if some page serves the class; otherwise whether some page of the class is full. */
    method Available(ac: Class) returns (status: Status)
      requires ac != UNKNOWN
      ensures status == Ok <==> exists i :: 0 <= i < |pages| && Serves(i, ac)
      ensures status == EmptyPage <==> status != Ok && exists i :: 0 <= i < |pages| && pages[i].allocationClass == ac
    {
      var haveAc := false;
      for i := 0 to |pages|
        invariant forall j :: 0 <= j < i ==> !Serves(j, ac)
        invariant haveAc <==> exists j :: 0 <= j < i && pages[j].allocationClass == ac
      {
        var p := pages[i];
        if p.allocationClass == UNKNOWN {
          assert Serves(i, ac);
          return Ok;
        }
        if p.allocationClass == ac {
          if p.Available() {
            assert Serves(i, ac);
            return Ok;
          }
          haveAc := true;
        }
      }
      return if haveAc then EmptyPage else EmptyPageGroup;
    }

    /** i is the first page that serves the class, if there is one. */
    ghost predicate First(i: nat, ac: Class)
      requires ac != UNKNOWN
      reads this, pages
    {
      && i <= |pages| && (i < |pages| ==> Serves(i, ac))
      && forall j {:trigger Serves(j, ac)} :: 0 <= j < i ==> !Serves(j, ac)
    }

    /** The first page that serves the class gives a chunk; a page without a class takes this one. */
    method Allocate(ac: Class, ghost first: nat) returns (p: Option<Address>)
      requires ac != UNKNOWN && First(first, ac) && (first < |pages| ==> pages[first].Sound())
      modifies if first < |pages| then {pages[first]} else {}
      ensures p.Some? <==> first < |pages|
      ensures p.Some? ==>
                var m := pages[first];
                && m.Sound() && m.allocationClass == ac && p.value == SlotAddress(m.pageBase, old(m.offset), ac)
                && m.offset == (old(m.offset) + 1) % 256
    {
      for n := 0 to |pages|
        invariant n <= first
        invariant First(first, ac) && (first < |pages| ==> unchanged(pages[first]))
      {
        var m := pages[n];
        if m.allocationClass == ac && m.Available() {
          assert Serves(n, ac);
          var chunk := m.Allocate();
          return Some(chunk);
        } else if m.allocationClass == UNKNOWN {
          assert Serves(n, ac);
          var chunk := m.Begin(ac);
          return Some(chunk);
        }
        assert !Serves(n, ac);
      }
      return None;
    }

    /** If some page serves the class, there is a first one. */
    lemma FirstServing(ac: Class) returns (i: nat)
      requires ac != UNKNOWN
      ensures First(i, ac)
    {
      i := 0;
      while i < |pages| && !Serves(i, ac)
        invariant i <= |pages| && forall j {:trigger Serves(j, ac)} :: 0 <= j < i ==> !Serves(j, ac)
      {
        i := i + 1;
      }
    }
  }

  /** Which pages are full and of class ac. */
  ghost function Fulls(pages: seq<PageMirror>, ac: Class): (full: seq<bool>)
    reads pages
    ensures |full| == |pages| && forall i {:trigger full[i]} :: 0 <= i < |pages| ==> full[i] == pages[i].Full(ac)
  {
    seq(|pages|, i requires 0 <= i < |pages| reads pages => pages[i].Full(ac))
  }

  /** How many of the pages are full. */
  ghost function Count(full: seq<bool>): (n: nat)
    ensures n <= |full|
  {
    if full == [] then 0 else Count(full[..|full| - 1]) + if full[|full| - 1] then 1 else 0
  }

  lemma CountNext(full: seq<bool>, i: nat)
    requires i < |full|
    ensures Count(full[..i + 1]) == Count(full[..i]) + if full[i] then 1 else 0
  {
    assert full[..i + 1][..i] == full[..i];
  }

  class Segment {
    const seg: Address
    const baseAddr: Address
    var offset: nat
    var availablePages: nat
    var mirrors: map<Address, PageMirror>

    /** The first page is not used. */
    constructor (seg: Address, base: Address, pages: nat)
      requires 1 <= pages
      ensures this.seg == seg && baseAddr == base && offset == 1 && availablePages == pages - 1 && mirrors == map[]
    {
      this.seg, baseAddr := seg, base;
      offset, availablePages, mirrors := 1, pages - 1, map[];
    }

    /** The next page, filed under its base address. */
    method Carve() returns (m: PageMirror)
      requires availablePages >= 1
      modifies this
      ensures fresh(m) && m.allocationClass == UNKNOWN && m.offset == 0 && m.Sound()
      ensures m.pageBase == seg + old(offset) * PAGE && mirrors == old(mirrors)[m.pageBase := m]
      ensures availablePages == old(availablePages) - 1 && offset == old(offset) + 1
    {
      var page := seg + offset * PAGE;
      m := new PageMirror(page);
      mirrors := mirrors[page := m];
      availablePages := availablePages - 1;
      offset := offset + 1;
    }
  }

  /** The page of mirror m is thread t's. */
  ghost predicate Owned(table: Table, mirror: map<Address, PageMirror>, m: PageMirror, t: Thread) {
    m.pageBase in table && m.pageBase in mirror && mirror[m.pageBase] == m && table[m.pageBase].owner == t
  }

  ghost predicate AllOwned(table: Table, mirror: map<Address, PageMirror>, pages: seq<PageMirror>, t: Thread) {
    forall i {:trigger pages[i]} :: 0 <= i < |pages| ==> Owned(table, mirror, pages[i], t)
  }

  ghost predicate Unclassed(table: Table, pages: seq<PageMirror>) {
    forall i {:trigger pages[i]} :: 0 <= i < |pages| ==>
        pages[i].pageBase in table && table[pages[i].pageBase].cls == UNKNOWN
  }

  /** A group gets a new page. */
  lemma GroupGrows(table: Table, mirror: map<Address, PageMirror>, pages: seq<PageMirror>, t: Thread,
                   b: Address, d: Desc, m: PageMirror)
    requires AllOwned(table, mirror, pages, t) && Unclassed(table, pages) && b !in table && m.pageBase == b &&
             d.owner == t
    requires d.cls == UNKNOWN && table.Keys == mirror.Keys
    ensures AllOwned(table[b := d], mirror[b := m], pages + [m], t) && Unclassed(table[b := d], pages + [m])
  {
  }

  /** Every page is still there, with the same mirror and in the same hands. */
  ghost predicate KeepsPages(table: Table, table': Table, mirror: map<Address, PageMirror>,
                             mirror': map<Address, PageMirror>) {
    && (forall b {:trigger b in table} :: b in table ==> b in table' && table'[b].owner == table[b].owner)
    && (forall b {:trigger b in mirror} :: b in mirror ==> b in mirror' && mirror'[b] == mirror[b])
  }

  lemma TableTwice(table: Table, b: Address, d: Desc, e: Desc)
    ensures table[b := d][b := e] == table[b := e] && table[b := d][b] == d
  {
  }

  lemma WithChunkKeeps(h: Books, b: Address, c: Class, mirror: map<Address, PageMirror>)
    requires b in h.table && c != UNKNOWN
    ensures KeepsPages(h.table, WithChunk(h, b, c).table, mirror, mirror)
  {
  }

  lemma KeepsTrans(table: Table, table1: Table, table2: Table, mirror: map<Address, PageMirror>,
                   mirror1: map<Address, PageMirror>, mirror2: map<Address, PageMirror>)
    requires KeepsPages(table, table1, mirror, mirror1) && KeepsPages(table1, table2, mirror1, mirror2)
    ensures KeepsPages(table, table2, mirror, mirror2)
  {
  }

  lemma GroupKept(table: Table, table': Table, mirror: map<Address, PageMirror>, mirror': map<Address, PageMirror>,
                  pages: seq<PageMirror>, t: Thread)
    requires AllOwned(table, mirror, pages, t) && KeepsPages(table, table', mirror, mirror')
    ensures AllOwned(table', mirror', pages, t)
  {
    forall i | 0 <= i < |pages|
      ensures Owned(table', mirror', pages[i], t)
    {
      assert Owned(table, mirror, pages[i], t);
    }
  }

  /** The segments of the compute node, with, as history, their pages and the chunks handed out. */
  class SegmentTracker {
    const segPages: nat
    var current: Segment?
    var segments: map<Address, Segment>

    ghost var hist: Books
    ghost var mirror: map<Address, PageMirror>

    /** The mirror of a page shows its descriptor. */
    ghost predicate MirrorOk(b: Address)
      requires b in hist.table && b in mirror
      reads this, mirror[b]
    {
      var m, d := mirror[b], hist.table[b];
      m.pageBase == b && m.Sound() && m.allocationClass == d.cls && m.offset == d.offset
    }

    /** A segment's used and available pages make up the whole of it. */
    ghost predicate SegmentOk(s: Address)
      requires s in segments && s in hist.used
      reads this, segments[s]
    {
      segments[s].seg == s && segments[s].offset == hist.used[s] &&
          segments[s].offset + segments[s].availablePages == segPages
    }

    /** A page's mirror is filed in the page's segment under its base address. */
    ghost predicate Filed(b: Address)
      requires b in hist.table && b in mirror
      reads this, segments.Values
    {
      var s := hist.table[b].home;
      s in segments && b in segments[s].mirrors && segments[s].mirrors[b] == mirror[b]
    }

    /** The objects are as the history says. */
    ghost predicate Mirrored()
      reads this, segments.Values, mirror.Values
    {
      && hist.pages == segPages && mirror.Keys == hist.table.Keys && segments.Keys == hist.used.Keys
      && (forall b {:trigger MirrorOk(b)} :: b in hist.table ==> MirrorOk(b))
      && (forall b {:trigger Filed(b)} :: b in hist.table ==> Filed(b))
      && (forall s {:trigger SegmentOk(s)} :: s in hist.used ==> SegmentOk(s))
      && (current != null ==> current.seg in segments && segments[current.seg] == current)
    }

    ghost predicate Valid()
      reads this, segments.Values, mirror.Values
    {
      Mirrored() && BooksOk(hist)
    }

    constructor (segPages: nat)
      ensures Valid() && this.segPages == segPages && current == null && hist == NoHistory(segPages)
    {
      this.segPages := segPages;
      current, segments := null, map[];
      hist, mirror := NoHistory(segPages), map[];
    }

    /** A new segment becomes the current one; what is left of the old one is not used any more. */
    method AssignNewSeg(seg: Address, base: Address)
      requires Valid() && seg % PAGE == 0 && seg !in hist.used && 1 <= segPages
      requires forall s {:trigger hist.used[s]} :: s in hist.used ==> SegmentsApart(s, seg, segPages)
      modifies this`current, this`segments, this`hist
      ensures Valid() && fresh(current) && current.seg == seg && current.availablePages == segPages - 1
      ensures segments == old(segments)[seg := current] && hist == WithSegment(old(hist), seg)
    {
      WithSegmentOk(hist, seg);
      FileSegment(seg, base);
    }

    method FileSegment(seg: Address, base: Address)
      requires Mirrored() && seg !in hist.used && 1 <= segPages
      modifies this`current, this`segments, this`hist
      ensures Mirrored() && fresh(current) && current.seg == seg && current.availablePages == segPages - 1
      ensures segments == old(segments)[seg := current] && hist == WithSegment(old(hist), seg)
    {
      current := new Segment(seg, base, segPages);
      segments := segments[seg := current];
      hist := WithSegment(hist, seg);
      forall b | b in hist.table
        ensures Filed(b) && MirrorOk(b)
      {
        assert old(Filed(b)) && old(MirrorOk(b));
      }
      forall s | s in hist.used
        ensures SegmentOk(s)
      {
        assert s != seg ==> old(SegmentOk(s));
      }
    }

    predicate Available(request: nat)
      reads this, current
    {
      current != null && current.availablePages >= request
    }

    /** The pages left in the current segment. */
    function Left(): nat
      reads this`current, current
    {
      if current == null then 0 else current.availablePages
    }

    /** The next page of the current segment, with a mirror of its own, for thread t. */
    method OfferPage(ghost t: Thread) returns (m: PageMirror)
      requires Valid() && current != null && current.availablePages >= 1
      modifies this`hist, this`mirror, current
      ensures Valid() && fresh(m) && m.pageBase !in old(hist).table
      ensures m.pageBase == PageAt(current.seg, old(current.offset))
      ensures hist.table == old(hist).table[m.pageBase := Desc(UNKNOWN, 0, current.seg, t)] &&
              hist.chunks == old(hist).chunks
      ensures mirror == old(mirror)[m.pageBase := m]
      ensures current.availablePages == old(current.availablePages) - 1
    {
      assert SegmentOk(current.seg);
      WithPageOk(hist, current.seg, t);
      m := FilePage(t);
    }

    /** A new page has been cut from the current segment, and the books follow. */
    twostate lemma PageFiled(new m: PageMirror, new t: Thread)
      requires old(Mirrored()) && old(current) != null && unchanged(`current) && unchanged(`segments)
      requires current.seg in old(hist).used && m.pageBase == PageAt(current.seg, old(hist).used[current.seg])
      requires m.pageBase !in old(hist).table && hist == WithPage(old(hist), current.seg, t)
      requires m.Sound() && m.allocationClass == UNKNOWN && m.offset == 0 && mirror == old(mirror)[m.pageBase := m]
      requires current.mirrors == old(current.mirrors)[m.pageBase := m]
      requires current.offset == old(current.offset) + 1 && current.availablePages == old(current.availablePages) - 1
      requires forall u {:trigger segments[u]} :: u in segments && segments[u] != current ==> unchanged(segments[u])
      requires forall b {:trigger old(mirror)[b]} :: b in old(mirror) ==> unchanged(old(mirror)[b])
      ensures Mirrored()
    {
      forall b | b in hist.table
        ensures MirrorOk(b)
      {
        assert b != m.pageBase ==> old(MirrorOk(b));
      }
      forall b | b in hist.table
        ensures Filed(b)
      {
        assert b != m.pageBase ==> old(Filed(b));
      }
      forall u | u in hist.used
        ensures SegmentOk(u)
      {
        assert old(SegmentOk(u)) && old(SegmentOk(current.seg));
      }
    }

    method FilePage(ghost t: Thread) returns (m: PageMirror)
      requires Mirrored() && current != null && current.availablePages >= 1
      requires current.seg in hist.used && PageAt(current.seg, hist.used[current.seg]) !in hist.table
      modifies this`hist, this`mirror, current
      ensures Mirrored() && fresh(m) && hist == WithPage(old(hist), current.seg, t)
      ensures m.pageBase == PageAt(current.seg, old(current.offset)) && mirror == old(mirror)[m.pageBase := m]
      ensures current.availablePages == old(current.availablePages) - 1
    {
      assert SegmentOk(current.seg);
      m := current.Carve();
      hist, mirror := WithPage(hist, current.seg, t), mirror[m.pageBase := m];
      hide Mirrored;
      PageFiled(m, t);
    }

    method OfferOneMore(ghost t: Thread, pages: seq<PageMirror>) returns (pages': seq<PageMirror>)
      requires Valid() && current != null && current.availablePages >= 1
      requires AllOwned(hist.table, mirror, pages, t) && Unclassed(hist.table, pages)
      modifies this`hist, this`mirror, current
      ensures Valid() && |pages'| == |pages| + 1 && AllOwned(hist.table, mirror, pages', t) &&
              Unclassed(hist.table, pages')
      ensures KeepsPages(old(hist).table, hist.table, old(mirror), mirror) && hist.chunks == old(hist).chunks
      ensures pages' == pages + [pages'[|pages|]] && fresh(pages'[|pages|])
      ensures current.availablePages == old(current.availablePages) - 1
    {
      hide BooksOk;
      ghost var table0, mirror0 := hist.table, mirror;
      var m := OfferPage(t);
      GroupGrows(table0, mirror0, pages, t, m.pageBase, hist.table[m.pageBase], m);
      pages' := pages + [m];
    }

    ghost predicate Offered(table0: Table, mirror0: map<Address, PageMirror>, chunks0: Chunks, pages: seq<PageMirror>,
                            t: Thread)
      reads this`hist, this`mirror
    {
      && AllOwned(hist.table, mirror, pages, t) && Unclassed(hist.table, pages)
      && KeepsPages(table0, hist.table, mirror0, mirror) && hist.chunks == chunks0
    }

    /** A run of pages of the current segment, all for thread t. */
    method OfferPageGroup(ghost t: Thread, groupNo: nat) returns (group: PageGroup)
      requires Valid() && current != null && current.availablePages >= groupNo
      modifies this`hist, this`mirror, current
      ensures Valid() && fresh(group) && |group.pages| == groupNo
      ensures AllOwned(hist.table, mirror, group.pages, t) && Unclassed(hist.table, group.pages)
      ensures KeepsPages(old(hist).table, hist.table, old(mirror), mirror) && hist.chunks == old(hist).chunks
      ensures forall i {:trigger group.pages[i]} :: 0 <= i < groupNo ==> fresh(group.pages[i])
      ensures current.availablePages == old(current.availablePages) - groupNo
    {
      hide BooksOk;
      var pages := [];
      ghost var table0, mirror0, chunks0, left := hist.table, mirror, hist.chunks, current.availablePages;
      for i := 0 to groupNo
        invariant Valid() && |pages| == i && left == current.availablePages + i
        invariant Offered(table0, mirror0, chunks0, pages, t)
        invariant forall j {:trigger pages[j]} :: 0 <= j < i ==> fresh(pages[j])
      {
        ghost var table1, mirror1 := hist.table, mirror;
        pages := OfferOneMore(t, pages);
        KeepsTrans(table0, table1, hist.table, mirror0, mirror1, mirror);
      }
      group := new PageGroup(pages);
    }

    /** One page's descriptor has changed, and its mirror with it. */
    twostate lemma StillMirrored(b: Address)
      requires old(Mirrored()) && b in hist.table && b in mirror && MirrorOk(b)
      requires hist.pages == old(hist).pages && hist.used == old(hist).used && b in old(hist).table
      requires hist.table == old(hist).table[b := hist.table[b]] && hist.table[b].home == old(hist).table[b].home
      requires unchanged(`segments) && unchanged(`current) && unchanged(`mirror)
      requires unchanged(old(segments.Values))
      requires forall c {:trigger mirror[c]} :: c in mirror && mirror[c] != mirror[b] ==> unchanged(mirror[c])
      ensures Mirrored()
    {
      forall c | c in hist.table
        ensures Filed(c)
      {
        assert old(Filed(c));
      }
      forall c | c in hist.table
        ensures MirrorOk(c)
      {
        assert old(MirrorOk(c)) && old(MirrorOk(b)) && mirror[c] in mirror.Values;
      }
      forall s | s in hist.used
        ensures SegmentOk(s)
      {
        assert old(SegmentOk(s));
      }
    }

    /** A page's mirror has given a chunk, and the books follow. */
    twostate lemma ChunkTaken(new b: Address, new ac: Class)
      requires old(Valid()) && b in old(hist).table && b in mirror && ac != UNKNOWN && ac != 0 &&
               Ready(old(hist).table[b], ac)
      requires hist == WithChunk(old(hist), b, ac) && MirrorOk(b)
      requires unchanged(`segments) && unchanged(`current) && unchanged(`mirror) && unchanged(old(segments.Values))
      requires forall c {:trigger mirror[c]} :: c in mirror && mirror[c] != mirror[b] ==> unchanged(mirror[c])
      ensures Valid() && ChunkAt(b, old(hist).table[b], ac) !in old(hist).chunks
    {
      WithChunkOk(old(hist), b, ac);
      StillMirrored(b);
    }

    /** A page's mirror gets a class, and its descriptor too. */
    method Classify(m: PageMirror, ac: Class)
      requires Mirrored() && m.pageBase in hist.table && mirror[m.pageBase] == m && ac != UNKNOWN
      modifies this`hist, m
      ensures Mirrored() && hist == WithClass(old(hist), m.pageBase, ac)
    {
      ghost var b := m.pageBase;
      assert MirrorOk(b);
      m.Initialize(ac);
      hist := WithClass(hist, b, ac);
      hide Mirrored;
      StillMirrored(b);
    }

    /** A page without a class gets one. */
    method GiveClass(m: PageMirror, ac: Class)
      requires Valid() && m.pageBase in hist.table && mirror[m.pageBase] == m
      requires hist.table[m.pageBase].cls == UNKNOWN && ac != UNKNOWN && ac != 0
      modifies this`hist, m
      ensures Valid() && hist.chunks == old(hist).chunks
      ensures var d := old(hist).table[m.pageBase];
              hist.table == old(hist).table[m.pageBase := Desc(ac, 0, d.home, d.owner)]
    {
      hide BooksOk, Mirrored;
      WithClassOk(hist, m.pageBase, ac);
      Classify(m, ac);
    }

    /** A new page for class ac. */
    method OfferClassPage(ghost t: Thread, ac: Class) returns (m: PageMirror)
      requires Valid() && current != null && current.availablePages >= 1 && ac != UNKNOWN && ac != 0
      modifies this`hist, this`mirror, current
      ensures Valid() && fresh(m) && m.pageBase !in old(hist.table) && hist.chunks == old(hist).chunks
      ensures hist.table == old(hist).table[m.pageBase := Desc(ac, 0, current.seg, t)]
      ensures mirror == old(mirror)[m.pageBase := m]
      ensures current.availablePages == old(current.availablePages) - 1
    {
      hide BooksOk;
      ghost var table0 := hist.table;
      m := OfferPage(t);
      TableTwice(table0, m.pageBase, Desc(UNKNOWN, 0, current.seg, t), Desc(ac, 0, current.seg, t));
      GiveClass(m, ac);
    }
  }

  /** What an allocation comes to: an exception for sizes that are no size of a chunk, the null
      pointer when there is no memory, or a chunk. */
  datatype Allocation = Invalid | NoMemory | Allocated(p: Address)

  class ComputeNodeAllocator {
    const tracker: SegmentTracker
    const groupNo: nat
    var threadInfo: map<Thread, PageGroup>

    /** A thread's group has its full number of pages, all of them its own. */
    ghost predicate GroupOk(t: Thread)
      requires t in threadInfo
      reads this, threadInfo[t], tracker`hist, tracker`mirror
    {
      |threadInfo[t].pages| == groupNo && AllOwned(tracker.hist.table, tracker.mirror, threadInfo[t].pages, t)
    }

    ghost predicate GroupsOk()
      reads this, tracker`hist, tracker`mirror, threadInfo.Values
    {
      && 1 <= groupNo && (forall t {:trigger GroupOk(t)} :: t in threadInfo ==> GroupOk(t))
      && (forall t, u {:trigger threadInfo[t], threadInfo[u]} ::
            t in threadInfo && u in threadInfo && t != u ==> threadInfo[t] != threadInfo[u])
    }

    ghost predicate Valid()
      reads this, tracker, tracker.segments.Values, tracker.mirror.Values, threadInfo.Values
    {
      tracker.Valid() && GroupsOk()
    }

    constructor (segPages: nat, groupNo: nat)
      requires 1 <= groupNo
      ensures Valid() && tracker.segPages == segPages && this.groupNo == groupNo
      ensures tracker.hist.chunks == map[] && threadInfo == map[] && !tracker.Available(0)
    {
      tracker := new SegmentTracker(segPages);
      this.groupNo := groupNo;
      threadInfo := map[];
    }

    /** No two threads share a page, so their allocations do not meet. */
    lemma GroupsApart(t: Thread, u: Thread, i: nat, j: nat)
      requires Valid() && t in threadInfo && u in threadInfo && t != u
      requires i < |threadInfo[t].pages| && j < |threadInfo[u].pages|
      ensures threadInfo[t].pages[i] != threadInfo[u].pages[j]
    {
      assert GroupOk(t) && GroupOk(u);
      assert Owned(tracker.hist.table, tracker.mirror, threadInfo[t].pages[i], t);
      assert Owned(tracker.hist.table, tracker.mirror, threadInfo[u].pages[j], u);
    }

    /** apply_for_memory. */
    method ApplyForMemory(seg: Address, base: Address)
      requires Valid() && seg % PAGE == 0 && seg !in tracker.hist.used && 1 <= tracker.segPages
      requires forall s {:trigger tracker.hist.used[s]} :: s in tracker.hist.used ==>
               SegmentsApart(s, seg, tracker.segPages)
      modifies tracker`current, tracker`segments, tracker`hist
      ensures Valid() && tracker.hist == WithSegment(old(tracker.hist), seg)
      ensures tracker.Available(tracker.segPages - 1) && fresh(tracker.current)
      ensures tracker.segments == old(tracker.segments)[seg := tracker.current]
    {
      tracker.AssignNewSeg(seg, base);
      forall t | t in threadInfo
        ensures GroupOk(t)
      {
        assert old(GroupOk(t));
      }
    }

    /** The pages of all groups survive a change of the books that keeps the pages. */
    twostate lemma GroupsKept()
      requires old(GroupsOk()) && unchanged(this) && unchanged(old(threadInfo.Values))
      requires KeepsPages(old(tracker.hist).table, tracker.hist.table, old(tracker.mirror), tracker.mirror)
      ensures GroupsOk()
    {
      forall t | t in threadInfo
        ensures GroupOk(t)
      {
        assert old(GroupOk(t));
        GroupKept(old(tracker.hist).table, tracker.hist.table, old(tracker.mirror), tracker.mirror,
            threadInfo[t].pages, t);
      }
    }

    /** The thread has a new group, all of new pages cut from the current segment; the groups of the
        other threads are theirs still. */
    twostate predicate GroupMade(new id: Thread)
      reads this, threadInfo.Values, tracker`current, tracker.current
    {
      && id in threadInfo && threadInfo == old(threadInfo)[id := threadInfo[id]]
      && fresh(threadInfo[id]) && |threadInfo[id].pages| == groupNo
      && (forall i {:trigger threadInfo[id].pages[i]} :: 0 <= i < groupNo ==> fresh(threadInfo[id].pages[i]))
      && tracker.current == old(tracker.current) && tracker.Left() + groupNo == old(tracker.Left())
    }

    /** A whole new group for a thread, if the current segment can supply one. */
    method Refill(id: Thread) returns (ok: bool)
      requires Valid()
      modifies this`threadInfo, tracker`hist, tracker`mirror, tracker.current
      ensures Valid() && ok == old(tracker.Available(groupNo)) && tracker.hist.chunks == old(tracker.hist).chunks
      ensures ok ==> GroupMade(id) && Unclassed(tracker.hist.table, threadInfo[id].pages)
      ensures !ok ==> unchanged(this) && unchanged(tracker)
    {
      if !tracker.Available(groupNo) {
        return false;
      }
      var group := tracker.OfferPageGroup(id, groupNo);
      GroupsKept();
      SetGroup(id, group);
      return true;
    }

    method SetGroup(id: Thread, group: PageGroup)
      requires Valid() && |group.pages| == groupNo && AllOwned(tracker.hist.table, tracker.mirror, group.pages, id)
      requires forall t :: t in threadInfo ==> threadInfo[t] != group
      modifies this`threadInfo
      ensures Valid() && threadInfo == old(threadInfo)[id := group]
    {
      threadInfo := threadInfo[id := group];
      forall t | t in threadInfo
        ensures GroupOk(t)
      {
        assert t != id ==> old(GroupOk(t));
      }
    }

    /** What the books say about a page of a group is what its mirror shows. */
    lemma PageShows(t: Thread, i: nat, ac: Class)
      requires Valid() && t in threadInfo && i < |threadInfo[t].pages| && ac != UNKNOWN
      ensures var m := threadInfo[t].pages[i];
              && m.pageBase in tracker.hist.table && m.pageBase in tracker.mirror && tracker.mirror[m.pageBase] == m
              && m.Sound() && m.allocationClass == tracker.hist.table[m.pageBase].cls
              && m.offset == tracker.hist.table[m.pageBase].offset
              && (threadInfo[t].Serves(i, ac) <==> Ready(tracker.hist.table[m.pageBase], ac))
              && Owned(tracker.hist.table, tracker.mirror, m, t)
    {
      assert GroupOk(t);
      assert Owned(tracker.hist.table, tracker.mirror, threadInfo[t].pages[i], t);
      assert tracker.MirrorOk(threadInfo[t].pages[i].pageBase);
    }

    /** A page of a group is replaced by a new one of class ac. */
    method ReplacePage(id: Thread, i: nat, ac: Class) returns (q: PageMirror)
      requires Valid() && id in threadInfo && i < |threadInfo[id].pages| && ac != UNKNOWN && ac != 0
      requires tracker.current != null && tracker.current.availablePages >= 1
      modifies threadInfo[id], tracker`hist, tracker`mirror, tracker.current
      ensures Valid() && tracker.hist.chunks == old(tracker.hist).chunks
      ensures tracker.current.availablePages == old(tracker.current.availablePages) - 1
      ensures fresh(q) && threadInfo[id].pages == old(threadInfo[id].pages)[i := q]
      ensures q.pageBase in tracker.hist.table && Ready(tracker.hist.table[q.pageBase], ac)
      ensures TableGrows(old(tracker.hist).table, tracker.hist.table)
    {
      hide BooksOk;
      q := tracker.OfferClassPage(id, ac);
      GroupsKept();
      PutPage(id, i, q);
    }

    method PutPage(id: Thread, i: nat, q: PageMirror)
      requires Valid() && id in threadInfo && i < |threadInfo[id].pages| &&
               Owned(tracker.hist.table, tracker.mirror, q, id)
      modifies threadInfo[id]
      ensures Valid() && threadInfo[id].pages == old(threadInfo[id].pages)[i := q]
    {
      var group := threadInfo[id];
      group.pages := group.pages[i := q];
      forall t | t in threadInfo
        ensures GroupOk(t)
      {
        assert old(GroupOk(t));
      }
    }

    /** One turn of refill_single_page: a full page of the class is replaced. */
    method RefreshPage(id: Thread, i: nat, ac: Class)
      requires Valid() && id in threadInfo && i < |threadInfo[id].pages| && ac != UNKNOWN && ac != 0
      requires tracker.current != null && tracker.current.availablePages >= 1
      modifies threadInfo[id], tracker`hist, tracker`mirror, tracker.current
      ensures Valid() && tracker.hist.chunks == old(tracker.hist).chunks
      ensures i < |threadInfo[id].pages| &&
              threadInfo[id].pages == old(threadInfo[id].pages)[i := threadInfo[id].pages[i]]
      ensures if old(threadInfo[id].pages[i].Full(ac)) then
                fresh(threadInfo[id].pages[i]) &&
                tracker.current.availablePages == old(tracker.current.availablePages) - 1
              else
                threadInfo[id].pages[i] == old(threadInfo[id].pages[i]) &&
                tracker.current.availablePages == old(tracker.current.availablePages)
      ensures TableGrows(old(tracker.hist).table, tracker.hist.table)
      ensures threadInfo[id].pages[i].pageBase in tracker.hist.table &&
              old(threadInfo[id].pages[i].pageBase in tracker.hist.table)
      ensures old(tracker.hist.table[threadInfo[id].pages[i].pageBase].cls) == ac ==>
                Ready(tracker.hist.table[threadInfo[id].pages[i].pageBase], ac)
      ensures tracker.current == old(tracker.current)
    {
      PageShows(id, i, ac);
      var p := threadInfo[id].pages[i];
      if p.allocationClass == ac && !p.Available() {
        p := ReplacePage(id, i, ac);
      }
    }

    method RefreshNext(id: Thread, i: nat, ac: Class, ghost table0: Table, ghost pages0: seq<PageMirror>,
                       ghost full: seq<bool>)
      requires Valid() && id in threadInfo && i < |threadInfo[id].pages| && ac != UNKNOWN && ac != 0
      requires tracker.current != null && tracker.current.availablePages >= 1
      requires |pages0| == |threadInfo[id].pages| &&
               Refreshing(table0, pages0, tracker.hist.table, threadInfo[id].pages, i, ac)
      requires |full| == |pages0| && full[i] == pages0[i].Full(ac)
      modifies threadInfo[id], tracker`hist, tracker`mirror, tracker.current
      ensures Valid() && tracker.hist.chunks == old(tracker.hist).chunks && tracker.current == old(tracker.current)
      ensures i < |threadInfo[id].pages| &&
              threadInfo[id].pages == old(threadInfo[id].pages)[i := threadInfo[id].pages[i]]
      ensures if full[i] then
                fresh(threadInfo[id].pages[i]) &&
                tracker.current.availablePages == old(tracker.current.availablePages) - 1
              else
                threadInfo[id].pages[i] == pages0[i] &&
                tracker.current.availablePages == old(tracker.current.availablePages)
      ensures Refreshing(table0, pages0, tracker.hist.table, threadInfo[id].pages, i + 1, ac)
    {
      ghost var pages1, table1 := threadInfo[id].pages, tracker.hist.table;
      RefreshPage(id, i, ac);
      RefreshedNext(table0, pages0, table1, pages1, tracker.hist.table, threadInfo[id].pages, i, ac);
    }

    /** Every full page of the class is replaced by a new one, and no other page; the check beforehand is for a whole
        group, so the segment does not run out on the way. */
    method RefillSinglePage(id: Thread, ac: Class) returns (ok: bool)
      requires Valid() && id in threadInfo && ac != UNKNOWN && ac != 0
      modifies threadInfo[id], tracker`hist, tracker`mirror, tracker.current
      ensures Valid() && ok == old(tracker.Available(groupNo)) && tracker.hist.chunks == old(tracker.hist).chunks
      ensures |threadInfo[id].pages| == |old(threadInfo[id].pages)|
      ensures ok ==> PagesReplaced(id, old(Fulls(threadInfo[id].pages, ac)))
      ensures ok ==> Refreshed(old(tracker.hist).table, old(threadInfo[id].pages), tracker.hist.table,
              threadInfo[id].pages, |threadInfo[id].pages|, ac)
      ensures !ok ==> unchanged(threadInfo[id]) && unchanged(tracker)
    {
      assert GroupOk(id);
      hide BooksOk, Valid, Refreshed, PagesReplaced;
      if !tracker.Available(groupNo) {
        return false;
      }
      ReplaceFull(id, ac, Fulls(threadInfo[id].pages, ac));
      return true;
    }

    /** The turns of refill_single_page, one for each page of the group. */
    method ReplaceFull(id: Thread, ac: Class, ghost full: seq<bool>)
      requires Valid() && id in threadInfo && ac != UNKNOWN && ac != 0
      requires tracker.Available(groupNo) && |threadInfo[id].pages| == groupNo
      requires full == Fulls(threadInfo[id].pages, ac)
      modifies threadInfo[id], tracker`hist, tracker`mirror, tracker.current
      ensures Valid() && tracker.hist.chunks == old(tracker.hist).chunks && tracker.current == old(tracker.current)
      ensures PagesReplaced(id, full) && |threadInfo[id].pages| == groupNo
      ensures Refreshed(old(tracker.hist).table, old(threadInfo[id].pages), tracker.hist.table, threadInfo[id].pages,
                        groupNo, ac)
    {
      hide BooksOk, Valid;
      var group := threadInfo[id];
      ghost var c: Segment, pages0, table0, chunks0, left := tracker.current, group.pages, tracker.hist.table,
          tracker.hist.chunks, tracker.current.availablePages;
      for i := 0 to groupNo
        invariant Valid() && tracker.current == c && |group.pages| == groupNo && tracker.hist.chunks == chunks0
        invariant c.availablePages == left - Count(full[..i])
        invariant Refreshing(table0, pages0, tracker.hist.table, group.pages, i, ac)
        invariant forall j {:trigger group.pages[j]} :: 0 <= j < i ==>
                  if full[j] then fresh(group.pages[j]) else group.pages[j] == pages0[j]
      {
        CountNext(full, i);
        RefreshNext(id, i, ac, table0, pages0, full);
      }
      assert full[..groupNo] == full;
    }

    /** The thread has its group still, with new pages in the place of the full ones, each cut from the
        current segment, and the other pages where they were. */
    twostate predicate PagesReplaced(new id: Thread, new full: seq<bool>)
      requires id in old(threadInfo)
      reads this, threadInfo.Values, tracker`current, tracker.current
    {
      && threadInfo == old(threadInfo) && |threadInfo[id].pages| == |old(threadInfo[id].pages)| == |full|
      && (forall i {:trigger threadInfo[id].pages[i]} :: 0 <= i < |full| ==>
            if full[i] then fresh(threadInfo[id].pages[i])
            else threadInfo[id].pages[i] == old(threadInfo[id].pages)[i])
      && tracker.current == old(tracker.current) && tracker.Left() + Count(full) == old(tracker.Left())
    }

    /** The thread has its group still, with the very same pages. */
    twostate predicate GroupStays(new id: Thread)
      requires id in old(threadInfo)
      reads this, threadInfo.Values, tracker`current, tracker.current
    {
      && threadInfo == old(threadInfo) && threadInfo[id].pages == old(threadInfo[id].pages)
      && tracker.current == old(tracker.current) && tracker.Left() == old(tracker.Left())
    }

    /** Some page of the thread's group is of class ac and has no slot left. */
    ghost predicate SomeFull(id: Thread, ac: Class)
      requires id in threadInfo
      reads this, threadInfo[id], threadInfo[id].pages
    {
      exists i :: 0 <= i < |threadInfo[id].pages| && threadInfo[id].pages[i].Full(ac)
    }

    /** Nothing is lacking if some page of the thread's group serves the class; otherwise new pages if
        some page of the class is full, and a whole group if none is or the thread has no group. */
    ghost function Lacks(id: Thread, ac: Class): Lack
      requires ac != UNKNOWN
      reads this, Footprint(id)
    {
      if id !in threadInfo then Group
      else if Served(id, ac) then Nothing
      else if SomeFull(id, ac) then Pages(Fulls(threadInfo[id].pages, ac))
      else Group
    }

    /** What a thread lacks, page by page. */
    lemma LackIs(id: Thread, ac: Class)
      requires Valid() && id in threadInfo && ac != UNKNOWN
      ensures |threadInfo[id].pages| == groupNo
      ensures Lacks(id, ac) == Nothing <==> exists i :: 0 <= i < groupNo && threadInfo[id].Serves(i, ac)
      ensures Lacks(id, ac).Pages? <==>
              (Lacks(id, ac) != Nothing &&
               exists i :: 0 <= i < groupNo && threadInfo[id].pages[i].allocationClass == ac)
      ensures Lacks(id, ac).Pages? ==>
                && |Lacks(id, ac).full| == groupNo
                && forall i {:trigger threadInfo[id].pages[i]} :: 0 <= i < groupNo ==>
                     (Lacks(id, ac).full[i] <==>
                       threadInfo[id].pages[i].allocationClass == ac &&
                       !threadInfo[id].pages[i].Available())
    {
      assert GroupOk(id);
      if !Served(id, ac) {
        forall i | 0 <= i < |threadInfo[id].pages| && threadInfo[id].pages[i].allocationClass == ac
          ensures threadInfo[id].pages[i].Full(ac)
        {
          assert !threadInfo[id].Serves(i, ac);
        }
      }
    }

    /** The thread has got what it lacked and no more. */
    twostate predicate Supplied(new id: Thread, new lack: Lack)
      requires !lack.Group? ==> id in old(threadInfo)
      reads this, threadInfo.Values, tracker`current, tracker.current
    {
      match lack
      case Nothing => GroupStays(id)
      case Pages(full) => PagesReplaced(id, full)
      case Group => GroupMade(id)
    }

    /** What that means: a group that serves the class stays as it is; one that does not, but has full
        pages of the class, keeps every other page, and the segment has one page less for each full one;
        and otherwise the segment has a group's pages less.  No other thread's group changes. */
    twostate lemma SuppliedMeans(new id: Thread, new ac: Class)
      requires ac != UNKNOWN && Supplied(id, old(Lacks(id, ac))) && id in threadInfo
      ensures forall u {:trigger threadInfo[u]} :: u != id ==>
                (u in threadInfo <==> u in old(threadInfo)) &&
                (u in threadInfo ==> threadInfo[u] == old(threadInfo[u]))
      ensures id in old(threadInfo) && old(Served(id, ac)) ==>
                threadInfo[id] == old(threadInfo[id]) && threadInfo[id].pages == old(threadInfo[id].pages)
      ensures id in old(threadInfo) && !old(Served(id, ac)) && old(SomeFull(id, ac)) ==>
                && threadInfo[id] == old(threadInfo[id]) && |threadInfo[id].pages| == |old(threadInfo[id].pages)|
                && (forall i {:trigger threadInfo[id].pages[i]} :: 0 <= i < |threadInfo[id].pages| ==>
                      if old(threadInfo[id].pages[i].Full(ac)) then fresh(threadInfo[id].pages[i])
                      else threadInfo[id].pages[i] == old(threadInfo[id].pages[i]))
                && tracker.Left() == old(tracker.Left()) - Count(old(Fulls(threadInfo[id].pages, ac)))
      ensures id !in old(threadInfo) || (!old(Served(id, ac)) && !old(SomeFull(id, ac))) ==>
                tracker.Left() == old(tracker.Left()) - groupNo
    {
    }

    /** Some page of the thread's group can serve the class. */
    ghost predicate Served(id: Thread, ac: Class)
      requires id in threadInfo && ac != UNKNOWN
      reads this, threadInfo[id], threadInfo[id].pages
    {
      exists i {:trigger threadInfo[id].Serves(i, ac)} :: 0 <= i < |threadInfo[id].pages| &&
          threadInfo[id].Serves(i, ac)
    }

    /** A new group serves any class. */
    method NewGroup(id: Thread, ac: Class) returns (ok: bool)
      requires Valid() && ac != UNKNOWN && Lacks(id, ac) == Group
      modifies this`threadInfo, tracker`hist, tracker`mirror, tracker.current
      ensures Valid() && ok == old(tracker.Available(groupNo)) && tracker.hist.chunks == old(tracker.hist).chunks
      ensures ok ==> Supplied(id, old(Lacks(id, ac))) && id in threadInfo && Served(id, ac)
      ensures !ok ==> unchanged(this) && unchanged(tracker)
    {
      ok := Refill(id);
      if ok {
        assert GroupOk(id);
        PageShows(id, 0, ac);
        assert threadInfo[id].Serves(0, ac);
      }
    }

    /** New pages for a class whose pages are full. */
    method NewPages(id: Thread, ac: Class) returns (ok: bool)
      requires Valid() && id in threadInfo && ac != UNKNOWN && ac != 0
      requires Lacks(id, ac).Pages?
      modifies threadInfo[id], tracker`hist, tracker`mirror, tracker.current
      ensures Valid() && ok == old(tracker.Available(groupNo)) && tracker.hist.chunks == old(tracker.hist).chunks
      ensures ok ==> Served(id, ac)
      ensures ok ==> Supplied(id, old(Lacks(id, ac)))
      ensures !ok ==> unchanged(tracker) && unchanged(threadInfo[id])
    {
      ghost var i :| 0 <= i < |threadInfo[id].pages| && threadInfo[id].pages[i].Full(ac);
      PageShows(id, i, ac);
      ghost var table0, pages0 := tracker.hist.table, threadInfo[id].pages;
      assert OfClass(table0, pages0, i, ac);
      ok := RefillSinglePage(id, ac);
      if ok {
        assert Refreshed(table0, pages0, tracker.hist.table, threadInfo[id].pages, |pages0|, ac);
        PageShows(id, i, ac);
        assert threadInfo[id].Serves(i, ac);
      }
    }

    /** Everything but page m and the books is as before. */
    twostate predicate OnlyTook(m: PageMirror)
      reads this, threadInfo.Values, tracker, tracker.segments.Values, tracker.mirror.Values
    {
      && unchanged(this) && unchanged(tracker`segments) && unchanged(tracker`current) && unchanged(tracker`mirror)
      && unchanged(threadInfo.Values) && unchanged(tracker.segments.Values)
      && (forall c {:trigger tracker.mirror[c]} :: c in tracker.mirror && tracker.mirror[c] != m ==>
          unchanged(tracker.mirror[c]))
    }

    /** The page m of the group has given its next chunk p, and the books follow. */
    twostate predicate Gave(id: Thread, m: PageMirror, ac: Class, p: Address)
      requires ac != UNKNOWN
      reads this, threadInfo.Values, tracker, tracker.segments.Values, tracker.mirror.Values, m
    {
      && OnlyTook(m) && m.Sound() && m.allocationClass == ac
      && m.offset == (old(m.offset) + 1) % 256 && p == SlotAddress(m.pageBase, old(m.offset), ac)
      && m.pageBase in old(tracker.hist).table && tracker.hist == WithChunk(old(tracker.hist), m.pageBase, ac)
    }

    twostate lemma GaveBooks(new id: Thread, m: PageMirror, new ac: Class, new p: Address)
      requires old(Valid()) && ac != UNKNOWN && ac != 0 && Gave(id, m, ac, p)
      requires Owned(old(tracker.hist).table, old(tracker.mirror), m, id) &&
               Ready(old(tracker.hist).table[m.pageBase], ac)
      ensures tracker.Valid() && ChunkAt(m.pageBase, old(tracker.hist).table[m.pageBase], ac) == p &&
              p !in old(tracker.hist).chunks
    {
      hide BooksOk;
      assert old(tracker.MirrorOk(m.pageBase)) && tracker.mirror[m.pageBase] == m;
      NoWrap(old(tracker.hist), m.pageBase, ac);
      assert tracker.MirrorOk(m.pageBase);
      tracker.ChunkTaken(m.pageBase, ac);
    }

    twostate lemma Taken(new id: Thread, m: PageMirror, new ac: Class, new p: Address)
      requires old(Valid()) && ac != UNKNOWN && ac != 0 && Gave(id, m, ac, p)
      requires Owned(old(tracker.hist).table, old(tracker.mirror), m, id) &&
               Ready(old(tracker.hist).table[m.pageBase], ac)
      ensures Valid() && Grants(old(tracker.hist), tracker.hist, id, ac, p)
    {
      GaveBooks(id, m, ac, p);
      WithChunkGrants(old(tracker.hist), m.pageBase, ac);
      WithChunkKeeps(old(tracker.hist), m.pageBase, ac, tracker.mirror);
      GroupsKept();
    }

    /** The page that serves the class gives a chunk. */
    method TakeFrom(id: Thread, ac: Class, ghost i: nat) returns (p: Address)
      requires id in threadInfo && ac != UNKNOWN && i < |threadInfo[id].pages| && threadInfo[id].First(i, ac)
      requires threadInfo[id].pages[i].Sound()
      modifies threadInfo[id].pages[i]
      ensures var m := threadInfo[id].pages[i];
              && m.Sound() && m.allocationClass == ac && p == SlotAddress(m.pageBase, old(m.offset), ac)
              && m.offset == (old(m.offset) + 1) % 256 && OnlyTook(m)
    {
      var chunk := threadInfo[id].Allocate(ac, i);
      p := chunk.value;
    }

    /** A chunk from a group that can serve the class: one that was not handed out before, from a page
        of the thread itself. */
    method TakeChunk(id: Thread, ac: Class, ghost i: nat) returns (p: Address)
      requires Valid() && id in threadInfo && ac != UNKNOWN && ac != 0
      requires i < |threadInfo[id].pages| && threadInfo[id].First(i, ac)
      modifies threadInfo[id].pages[i], tracker`hist
      ensures Valid() && Grants(old(tracker.hist), tracker.hist, id, ac, p)
      ensures tracker.hist.chunks[p].page == threadInfo[id].pages[i].pageBase
      ensures unchanged(this) && unchanged(threadInfo.Values) && unchanged(tracker`current)
    {
      hide BooksOk;
      PageShows(id, i, ac);
      p := TakeFrom(id, ac, i);
      tracker.hist := WithChunk(tracker.hist, threadInfo[id].pages[i].pageBase, ac);
      Taken(id, threadInfo[id].pages[i], ac, p);
    }

    /** A chunk from the first page that can serve the class. */
    method TakeFirst(id: Thread, ac: Class) returns (p: Address, ghost i: nat)
      requires Valid() && id in threadInfo && ac != UNKNOWN && ac != 0 && Served(id, ac)
      modifies threadInfo[id].pages, tracker`hist
      ensures Valid() && Grants(old(tracker.hist), tracker.hist, id, ac, p)
      ensures i < |threadInfo[id].pages| && old(threadInfo[id].First(i, ac)) &&
              tracker.hist.chunks[p].page == threadInfo[id].pages[i].pageBase
      ensures unchanged(this) && unchanged(threadInfo.Values) && unchanged(tracker`current)
      ensures tracker.current != null ==> unchanged(tracker.current)
    {
      i := threadInfo[id].FirstServing(ac);
      assert i < |threadInfo[id].pages| && threadInfo[id].pages[i] in threadInfo[id].pages;
      hide *;
      p := TakeChunk(id, ac, i);
    }

    /** The objects of thread id. */
    ghost function Footprint(id: Thread): set<object>
      reads this, if id in threadInfo then {threadInfo[id]} else {}
    {
      if id in threadInfo then {threadInfo[id]} + set m: PageMirror | m in threadInfo[id].pages else {}
    }

    /** Asking a thread's group for a page tells what it lacks. */
    method Ask(id: Thread, ac: Class) returns (status: Status)
      requires Valid() && id in threadInfo && ac != UNKNOWN
      ensures Valid() && Lacks(id, ac) == old(Lacks(id, ac))
      ensures match Lacks(id, ac)
              case Nothing => status == Ok
              case Pages(_) => status == EmptyPage
              case Group => status == EmptyPageGroup
    {
      status := threadInfo[id].Available(ac);
      LackIs(id, ac);
    }

    /** A group that can serve the class, made if need be: the current one, one with new pages for a
        class whose pages are full, or a new one. */
    method EnsureServed(id: Thread, ac: Class) returns (ok: bool)
      requires Valid() && id in threadInfo && ac != UNKNOWN && ac != 0
      modifies this`threadInfo, threadInfo[id], tracker`hist, tracker`mirror, tracker.current
      ensures Valid() && tracker.hist.chunks == old(tracker.hist).chunks
      ensures ok ==> id in threadInfo && Served(id, ac) && Supplied(id, old(Lacks(id, ac)))
      ensures old(Lacks(id, ac)) == Nothing ==> ok && unchanged(this) && unchanged(tracker)
      ensures !ok ==> unchanged(tracker) && unchanged(this) && unchanged(threadInfo[id])
      ensures ok <==> old(Lacks(id, ac)) == Nothing || old(tracker.Available(groupNo))
    {
      var status := Ask(id, ac);
      match status {
        case Ok => ok := true;
        case EmptyPage => ok := NewPages(id, ac);
        case EmptyPageGroup => ok := NewGroup(id, ac);
      }
    }

    /** A thread that has no group yet gets one first. */
    method Obtain(id: Thread, ac: Class) returns (ok: bool)
      requires Valid() && ac != UNKNOWN && ac != 0
      modifies this`threadInfo, Footprint(id), tracker`hist, tracker`mirror, tracker.current
      ensures Valid() && tracker.hist.chunks == old(tracker.hist).chunks
      ensures ok <==> old(Lacks(id, ac)) == Nothing || old(tracker.Available(groupNo))
      ensures ok ==> id in threadInfo && Served(id, ac) && Supplied(id, old(Lacks(id, ac)))
      ensures !ok ==> unchanged(tracker) && unchanged(this) && (id in threadInfo ==> unchanged(threadInfo[id]))
      ensures ok ==> forall m :: m in threadInfo[id].pages ==> m in old(Footprint(id)) || fresh(m)
    {
      if id !in threadInfo {
        ok := NewGroup(id, ac);
        if !ok {
          return;
        }
      }
      ok := EnsureServed(id, ac);
    }

    /** allocate.  Sizes up to 16 are left out: their pages never look full.  Otherwise a size that a
        chunk can have gets a chunk exactly if the thread's group can serve its class or the current
        segment can supply a group. */
    method Allocate(id: Thread, sz: nat) returns (r: Allocation)
      requires Valid() && (sz == 0 || sz > 16)
      modifies this`threadInfo, Footprint(id), tracker`hist, tracker`mirror, tracker.current
      ensures Valid() && (r == Invalid <==> sz == 0 || sz > PAGE)
      ensures r.Allocated? ==> Grants(old(tracker.hist), tracker.hist, id, GetClass(sz), r.p)
      ensures r.Allocated? ==> Supplied(id, old(Lacks(id, GetClass(sz))))
      ensures !r.Allocated? ==>
              unchanged(tracker) && unchanged(this) &&
              (id in threadInfo ==> unchanged(threadInfo[id]))
      ensures r != Invalid ==>
                (r.Allocated? <==> old(Lacks(id, GetClass(sz))) == Nothing || old(tracker.Available(groupNo)))
    {
      if sz == 0 || sz > PAGE {
        return Invalid;
      }
      ClassFits(sz);
      hide *;
      var ac := GetClass(sz);
      var ok := Obtain(id, ac);
      if !ok {
        return NoMemory;
      }
      ghost var hist := tracker.hist;
      var p, _ := TakeFirst(id, ac);
      GrantsFrom(old(tracker.hist), hist, tracker.hist, id, ac, p);
      return Allocated(p);
    }

    /** The compute node's allocate: a segment is asked for if need be, and then there is a chunk. */
    method AllocateOrGrow(id: Thread, sz: nat, seg: Address, base: Address) returns (r: Allocation)
      requires Valid() && (sz == 0 || sz > 16) && groupNo < tracker.segPages
      requires seg % PAGE == 0 && seg !in tracker.hist.used
      requires forall s {:trigger tracker.hist.used[s]} :: s in tracker.hist.used ==>
               SegmentsApart(s, seg, tracker.segPages)
      modifies this`threadInfo, Footprint(id), tracker, tracker.current
      ensures Valid() && (r == Invalid <==> sz == 0 || sz > PAGE) && (r != Invalid <==> r.Allocated?)
      ensures r.Allocated? ==> Grants(old(tracker.hist), tracker.hist, id, GetClass(sz), r.p)
      ensures r == Invalid ==> unchanged(this) && unchanged(tracker)
      ensures r != Invalid ==>
                if old(Lacks(id, GetClass(sz))) == Nothing || old(tracker.Available(groupNo)) then
                  Supplied(id, old(Lacks(id, GetClass(sz)))) && unchanged(tracker`segments)
                else
                  fresh(tracker.current) && tracker.segments == old(tracker.segments)[seg := tracker.current]
    {
      hide Valid, Supplied, Grants, Served, GetClass, SegmentsApart;
      r := Allocate(id, sz);
      if r == NoMemory {
        ApplyForMemory(seg, base);
        assert Footprint(id) == old(Footprint(id));
        ghost var hist := tracker.hist;
        r := Allocate(id, sz);
        GrantsFrom(old(tracker.hist), hist, tracker.hist, id, GetClass(sz), r.p);
      }
    }

    /** The pages of a segment are conserved: what is used and what is left make up the whole. */
    lemma PagesConserved(s: Address)
      requires Valid() && s in tracker.segments
      ensures tracker.segments[s].offset + tracker.segments[s].availablePages == tracker.segPages
      ensures tracker.segments[s].offset >= 1
    {
      assert tracker.SegmentOk(s);
    }

    /** The page of a chunk is the key under which the mirror that produced it is filed. */
    lemma ChunkFound(p: Address)
      requires Valid() && p in tracker.hist.chunks
      ensures exists s {:trigger tracker.segments[s]} ::
              s in tracker.segments &&
              PageOf(p) in tracker.segments[s].mirrors &&
                tracker.segments[s].mirrors[PageOf(p)].pageBase == PageOf(p) && s + PAGE <= PageOf(p) &&
                    p < s + tracker.segPages * PAGE
    {
      ChunksSound(tracker.hist, p);
      var b := PageOf(p);
      assert tracker.Filed(b) && tracker.MirrorOk(b);
      assert tracker.hist.table[b].home in tracker.segments;
    }
  }

  /** By the books, page j of a group is of class ac. */
  ghost predicate OfClass(table: Table, pages: seq<PageMirror>, j: nat, ac: Class)
    requires j < |pages|
  {
    pages[j].pageBase in table && table[pages[j].pageBase].cls == ac
  }

  /** Where there was a page of class ac there is now one that can serve it. */
  ghost predicate Refreshed(table0: Table, pages0: seq<PageMirror>, table: Table, pages: seq<PageMirror>, n: nat,
                            ac: Class)
    requires n <= |pages0| && |pages0| == |pages| && ac != UNKNOWN
  {
    forall j {:trigger OfClass(table0, pages0, j, ac)} :: 0 <= j < n && OfClass(table0, pages0, j, ac) ==>
      pages[j].pageBase in table && Ready(table[pages[j].pageBase], ac)
  }

  /** n pages have been looked at. */
  ghost predicate Refreshing(table0: Table, pages0: seq<PageMirror>, table: Table, pages: seq<PageMirror>, n: nat,
                             ac: Class)
    requires n <= |pages0| && |pages0| == |pages| && ac != UNKNOWN
  {
    Refreshed(table0, pages0, table, pages, n, ac) && TableGrows(table0, table) && pages[n..] == pages0[n..]
  }

  lemma RefreshedNext(table0: Table, pages0: seq<PageMirror>, table1: Table, pages1: seq<PageMirror>,
                      table2: Table, pages2: seq<PageMirror>, i: nat, ac: Class)
    requires i < |pages0| && |pages0| == |pages1| == |pages2| && ac != UNKNOWN
    requires Refreshing(table0, pages0, table1, pages1, i, ac) && TableGrows(table1, table2)
    requires pages2 == pages1[i := pages2[i]] && pages1[i].pageBase in table1 && pages2[i].pageBase in table2
    requires table1[pages1[i].pageBase].cls == ac ==> Ready(table2[pages2[i].pageBase], ac)
    ensures Refreshing(table0, pages0, table2, pages2, i + 1, ac) && pages1[i] == pages0[i]
  {
    assert pages1[i] == pages0[i] by {
      assert pages1[i..][0] == pages0[i..][0];
    }
    forall j | i + 1 <= j < |pages0|
      ensures pages2[j] == pages0[j]
    {
      assert pages1[i..][j - i] == pages0[i..][j - i];
    }
  }

  /** No descriptor of an old page changes. */
  ghost predicate TableGrows(table: Table, table': Table) {
    forall b {:trigger b in table} :: b in table ==> b in table' && table'[b] == table[b]
  }
}
