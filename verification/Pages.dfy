/** Pages, chunks and segments as values: what the compute node's allocator has handed out
    (src/components/memory/compute_node). */
module Pages {

  /** MEMORY_PAGE_SIZE. */
  const PAGE: nat := 4096

  type Address = nat

  /** AllocationClass, as its number; UNKNOWN is ChunkUnknown. */
  type Class = c: nat | c <= 9

  const UNKNOWN: Class := 9

  /** allocation_class_size_map. */
  function Size(c: Class): (size: nat)
    requires c != UNKNOWN
    ensures 16 <= size <= PAGE
  {
    match c
    case 0 => 16
    case 1 => 32
    case 2 => 64
    case 3 => 128
    case 4 => 256
    case 5 => 512
    case 6 => 1024
    case 7 => 2048
    case 8 => 4096
  }

  /** MEMORY_PAGE_SIZE divided by the size of a class. */
  function Slots(c: Class): (n: nat)
    requires c != UNKNOWN
    ensures 1 <= n <= 256 && (n == 256 <==> c == 0)
  {
    match c
    case 0 => 256
    case 1 => 128
    case 2 => 64
    case 3 => 32
    case 4 => 16
    case 5 => 8
    case 6 => 4
    case 7 => 2
    case 8 => 1
  }

  /** The chunks of a class in a page fill it exactly. */
  lemma SlotsFill(c: Class)
    requires c != UNKNOWN
    ensures Slots(c) * Size(c) == PAGE && Slots(c) == PAGE / Size(c)
  {
    assert c == 0 || c == 1 || c == 2 || c == 3 || c == 4 || c == 5 || c == 6 || c == 7 || c == 8;
  }

  /** Where the slots of a page lie: slot n at b + n * size. */
  function SlotAddress(b: Address, slot: nat, c: Class): (p: Address)
    requires c != UNKNOWN
  {
    if slot == 0 then b else SlotAddress(b, slot - 1, c) + Size(c)
  }

  lemma {:induction false} SlotAddressIs(b: Address, slot: nat, c: Class)
    requires c != UNKNOWN
    ensures SlotAddress(b, slot, c) == b + slot * Size(c)
  {
    if slot > 0 {
      SlotAddressIs(b, slot - 1, c);
      assert slot * Size(c) == (slot - 1) * Size(c) + Size(c);
    }
  }

  /** Slots lie one behind the other. */
  lemma {:induction false} SlotStep(b: Address, i: nat, j: nat, c: Class)
    requires c != UNKNOWN && i < j
    ensures SlotAddress(b, i, c) + Size(c) <= SlotAddress(b, j, c)
  {
    if i < j - 1 {
      SlotStep(b, i, j - 1, c);
    }
  }

  // ---------------------------------------------------------------- get_class

  function Pow2(n: nat): (p: nat)
    ensures p > 0
  {
    if n == 0 then 1 else 2 * Pow2(n - 1)
  }

  /** 63 - __builtin_clzll(x). */
  function FloorLog2(x: nat): (n: nat)
    requires x > 0
    ensures Pow2(n) <= x < 2 * Pow2(n)
  {
    if x == 1 then 0 else FloorLog2(x / 2) + 1
  }

  function Times(sz: nat): (t: nat)
    requires 0 < sz
    ensures 16 * t - 16 < sz <= 16 * t
  {
    (sz - 1) / 16 + 1
  }

  lemma {:induction false} Pow2Monotone(a: nat, b: nat)
    requires a <= b
    ensures Pow2(a) <= Pow2(b)
  {
    if a < b {
      Pow2Monotone(a, b - 1);
    }
  }

  /** get_class, for the sizes it accepts. */
  function GetClass(sz: nat): (c: Class)
    requires 0 < sz <= PAGE
    ensures c != UNKNOWN
  {
    var times := Times(sz);
    var ct := FloorLog2(times);
    ClassInRange(times);
    ct + if times > Pow2(ct) then 1 else 0
  }

  lemma ClassInRange(times: nat)
    requires 0 < times <= 256
    ensures FloorLog2(times) + (if times > Pow2(FloorLog2(times)) then 1 else 0) <= 8
  {
    var n := FloorLog2(times);
    assert Pow2(8) == 256 && Pow2(9) == 512;
    if n >= 8 {
      Pow2Monotone(8, n);
    }
    if n >= 9 {
      Pow2Monotone(9, n);
    }
  }

  lemma SizeIsPow2(c: Class)
    requires c != UNKNOWN
    ensures Size(c) == 16 * Pow2(c)
  {
    assert Pow2(0) == 1 && Pow2(1) == 2 && Pow2(2) == 4 && Pow2(3) == 8 && Pow2(4) == 16;
    assert Pow2(5) == 32 && Pow2(6) == 64 && Pow2(7) == 128 && Pow2(8) == 256;
  }

  /** The chunk is large enough and, for requests above 8 bytes, wastes less than half of itself; only
      requests of up to 16 bytes get the smallest class. */
  lemma ClassFits(sz: nat)
    requires 0 < sz <= PAGE
    ensures sz <= Size(GetClass(sz)) && (sz > 8 <==> Size(GetClass(sz)) < 2 * sz)
    ensures GetClass(sz) == 0 <==> sz <= 16
  {
    SizeIsPow2(GetClass(sz));
  }

  // ---------------------------------------------------------------- what has been handed out

  type Thread = nat

  /** A page: its descriptor's class and offset, and, as history, its segment and the thread it was
      given to. */
  datatype Desc = Desc(cls: Class, offset: nat, home: Address, owner: Thread)

  /** The pages by base address, the pages used of each segment, and the chunks handed out, each with
      its page and its slot in it. */
  type Table = map<Address, Desc>
  type Used = map<Address, nat>
  datatype Chunk = Chunk(page: Address, slot: nat, size: nat)
  type Chunks = map<Address, Chunk>

  function PageOf(p: Address): (b: Address)
    ensures b <= p < b + PAGE
  {
    p - p % PAGE
  }

  /** Offsets stay within the page; no page is of the smallest class. */
  ghost predicate DescOk(d: Desc) {
    && d.cls != 0 && (d.cls == UNKNOWN ==> d.offset == 0)
    && (d.cls != UNKNOWN ==> d.offset <= Slots(d.cls))
  }

  /** A page lies in the used part of its segment, behind the segment's first page. */
  ghost predicate PlaceOk(b: Address, d: Desc, used: Used) {
    && d.home in used && b % PAGE == 0 && d.home % PAGE == 0
    && d.home < b && b < d.home + used[d.home] * PAGE
  }

  ghost predicate TableOk(table: Table, used: Used) {
    forall b {:trigger table[b]} :: b in table ==> DescOk(table[b]) && PlaceOk(b, table[b], used)
  }

  /** Segments are aligned and disjoint; some pages of each are used, the first one from the start. */
  ghost predicate UsedOk(used: Used, pages: nat) {
    && (forall s {:trigger used[s]} :: s in used ==> s % PAGE == 0 && 1 <= used[s] <= pages)
    && (forall s, u {:trigger used[s], used[u]} :: s in used && u in used && s != u ==> SegmentsApart(s, u, pages))
  }

  ghost predicate SegmentsApart(s: Address, u: Address, pages: nat) {
    s + pages * PAGE <= u || u + pages * PAGE <= s
  }

  ghost predicate ChunkOk(table: Table, p: Address, c: Chunk) {
    && c.page in table && table[c.page].cls != UNKNOWN && c.size == Size(table[c.page].cls)
    && c.slot < table[c.page].offset && p == SlotAddress(c.page, c.slot, table[c.page].cls)
  }

  ghost predicate ChunksOk(table: Table, chunks: Chunks) {
    forall p {:trigger chunks[p]} :: p in chunks ==> ChunkOk(table, p, chunks[p])
  }

  lemma SlotsInPage(b: Address, d: Desc, slot: nat)
    requires DescOk(d) && d.cls != UNKNOWN && slot < d.offset
    ensures b <= SlotAddress(b, slot, d.cls) && SlotAddress(b, slot, d.cls) + Size(d.cls) <= b + PAGE
  {
    SlotsFill(d.cls);
    SlotAddressIs(b, Slots(d.cls), d.cls);
    SlotAddressIs(b, slot, d.cls);
    SlotStep(b, slot, Slots(d.cls), d.cls);
  }

  /** A chunk lies inside one page, whose base page() recovers from it; the page lies behind the
      first page of its segment. */
  lemma ChunkInPage(table: Table, used: Used, chunks: Chunks, p: Address)
    requires TableOk(table, used) && ChunksOk(table, chunks) && p in chunks
    ensures var c := chunks[p];
            && c.page in table && c.page <= p && p + c.size <= c.page + PAGE && PageOf(p) == c.page
            && table[c.page].home in used && table[c.page].home + PAGE <= c.page
            && c.page + PAGE <= table[c.page].home + used[table[c.page].home] * PAGE
  {
    var c := chunks[p];
    var d := table[c.page];
    SlotsInPage(c.page, d, c.slot);
    PagesStep(d.home, c.page);
    PagesStep(c.page, d.home + used[d.home] * PAGE);
    Aligned(c.page, p);
  }

  /** Two different page bases are a page apart. */
  lemma PagesStep(a: Address, b: Address)
    requires a % PAGE == 0 && b % PAGE == 0 && a < b
    ensures a + PAGE <= b
  {
  }

  lemma Aligned(b: Address, p: Address)
    requires b % PAGE == 0 && b <= p < b + PAGE
    ensures PageOf(p) == b
  {
  }

  /** All chunks are pairwise disjoint. */
  lemma ChunksApart(table: Table, used: Used, chunks: Chunks, p: Address, q: Address)
    requires TableOk(table, used) && ChunksOk(table, chunks) && p in chunks && q in chunks && p != q
    ensures p + chunks[p].size <= q || q + chunks[q].size <= p
  {
    var c, d := chunks[p], chunks[q];
    ChunkInPage(table, used, chunks, p);
    ChunkInPage(table, used, chunks, q);
    if c.page == d.page {
      var cls := table[c.page].cls;
      if c.slot < d.slot {
        SlotStep(c.page, c.slot, d.slot, cls);
      } else {
        SlotStep(c.page, d.slot, c.slot, cls);
      }
    } else if c.page < d.page {
      PagesStep(c.page, d.page);
    } else {
      PagesStep(d.page, c.page);
    }
  }

  /** A chunk from a page that has room, or from one that has no class yet. */
  lemma NewChunk(table: Table, used: Used, chunks: Chunks, b: Address, c: Class)
    requires TableOk(table, used) && ChunksOk(table, chunks) && b in table && c != UNKNOWN && c != 0
    requires table[b].cls == UNKNOWN || (table[b].cls == c && table[b].offset < Slots(c))
    ensures var d := table[b];
            var p := SlotAddress(b, d.offset, c);
            var table', chunks' := table[b := Desc(c, d.offset + 1, d.home, d.owner)],
                chunks[p := Chunk(b, d.offset, Size(c))];
            p !in chunks && TableOk(table', used) && ChunksOk(table', chunks')
  {
    var d := table[b];
    var p := SlotAddress(b, d.offset, c);
    var table', chunks' := table[b := Desc(c, d.offset + 1, d.home, d.owner)], chunks[p := Chunk(b, d.offset, Size(c))];
    assert TableOk(table', used);
    assert ChunksOk(table', chunks');
    if p in chunks {
      ChunkInPage(table, used, chunks, p);
      ChunkInPage(table', used, chunks', p);
      SlotStep(b, chunks[p].slot, d.offset, c);
    }
  }

  /** One page more of segment s is used: pages stay where they are, and the new one is in place. */
  lemma PlaceGrows(b: Address, d: Desc, used: Used, s: Address)
    requires PlaceOk(b, d, used) && s in used
    ensures PlaceOk(b, d, used[s := used[s] + 1])
  {
    assert used[d.home] * PAGE <= (used[d.home] + 1) * PAGE;
  }

  lemma PlaceNew(used: Used, s: Address, t: Thread)
    requires s in used && s % PAGE == 0 && 1 <= used[s]
    ensures PlaceOk(s + used[s] * PAGE, Desc(UNKNOWN, 0, s, t), used[s := used[s] + 1])
  {
  }

  lemma PagesPlaced(table: Table, used: Used, s: Address, t: Thread)
    requires TableOk(table, used) && s in used && s % PAGE == 0 && 1 <= used[s]
    ensures TableOk(table[s + used[s] * PAGE := Desc(UNKNOWN, 0, s, t)], used[s := used[s] + 1])
  {
    hide PlaceOk;
    PlaceNew(used, s, t);
    forall b | b in table
      ensures PlaceOk(b, table[b], used[s := used[s] + 1])
    {
      PlaceGrows(b, table[b], used, s);
    }
  }

  /** The next page of a segment is new. */
  lemma NewPage(table: Table, used: Used, pages: nat, chunks: Chunks, s: Address, t: Thread)
    requires TableOk(table, used) && UsedOk(used, pages) && ChunksOk(table, chunks) && s in used && used[s] < pages
    ensures var b := s + used[s] * PAGE;
            var table', used' := table[b := Desc(UNKNOWN, 0, s, t)], used[s := used[s] + 1];
            b !in table && TableOk(table', used') && UsedOk(used', pages) && ChunksOk(table', chunks)
  {
    PageNotUsed(table, used, pages, s);
    PagesPlaced(table, used, s, t);
    hide Size, Slots, SlotAddress, TableOk, SegmentsApart;
    forall p | p in chunks
      ensures ChunkOk(table[s + used[s] * PAGE := Desc(UNKNOWN, 0, s, t)], p, chunks[p])
    {
      assert ChunkOk(table, p, chunks[p]);
    }
  }

  /** A new segment, of which only the first page is used. */
  lemma NewSegment(table: Table, used: Used, pages: nat, s: Address)
    requires TableOk(table, used) && UsedOk(used, pages) && s !in used && s % PAGE == 0 && 1 <= pages
    requires forall u {:trigger used[u]} :: u in used ==> SegmentsApart(u, s, pages)
    ensures TableOk(table, used[s := 1]) && UsedOk(used[s := 1], pages)
  {
    forall b | b in table
      ensures PlaceOk(b, table[b], used[s := 1])
    {
      assert PlaceOk(b, table[b], used);
    }
  }

  lemma PageNotUsed(table: Table, used: Used, pages: nat, s: Address)
    requires TableOk(table, used) && UsedOk(used, pages) && s in used && used[s] < pages
    ensures s + used[s] * PAGE !in table
  {
    var b := s + used[s] * PAGE;
    forall b' | b' in table
      ensures b' != b
    {
      var u := table[b'].home;
      assert u != s ==> SegmentsApart(s, u, pages);
      assert used[s] * PAGE < pages * PAGE && used[u] * PAGE <= pages * PAGE;
    }
  }

  // ---------------------------------------------------------------- the books

  /** Everything above about segments of the given number of pages. */
  datatype Books = Books(pages: nat, table: Table, used: Used, chunks: Chunks)

  ghost predicate BooksOk(h: Books) {
    TableOk(h.table, h.used) && UsedOk(h.used, h.pages) && ChunksOk(h.table, h.chunks)
  }

  ghost function NoHistory(pages: nat): (h: Books) {
    Books(pages, map[], map[], map[])
  }

  /** A segment is added, of which only the first page is used. */
  function WithSegment(h: Books, s: Address): (r: Books) {
    h.(used := h.used[s := 1])
  }

  lemma WithSegmentOk(h: Books, s: Address)
    requires BooksOk(h) && s !in h.used && s % PAGE == 0 && 1 <= h.pages
    requires forall u {:trigger h.used[u]} :: u in h.used ==> SegmentsApart(u, s, h.pages)
    ensures BooksOk(WithSegment(h, s))
  {
    NewSegment(h.table, h.used, h.pages, s);
  }

  function PageAt(s: Address, n: nat): (b: Address) {
    s + n * PAGE
  }

  /** The next page of segment s goes to thread t. */
  function WithPage(h: Books, s: Address, t: Thread): (r: Books)
    requires s in h.used
  {
    h.(table := h.table[PageAt(s, h.used[s]) := Desc(UNKNOWN, 0, s, t)], used := h.used[s := h.used[s] + 1])
  }

  lemma WithPageOk(h: Books, s: Address, t: Thread)
    requires BooksOk(h) && s in h.used && h.used[s] < h.pages
    ensures PageAt(s, h.used[s]) !in h.table && BooksOk(WithPage(h, s, t))
  {
    hide DescOk, Size, Slots, SlotAddress;
    NewPage(h.table, h.used, h.pages, h.chunks, s, t);
  }

  /** A page without a class gets one. */
  function WithClass(h: Books, b: Address, c: Class): (r: Books)
    requires b in h.table
  {
    h.(table := h.table[b := Desc(c, 0, h.table[b].home, h.table[b].owner)])
  }

  lemma WithClassOk(h: Books, b: Address, c: Class)
    requires BooksOk(h) && b in h.table && h.table[b].cls == UNKNOWN && c != UNKNOWN && c != 0
    ensures BooksOk(WithClass(h, b, c))
  {
  }

  /** A page that can serve class c: one with room, or one that has no class yet. */
  predicate Ready(d: Desc, c: Class)
    requires c != UNKNOWN
  {
    d.cls == UNKNOWN || (d.cls == c && d.offset < Slots(c))
  }

  function ChunkAt(b: Address, d: Desc, c: Class): (p: Address)
    requires c != UNKNOWN
  {
    SlotAddress(b, d.offset, c)
  }

  /** The next chunk of a page is handed out. */
  function WithChunk(h: Books, b: Address, c: Class): (r: Books)
    requires b in h.table && c != UNKNOWN
  {
    var d := h.table[b];
    h.(table := h.table[b := Desc(c, d.offset + 1, d.home, d.owner)],
       chunks := h.chunks[ChunkAt(b, d, c) := Chunk(b, d.offset, Size(c))])
  }

  /** It is none that was handed out before. */
  lemma WithChunkOk(h: Books, b: Address, c: Class)
    requires BooksOk(h) && b in h.table && c != UNKNOWN && c != 0 && Ready(h.table[b], c)
    ensures ChunkAt(b, h.table[b], c) !in h.chunks && BooksOk(WithChunk(h, b, c))
  {
    NewChunk(h.table, h.used, h.chunks, b, c);
  }

  /** The byte that counts a page's slots does not wrap around, except in the smallest class. */
  lemma NoWrap(h: Books, b: Address, c: Class)
    requires BooksOk(h) && b in h.table && c != UNKNOWN && c != 0 && Ready(h.table[b], c)
    ensures (h.table[b].offset + 1) % 256 == h.table[b].offset + 1
    ensures WithChunk(h, b, c).table[b].cls == c && WithChunk(h, b, c).table[b].offset == (h.table[b].offset + 1) % 256
  {
    assert DescOk(h.table[b]);
  }

  /** Between two books a chunk p of class c was handed out, one that was not handed out before, from
      a page of thread t. */
  ghost predicate Grants(h: Books, h': Books, t: Thread, c: Class, p: Address)
    requires c != UNKNOWN
  {
    && p !in h.chunks && p in h'.chunks && h'.chunks == h.chunks[p := h'.chunks[p]]
    && h'.chunks[p].size == Size(c) && h'.chunks[p].page in h'.table && h'.table[h'.chunks[p].page].owner == t
  }

  lemma GrantsFrom(h: Books, h1: Books, h': Books, t: Thread, c: Class, p: Address)
    requires c != UNKNOWN && h.chunks == h1.chunks && Grants(h1, h', t, c, p)
    ensures Grants(h, h', t, c, p)
  {
  }

  lemma WithChunkGrants(h: Books, b: Address, c: Class)
    requires b in h.table && c != UNKNOWN && ChunkAt(b, h.table[b], c) !in h.chunks
    ensures Grants(h, WithChunk(h, b, c), h.table[b].owner, c, ChunkAt(b, h.table[b], c))
  {
  }

  /** What books in order say about the chunks handed out: each lies inside one page behind the first
      page of its segment, has the size of its class, and is disjoint from all others. */
  lemma ChunksSound(h: Books, p: Address)
    requires BooksOk(h) && p in h.chunks
    ensures var c := h.chunks[p];
            && c.page in h.table && PageOf(p) == c.page && p + c.size <= c.page + PAGE
            && h.table[c.page].cls != UNKNOWN && c.size == Size(h.table[c.page].cls)
            && h.table[c.page].home in h.used && h.table[c.page].home + PAGE <= c.page
            && c.page + PAGE <= h.table[c.page].home + h.pages * PAGE
    ensures forall q {:trigger h.chunks[q]} :: q in h.chunks && q != p ==>
            p + h.chunks[p].size <= q || q + h.chunks[q].size <= p
  {
    ChunkInPage(h.table, h.used, h.chunks, p);
    forall q | q in h.chunks && q != p
      ensures p + h.chunks[p].size <= q || q + h.chunks[q].size <= p
    {
      ChunksApart(h.table, h.used, h.chunks, p, q);
    }
    assert h.used[h.table[h.chunks[p].page].home] * PAGE <= h.pages * PAGE;
  }

  // ---------------------------------------------------------------- the smallest class

  /** What n allocations from a new page of class c come to: the offset is a byte. */
  function HandedOut(b: Address, c: Class, n: nat): (chunks: seq<Address>)
    requires c != UNKNOWN
    ensures |chunks| == n && forall i :: 0 <= i < n ==> chunks[i] == SlotAddress(b, i % 256, c)
  {
    seq(n, i requires 0 <= i < n => SlotAddress(b, i % 256, c))
  }

  ghost predicate Repeats(chunks: seq<Address>) {
    exists i, j :: 0 <= i < j < |chunks| && chunks[i] == chunks[j]
  }

  /** An address is handed out twice exactly if the byte has wrapped around. */
  lemma RepeatsIff(b: Address, c: Class, n: nat)
    requires c != UNKNOWN
    ensures Repeats(HandedOut(b, c, n)) <==> n > 256
  {
    var chunks := HandedOut(b, c, n);
    if n > 256 {
      assert chunks[0] == chunks[256];
    } else {
      forall i, j | 0 <= i < j < n
        ensures chunks[i] != chunks[j]
      {
        SlotStep(b, i, j, c);
      }
    }
  }
}
