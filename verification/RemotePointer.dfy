/** Remote pointers: a node id and an address in one 64-bit word
    (src/components/memory/remote_memory).  The source's shifts and masks are written as
    multiplication, division and remainder by powers of two, which they are on unsigned words. */
module RemotePointer {
  import opened Pages
  import opened Allocator

  const TWO48: nat := 0x1_0000_0000_0000
  const TWO56: nat := 0x100_0000_0000_0000
  const TWO62: nat := 0x4000_0000_0000_0000
  const TWO64: nat := 0x1_0000_0000_0000_0000

  type Word = w: nat | w < TWO64

  /** The two top bits are 10. */
  predicate IsRemotePointer(p: Word) {
    p / TWO62 == 2
  }

  /** The top byte holds the tag 10 and the low six bits of the node id; of the address 48 bits stay. */
  function MakeRemotePointer(node: Word, address: Word): (p: Word) {
    var value := address % TWO48;
    var meta := 2 * 64 + node % 64;
    meta * TWO56 + value
  }

  function GetNode(p: Word): (node: nat) {
    p / TWO56 % 64
  }

  /** get_as: the top byte is replaced by the one below it. */
  function GetAs(p: Word): (address: Word) {
    var copy := p % TWO56;
    copy / TWO48 * TWO56 + copy
  }

  predicate IsNullptr(p: Word) {
    p % TWO48 == 0
  }

  function OffsetBy(p: Word, off: Word): (q: Word) {
    (p + off) % TWO64
  }

  /** page: the twelve low bits are cleared. */
  function PagePointer(p: Word): (q: Word) {
    p / PAGE * PAGE
  }

  /** What packing keeps: the node id exactly if it is below 64, and the address exactly if it is
      below 2^48.  An address in the upper canonical half does not come back, although the layout is
      made for canonical addresses: packing clears the byte that get_as copies upwards. */
  lemma PackingKeeps(node: Word, address: Word)
    ensures IsRemotePointer(MakeRemotePointer(node, address))
    ensures GetNode(MakeRemotePointer(node, address)) == node <==> node < 64
    ensures GetAs(MakeRemotePointer(node, address)) == address <==> address < TWO48
    ensures address < TWO48 ==> (IsNullptr(MakeRemotePointer(node, address)) <==> address == 0)
  {
    var p, meta, value := MakeRemotePointer(node, address), 128 + node % 64, address % TWO48;
    TopByte(meta, value);
    assert p == meta * TWO56 + value;
    assert GetNode(p) == meta % 64 == node % 64;
    assert p % TWO56 == value && value / TWO48 == 0;
    assert GetAs(p) == value;
  }

  lemma TopByte(meta: nat, value: nat)
    requires 128 <= meta < 192 && value < TWO48
    ensures (meta * TWO56 + value) / TWO56 == meta && (meta * TWO56 + value) % TWO56 == value
    ensures (meta * TWO56 + value) / TWO62 == 2 && (meta * TWO56 + value) % TWO48 == value
  {
  }

  /** Offsetting moves the address and keeps the node, as long as the address stays below 2^48. */
  lemma OffsetKeeps(node: Word, address: Word, off: Word)
    requires node < 64 && address + off < TWO48
    ensures OffsetBy(MakeRemotePointer(node, address), off) == MakeRemotePointer(node, address + off)
    ensures GetNode(OffsetBy(MakeRemotePointer(node, address), off)) == node
    ensures GetAs(OffsetBy(MakeRemotePointer(node, address), off)) == address + off
  {
    PackingKeeps(node, address + off);
  }

  /** Any word at some distance behind a packed pointer. */
  lemma PointerInto(node: Word, address: Word, p: nat)
    requires node < 64 && MakeRemotePointer(node, address) <= p &&
             address + (p - MakeRemotePointer(node, address)) < TWO48
    ensures p < TWO64 && GetNode(p) == node && GetAs(p) == address + (p - MakeRemotePointer(node, address))
  {
    var s := MakeRemotePointer(node, address);
    assert s == (128 + node) * TWO56 + address;
    OffsetKeeps(node, address, p - s);
    assert OffsetBy(s, p - s) == p;
  }

  lemma PagePointerIs(p: Word)
    ensures PagePointer(p) == PageOf(p)
  {
  }

  /** A chunk cut from a segment that was packed for some node has that node's id, and its address is
      the segment's plus its distance into the segment. */
  lemma ChunkAddress(h: Books, p: Address, node: Word, address: Word)
    requires BooksOk(h) && p in h.chunks && h.chunks[p].page in h.table
    requires h.table[h.chunks[p].page].home == MakeRemotePointer(node, address)
    requires node < 64 && address + h.pages * PAGE < TWO48
    ensures var s := MakeRemotePointer(node, address);
            && s <= p < TWO64 && GetNode(p) == node && GetAs(p) == address + (p - s) && PagePointer(p) == PageOf(p)
  {
    ChunksSound(h, p);
    PointerInto(node, address, p);
    PagePointerIs(p);
  }

  /** And its page() is the key under which the mirror of its page is filed in its segment. */
  lemma ChunkPointer(allocator: ComputeNodeAllocator, p: Address, s: Address)
    requires allocator.Valid() && p in allocator.tracker.hist.chunks && p < TWO64
    requires var h := allocator.tracker.hist;
             (h.chunks[p].page in h.table && h.table[h.chunks[p].page].home == s)
    ensures s in allocator.tracker.segments && PagePointer(p) in allocator.tracker.segments[s].mirrors
    ensures allocator.tracker.segments[s].mirrors[PagePointer(p)].pageBase == PagePointer(p)
  {
    ChunksSound(allocator.tracker.hist, p);
    assert PagePointer(p) == PageOf(p);
    assert allocator.tracker.Filed(PageOf(p)) && allocator.tracker.MirrorOk(PageOf(p));
  }
}
