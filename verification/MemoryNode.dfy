/** The memory node: a bitmap of segments at the start of the region, and the segments behind it
    (src/components/memory/memory.hpp, src/components/memory/memory_node). */
module MemoryNode {
  import opened Keys

  // ---------------------------------------------------------------- bits

  /** byte_masks. */
  function Mask(j: nat): (m: bv8)
    requires j < 8
    ensures m != 0
  {
    match j
    case 0 => 1
    case 1 => 2
    case 2 => 4
    case 3 => 8
    case 4 => 16
    case 5 => 32
    case 6 => 64
    case 7 => 128
  }

  predicate BitOf(x: bv8, j: nat)
    requires j < 8
  {
    x & Mask(j) != 0
  }

  /** Setting a bit changes that bit only. */
  lemma SetBit(x: bv8, j: nat, k: nat)
    requires j < 8 && k < 8
    ensures BitOf(x | Mask(j), k) <==> j == k || BitOf(x, k)
  {
    MaskCases(j);
    MaskCases(k);
  }

  /** Clearing a bit changes that bit only. */
  lemma ClearBit(x: bv8, j: nat, k: nat)
    requires j < 8 && k < 8
    ensures BitOf(x & !Mask(j), k) <==> j != k && BitOf(x, k)
  {
    MaskCases(j);
    MaskCases(k);
  }

  lemma MaskCases(j: nat)
    requires j < 8
    ensures j == 0 || j == 1 || j == 2 || j == 3 || j == 4 || j == 5 || j == 6 || j == 7
  {
  }

  /** Slot pos of a bitmap is taken. */
  predicate Taken(bits: seq<bv8>, pos: nat)
    requires pos < 8 * |bits|
  {
    BitOf(bits[pos / 8], pos % 8)
  }

  lemma TakenIs(bits: seq<bv8>, i: nat, j: nat)
    requires i < |bits| && j < 8
    ensures Taken(bits, 8 * i + j) <==> BitOf(bits[i], j)
  {
    assert (8 * i + j) / 8 == i && (8 * i + j) % 8 == j;
  }

  class Bitmap {
    const bytes: array<bv8>

    /** make_bitmap: one byte more than count slots need, rounded down. */
    constructor (count: nat)
      ensures fresh(bytes) && bytes.Length == count / 8 + 1
      ensures forall pos {:trigger Taken(bytes[..], pos)} :: 0 <= pos < 8 * bytes.Length ==> !Taken(bytes[..], pos)
    {
      bytes := new bv8[count / 8 + 1](_ => 0);
    }

    /** The first free slot from byte i and bit j on is the first free slot of all. */
    ghost predicate FreeBefore(n: nat)
      requires n <= 8 * bytes.Length
      reads bytes
    {
      forall pos {:trigger Taken(bytes[..], pos)} :: 0 <= pos < n ==> Taken(bytes[..], pos)
    }

    /** The least free slot. */
    method FindEmpty() returns (slot: Option<nat>)
      ensures slot == None ==> FreeBefore(8 * bytes.Length)
      ensures slot.Some? ==> slot.value < 8 * bytes.Length && !Taken(bytes[..], slot.value) && FreeBefore(slot.value)
    {
      for i := 0 to bytes.Length
        invariant FreeBefore(8 * i)
      {
        for j := 0 to 8
          invariant FreeBefore(8 * i + j)
        {
          TakenIs(bytes[..], i, j);
          if bytes[i] & Mask(j) == 0 {
            return Some(i * 8 + j);
          }
        }
      }
      return None;
    }

    /** The least free slot is taken, and no other bit changes. */
    method GetEmpty() returns (slot: Option<nat>)
      modifies bytes
      ensures slot == None <==> old(FreeBefore(8 * bytes.Length))
      ensures slot == None ==> bytes[..] == old(bytes[..])
      ensures slot.Some? ==>
              slot.value < 8 * bytes.Length &&
              old(!Taken(bytes[..], slot.value) && FreeBefore(slot.value))
      ensures slot.Some? ==> forall pos {:trigger Taken(bytes[..], pos)} :: 0 <= pos < 8 * bytes.Length ==>
                (Taken(bytes[..], pos) <==> pos == slot.value || old(Taken(bytes[..], pos)))
    {
      for i := 0 to bytes.Length
        invariant FreeBefore(8 * i) && bytes[..] == old(bytes[..])
      {
        for j := 0 to 8
          invariant FreeBefore(8 * i + j) && bytes[..] == old(bytes[..])
        {
          TakenIs(bytes[..], i, j);
          if bytes[i] & Mask(j) == 0 {
            bytes[i] := bytes[i] | Mask(j);
            OneBit(old(bytes[..]), bytes[..], i, j, true);
            return Some(i * 8 + j);
          }
        }
      }
      return None;
    }

    /** A slot is given back, and no other bit changes. */
    method Unset(pos: nat)
      requires pos < 8 * bytes.Length
      modifies bytes
      ensures forall p {:trigger Taken(bytes[..], p)} :: 0 <= p < 8 * bytes.Length ==>
                (Taken(bytes[..], p) <==> p != pos && old(Taken(bytes[..], p)))
    {
      var i, j := pos / 8, pos % 8;
      bytes[i] := bytes[i] & !Mask(j);
      OneBit(old(bytes[..]), bytes[..], i, j, false);
    }
  }

  /** One byte has had one bit set or cleared. */
  lemma OneBit(before: seq<bv8>, after: seq<bv8>, i: nat, j: nat, on: bool)
    requires i < |before| && j < 8
    requires after == before[i := if on then before[i] | Mask(j) else before[i] & !Mask(j)]
    ensures forall pos {:trigger Taken(after, pos)} :: 0 <= pos < 8 * |before| ==>
              (Taken(after, pos) <==> if pos == 8 * i + j then on else Taken(before, pos))
  {
    forall pos | 0 <= pos < 8 * |before|
      ensures Taken(after, pos) <==> if pos == 8 * i + j then on else Taken(before, pos)
    {
      if pos / 8 == i {
        SetBit(before[i], j, pos % 8);
        ClearBit(before[i], j, pos % 8);
      }
    }
  }

  // ---------------------------------------------------------------- segments

  /** Where the segment of a slot lies: behind a header of one page. */
  function SegmentAt(base: nat, header: nat, segmentSize: nat, slot: nat): (a: nat) {
    base + header + slot * segmentSize
  }

  /** deallocate recovers the slot from the address. */
  lemma SlotRecovered(base: nat, header: nat, segmentSize: nat, slot: nat)
    requires segmentSize > 0
    ensures (SegmentAt(base, header, segmentSize, slot) - base - header) / segmentSize == slot
  {
    DivOfProduct(slot, segmentSize);
  }

  lemma DivOfProduct(n: nat, d: nat)
    requires d > 0
    ensures n * d / d == n
  {
    var q, r := n * d / d, n * d % d;
    assert (n - q) * d == r;
    AtLeast(n - q, d);
  }

  lemma AtLeast(k: int, d: int)
    requires d >= 0
    ensures k >= 1 ==> k * d >= d
    ensures k <= -1 ==> k * d <= -d
  {
    assert k * d == (k - 1) * d + d == (k + 1) * d - d;
  }

  /** Segments of different slots are disjoint. */
  lemma SegmentsDisjoint(base: nat, header: nat, segmentSize: nat, i: nat, j: nat)
    requires i < j
    ensures SegmentAt(base, header, segmentSize, i) + segmentSize <= SegmentAt(base, header, segmentSize, j)
  {
    assert (i + 1) * segmentSize <= j * segmentSize;
  }

  /** The segment of a slot ends where the region ends, or before. */
  predicate Inside(header: nat, memorySize: nat, segmentSize: nat, slot: nat) {
    header + (slot + 1) * segmentSize <= memorySize
  }

  lemma InsideIs(base: nat, header: nat, memorySize: nat, segmentSize: nat, slot: nat)
    ensures Inside(header, memorySize, segmentSize, slot) <==>
            SegmentAt(base, header, segmentSize, slot) + segmentSize <= base + memorySize
  {
    assert (slot + 1) * segmentSize == slot * segmentSize + segmentSize;
  }

  lemma InsideBelow(header: nat, memorySize: nat, segmentSize: nat, i: nat, j: nat)
    requires i <= j && Inside(header, memorySize, segmentSize, j)
    ensures Inside(header, memorySize, segmentSize, i)
  {
    if i < j {
      SegmentsDisjoint(0, header, segmentSize, i, j);
    }
  }

  /** A segment that lies inside the region has a bit: the bitmap has at least as many bits. */
  lemma InsideHasBit(header: nat, memorySize: nat, segmentSize: nat, slot: nat)
    requires segmentSize > 0 && Inside(header, memorySize, segmentSize, slot)
    ensures slot < memorySize / segmentSize
  {
    var q := memorySize / segmentSize;
    assert (q - slot) * segmentSize == q * segmentSize - slot * segmentSize;
    assert (slot + 1) * segmentSize == slot * segmentSize + segmentSize;
    AtLeast(q - slot, segmentSize);
  }

  class MemoryNodeAllocator {
    const base: nat
    const memorySize: nat
    const header: nat
    const segmentSize: nat
    const bitmap: Bitmap

    ghost predicate Valid() {
      segmentSize > 0 && memorySize / segmentSize < 8 * bitmap.bytes.Length
    }

    /** The segment of a slot lies in the region. */
    ghost predicate InRegion(slot: nat) {
      Inside(header, memorySize, segmentSize, slot)
    }

    /** The slots whose segments are out. */
    ghost function Live(): set<nat>
      reads bitmap.bytes
    {
      set pos: nat | pos < 8 * bitmap.bytes.Length && Taken(bitmap.bytes[..], pos)
    }

    /** make_allocator. */
    constructor (region: nat, memorySize: nat, header: nat, segmentSize: nat)
      requires segmentSize > 0
      ensures Valid() && Live() == {} && base == region && fresh(bitmap.bytes)
      ensures this.memorySize == memorySize && this.header == header && this.segmentSize == segmentSize
      ensures bitmap.bytes.Length == memorySize / segmentSize / 8 + 1
    {
      base, this.memorySize, this.header, this.segmentSize := region, memorySize, header, segmentSize;
      bitmap := new Bitmap(memorySize / segmentSize);
    }

    /** A segment that is not out, at the least free slot.  It ends inside the region exactly if some
        slot whose segment does was free: the bitmap also has bits for segments beyond the region, as
        it leaves out the header and is rounded up to more than whole bytes. */
    method Allocate() returns (segment: Option<nat>, ghost slot: nat)
      requires Valid()
      modifies bitmap.bytes
      ensures segment == None ==>
              Live() == old(Live()) &&
              forall pos {:trigger pos in Live()} :: 0 <= pos < 8 * bitmap.bytes.Length ==> pos in Live()
      ensures segment.Some? ==>
                && slot !in old(Live()) && Live() == old(Live()) + {slot} && slot < 8 * bitmap.bytes.Length
                && segment.value == SegmentAt(base, header, segmentSize, slot)
                && (forall pos {:trigger pos in old(Live())} :: 0 <= pos < slot ==> pos in old(Live()))
      ensures segment.Some? ==>
                (segment.value + segmentSize <= base + memorySize <==>
                 exists pos: nat {:trigger InRegion(pos)} :: InRegion(pos) && pos !in old(Live()))
      ensures segment == None ==> !exists pos: nat {:trigger InRegion(pos)} :: InRegion(pos) && pos !in old(Live())
    {
      ghost var live := Live();
      var no := bitmap.GetEmpty();
      NoneBeyond();
      if no == None {
        return None, 0;
      }
      slot := no.value;
      segment := Some(base + header + no.value * segmentSize);
      assert Live() == live + {slot};
      assert segment.value == SegmentAt(base, header, segmentSize, slot);
      LeastInRegion(live, slot);
    }

    /** Every slot of the region has a bit. */
    lemma NoneBeyond()
      requires Valid()
      ensures forall pos: nat {:trigger InRegion(pos)} :: InRegion(pos) ==> pos < 8 * bitmap.bytes.Length
    {
      forall pos: nat | InRegion(pos)
        ensures pos < 8 * bitmap.bytes.Length
      {
        InsideHasBit(header, memorySize, segmentSize, pos);
      }
    }

    /** The least free slot is in the region if any free slot is. */
    lemma LeastInRegion(live: set<nat>, slot: nat)
      requires slot !in live && forall pos {:trigger pos in live} :: 0 <= pos < slot ==> pos in live
      ensures SegmentAt(base, header, segmentSize, slot) + segmentSize <= base + memorySize <==>
              exists pos: nat {:trigger InRegion(pos)} :: InRegion(pos) && pos !in live
    {
      InsideIs(base, header, memorySize, segmentSize, slot);
      assert InRegion(slot) ==> InRegion(slot) && slot !in live;
      forall pos: nat | InRegion(pos) && pos !in live
        ensures InRegion(slot)
      {
        InsideBelow(header, memorySize, segmentSize, slot, pos);
      }
    }

    /** The segment of a slot that is out comes back: its slot, and no other, is free again. */
    method Deallocate(segment: nat, ghost slot: nat)
      requires Valid() && slot in Live() && segment == SegmentAt(base, header, segmentSize, slot)
      modifies bitmap.bytes
      ensures Live() == old(Live()) - {slot}
    {
      SlotRecovered(base, header, segmentSize, slot);
      var off := segment - base - header;
      var pos := off / segmentSize;
      bitmap.Unset(pos);
    }

    /** Segments that are out at the same time are disjoint. */
    lemma LiveDisjoint(i: nat, j: nat)
      requires Valid() && i in Live() && j in Live() && i != j
      ensures var (a, b) := (SegmentAt(base, header, segmentSize, i), SegmentAt(base, header, segmentSize, j));
              a + segmentSize <= b || b + segmentSize <= a
    {
      if i < j {
        SegmentsDisjoint(base, header, segmentSize, i, j);
      } else {
        SegmentsDisjoint(base, header, segmentSize, j, i);
      }
    }
  }
}
