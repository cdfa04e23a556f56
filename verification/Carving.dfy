/** How a memory pool cuts the blocks it gets from the system into slots of one size. */
module Carving {
  import opened Arithmetic

  const BLOCK_SIZE: nat := 4096
  const LINK_SIZE: nat := 8
  const TWO_TO_THE_64: nat := 0x1_0000_0000_0000_0000

  /** The padding in front of `p`, computed as the pool does: the subtraction wraps around at 64 bits. */
  function Pad(p: nat, align: nat): nat
    requires 0 < align
  {
    (align - p) % TWO_TO_THE_64 % align
  }

  /** What the wrapped subtraction gives. */
  lemma Wrapped(p: nat, align: nat)
    requires 0 < align < TWO_TO_THE_64 && p < TWO_TO_THE_64
    ensures (align - p) % TWO_TO_THE_64 == if p <= align then align - p else align - p + TWO_TO_THE_64
  {
  }

  /** The padded address is aligned exactly when the wrap-around does no harm:
      the alignment divides 2^64, or nothing wraps. */
  lemma PadAligns(p: nat, align: nat)
    requires 0 < align < TWO_TO_THE_64 && p < TWO_TO_THE_64
    ensures Pad(p, align) < align
    ensures (p + Pad(p, align)) % align == 0 <==> TWO_TO_THE_64 % align == 0 || p <= align
  {
    Wrapped(p, align);
    var w := if p <= align then 0 else TWO_TO_THE_64;
    var x := align - p + w;
    var q := x / align;
    assert p + Pad(p, align) == w + (1 - q) * align by {
      assert x == q * align + x % align;
      assert (1 - q) * align == align - q * align;
    }
    AddMultiple(w, 1 - q, align);
    ModUnique(0, 0, align);
  }

  lemma RemainderOfEights(x: nat, align: nat)
    requires 0 < align && x % 8 == 0 && align % 8 == 0
    ensures x % align % 8 == 0
  {
    ScaledRemainder(8, x / 8, align / 8);
  }

  lemma WrappedEights(p: nat, align: nat)
    requires 0 < align < TWO_TO_THE_64 && p < TWO_TO_THE_64 && p % 8 == 0 && align % 8 == 0
    ensures (align - p) % TWO_TO_THE_64 % 8 == 0
  {
    Wrapped(p, align);
  }

  /** Padding keeps addresses multiples of 8. */
  lemma PadKeepsEights(p: nat, align: nat)
    requires 0 < align < TWO_TO_THE_64 && p < TWO_TO_THE_64 && p % 8 == 0 && align % 8 == 0
    ensures Pad(p, align) % 8 == 0
  {
    WrappedEights(p, align);
    RemainderOfEights((align - p) % TWO_TO_THE_64, align);
  }

  /** The first slot of a block, behind its link and the padding. */
  function First(block: nat, size: nat): nat
    requires 0 < size
  {
    block + LINK_SIZE + Pad(block + LINK_SIZE, size)
  }

  /** How many slots fit into a block. */
  function Capacity(block: nat, size: nat): (n: nat)
    requires 0 < size <= 512
  {
    ModBound(block + LINK_SIZE, size);
    (BLOCK_SIZE - LINK_SIZE - Pad(block + LINK_SIZE, size)) / size
  }

  lemma ModBound(p: nat, size: nat)
    requires 0 < size
    ensures Pad(p, size) < size
  {
  }

  function Slot(block: nat, size: nat, k: nat): nat
    requires 0 < size
  {
    First(block, size) + k * size
  }

  lemma Fits(room: nat, size: nat, k: nat)
    requires 0 < size <= room
    ensures k * size + size <= room <==> k < room / size
    ensures 1 <= room / size
  {
    var c := room / size;
    assert room == c * size + room % size;
    if k < c {
      Multiply(k + 1, c, size);
    } else {
      Multiply(c, k, size);
    }
    if c < 1 {
      Multiply(c, 0, size);
    }
  }

  /** A slot number below the capacity, and no other, names a slot inside the block and past its link. */
  lemma SlotFits(block: nat, size: nat, k: nat)
    requires 0 < size <= 512
    ensures block + LINK_SIZE <= Slot(block, size, k)
    ensures Slot(block, size, k) + size <= block + BLOCK_SIZE <==> k < Capacity(block, size)
    ensures 1 <= Capacity(block, size)
  {
    var pad := Pad(block + LINK_SIZE, size);
    ModBound(block + LINK_SIZE, size);
    Multiply(0, k, size);
    Fits(BLOCK_SIZE - LINK_SIZE - pad, size, k);
  }

  /** Different slots of a block do not overlap. */
  lemma SlotsApart(block: nat, size: nat, j: nat, k: nat)
    requires 0 < size && j < k
    ensures Slot(block, size, j) + size <= Slot(block, size, k)
  {
    Multiply(j + 1, k, size);
    assert (j + 1) * size == j * size + size;
  }

  lemma EightsAdd(f: nat, size: nat, k: nat)
    requires f % 8 == 0 && size % 8 == 0
    ensures (f + k * size) % 8 == 0
  {
    var m := size / 8;
    assert k * (m * 8) == (k * m) * 8;
    AddMultiple(f, k * m, 8);
  }

  lemma FirstIsEight(block: nat, size: nat)
    requires 0 < size <= 512 && size % 8 == 0 && block % 8 == 0 && block + LINK_SIZE < TWO_TO_THE_64
    ensures First(block, size) % 8 == 0
  {
    PadKeepsEights(block + LINK_SIZE, size);
    EightsSum(block + LINK_SIZE, Pad(block + LINK_SIZE, size));
  }

  lemma EightsSum(a: nat, b: nat)
    requires a % 8 == 0 && b % 8 == 0
    ensures (a + b) % 8 == 0
  {
  }

  lemma SlotIsEight(block: nat, size: nat, k: nat)
    requires 0 < size <= 512 && size % 8 == 0 && block % 8 == 0 && block + LINK_SIZE < TWO_TO_THE_64
    ensures Slot(block, size, k) % 8 == 0
  {
    FirstIsEight(block, size);
    EightsAdd(First(block, size), size, k);
  }

  /** Slots are aligned to their size exactly when that size divides 2^64, or the block lies so low that nothing
      wraps. */
  lemma SlotsAligned(block: nat, size: nat, k: nat)
    requires 0 < size <= 512 && block + BLOCK_SIZE <= TWO_TO_THE_64
    ensures Slot(block, size, k) % size == 0 <==> TWO_TO_THE_64 % size == 0 || block + LINK_SIZE <= size
  {
    PadAligns(block + LINK_SIZE, size);
    AddMultiple(First(block, size), k, size);
  }

  /** The sizes of the 64 pools. */
  function SizeOf(class_: nat): nat { (class_ + 1) * 8 }

  function ClassOf(bytes: nat): nat
    requires bytes > 0
  {
    (bytes + 7) / 8 - 1
  }

  /** A request goes to the smallest size class that holds it, which wastes fewer than 8 bytes. */
  lemma SmallestClass(bytes: nat)
    requires 0 < bytes <= 512
    ensures ClassOf(bytes) < 64 && bytes <= SizeOf(ClassOf(bytes)) < bytes + 8
    ensures forall c: nat :: bytes <= SizeOf(c) ==> ClassOf(bytes) <= c
  {
  }

  /** Of those sizes, only the powers of two keep their slots aligned. */
  lemma AlignedClasses(size: nat)
    requires size % 8 == 0 && 0 < size <= 512
    ensures TWO_TO_THE_64 % size == 0 <==> size in {8, 16, 32, 64, 128, 256, 512}
  {
    var c := size / 8;
    DividesWhen(c);
    var q, r := 0x2000_0000_0000_0000 / c, 0x2000_0000_0000_0000 % c;
    assert TWO_TO_THE_64 == q * size + r * 8 by {
      assert size == c * 8;
      assert q * (c * 8) == (q * c) * 8;
    }
    ModUnique(q, r * 8, size);
  }

  /** Which numbers up to 64 divide 2^61. */
  lemma DividesWhen(c: nat)
    requires 0 < c <= 64
    ensures 0x2000_0000_0000_0000 % c == 0 <==> c in {1, 2, 4, 8, 16, 32, 64}
  {
  }
}
