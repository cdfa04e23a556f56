/** One size class of the memory pool: its registers, the link words it keeps in memory, and what they mean. */
module PoolModel {
  import opened Carving

  /** The pool's fields; address 0 is the null pointer. */
  datatype Regs = Regs(size: nat, block: nat, slot: nat, last: nat, free: nat)

  /** The 8-byte words of memory that have been written. */
  type Words = map<nat, nat>

  function At(w: Words, a: nat): nat {
    if a in w then w[a] else 0
  }

  /** What the pool has handed out: its blocks (newest first), how many slots the newest has given,
      the returned slots in list order, and the slots in use. */
  datatype Ledger = Ledger(blocks: seq<nat>, count: nat, free: seq<nat>, live: set<nat>)

  // Operations

  datatype Outcome = Outcome(regs: Regs, words: Words, slot: nat)

  function AllocateBlock(r: Regs, w: Words, newBlock: nat): Outcome
    requires r.size > 0 && newBlock + BLOCK_SIZE >= r.size
  {
    var use := newBlock + LINK_SIZE + Pad(newBlock + LINK_SIZE, r.size);
    Outcome(r.(block := newBlock, slot := use + r.size / 8 * 8, last := newBlock + BLOCK_SIZE - r.size + 1),
            w[newBlock := r.block], use)
  }

  function NofreeSolve(r: Regs, w: Words, newBlock: nat): Outcome
    requires r.size > 0 && newBlock + BLOCK_SIZE >= r.size
  {
    if r.slot >= r.last then AllocateBlock(r, w, newBlock)
    else Outcome(r.(slot := r.slot + r.size / 8 * 8), w, r.slot)
  }

  function Allocate(r: Regs, w: Words, newBlock: nat): Outcome
    requires r.size > 0 && newBlock + BLOCK_SIZE >= r.size
  {
    if r.free != 0 then Outcome(r.(free := At(w, r.free)), w, r.free) else NofreeSolve(r, w, newBlock)
  }

  function Deallocate(r: Regs, w: Words, p: nat): Outcome {
    if p == 0 then Outcome(r, w, 0) else Outcome(r.(free := p), w[p := r.free], 0)
  }

  // What the fields and words mean

  predicate Apart(a: nat, m: nat, b: nat, n: nat) {
    a + m <= b || b + n <= a
  }

  predicate BlockOk(b: nat) {
    0 < b && b % 8 == 0 && b + BLOCK_SIZE <= TWO_TO_THE_64
  }

  ghost predicate BlocksOk(bs: seq<nat>) {
    && (forall i {:trigger BlockOk(bs[i])} :: 0 <= i < |bs| ==> BlockOk(bs[i]))
    && (forall i, j :: 0 <= i < j < |bs| ==> Apart(bs[i], BLOCK_SIZE, bs[j], BLOCK_SIZE))
  }

  /** The words starting at `head` link the addresses of `s`, ending in null. */
  ghost predicate Chain(w: Words, head: nat, s: seq<nat>)
    decreases |s|
  {
    if s == [] then head == 0 else head == s[0] != 0 && Chain(w, At(w, head), s[1..])
  }

  /** How many slots block `i` has given. */
  ghost function Given(size: nat, g: Ledger, i: nat): nat
    requires 0 < size <= 512 && i < |g.blocks|
  {
    if i == 0 then g.count else Capacity(g.blocks[i], size)
  }

  ghost predicate IsSlot(size: nat, g: Ledger, s: nat, i: nat, k: nat)
    requires 0 < size <= 512
  {
    i < |g.blocks| && k < Given(size, g, i) && s == Slot(g.blocks[i], size, k)
  }

  ghost predicate Carved(size: nat, g: Ledger, s: nat)
    requires 0 < size <= 512
  {
    exists i: nat, k: nat :: IsSlot(size, g, s, i, k)
  }

  ghost predicate SizeOk(size: nat) {
    0 < size <= 512 && size % 8 == 0
  }

  ghost predicate Registers(r: Regs, g: Ledger)
    requires SizeOk(r.size)
  {
    if g.blocks == [] then r.slot == r.last == g.count == 0
    else
      && 1 <= g.count <= Capacity(g.blocks[0], r.size)
      && r.slot == Slot(g.blocks[0], r.size, g.count)
      && r.last == g.blocks[0] + BLOCK_SIZE - r.size + 1
  }

  /** The slots given out are exactly the live ones and, once each, the returned ones. */
  ghost predicate Books(size: nat, g: Ledger)
    requires 0 < size <= 512
  {
    && (forall i, j :: 0 <= i < j < |g.free| ==> g.free[i] != g.free[j])
    && (forall s :: s in g.free ==> s !in g.live)
    && (forall s {:trigger Carved(size, g, s)} :: s in g.live || s in g.free <==> Carved(size, g, s))
  }

  ghost predicate Inv(r: Regs, w: Words, g: Ledger) {
    && SizeOk(r.size) && BlocksOk(g.blocks)
    && Chain(w, r.block, g.blocks) && Chain(w, r.free, g.free)
    && Registers(r, g) && Books(r.size, g)
  }

  // Where slots lie

  lemma SlotInBlock(size: nat, g: Ledger, s: nat, i: nat, k: nat)
    requires SizeOk(size) && BlocksOk(g.blocks) && IsSlot(size, g, s, i, k)
    requires g.blocks != [] ==> g.count <= Capacity(g.blocks[0], size)
    ensures g.blocks[i] + LINK_SIZE <= s && s + size <= g.blocks[i] + BLOCK_SIZE && s % 8 == 0 && s > 0
  {
    assert BlockOk(g.blocks[i]);
    SlotFits(g.blocks[i], size, k);
    SlotIsEight(g.blocks[i], size, k);
  }

  lemma SlotsDisjoint(size: nat, g: Ledger, s: nat, t: nat)
    requires SizeOk(size) && BlocksOk(g.blocks) && Carved(size, g, s) && Carved(size, g, t) && s != t
    requires g.blocks != [] ==> g.count <= Capacity(g.blocks[0], size)
    ensures Apart(s, size, t, size)
  {
    var i: nat, k: nat :| IsSlot(size, g, s, i, k);
    var j: nat, l: nat :| IsSlot(size, g, t, j, l);
    SlotInBlock(size, g, s, i, k);
    SlotInBlock(size, g, t, j, l);
    if i == j {
      if k < l {
        SlotsApart(g.blocks[i], size, k, l);
      } else {
        SlotsApart(g.blocks[i], size, l, k);
      }
    }
  }

  /** A slot lies inside one block, past that block's link word, and clear of every other block. */
  lemma SlotClearOfLinks(size: nat, g: Ledger, s: nat, b: nat)
    requires SizeOk(size) && BlocksOk(g.blocks) && Carved(size, g, s) && b in g.blocks
    requires g.blocks != [] ==> g.count <= Capacity(g.blocks[0], size)
    ensures Apart(s, size, b, LINK_SIZE)
    ensures s % 8 == 0 && s > 0
  {
    var i: nat, k: nat :| IsSlot(size, g, s, i, k);
    SlotInBlock(size, g, s, i, k);
    var j :| 0 <= j < |g.blocks| && g.blocks[j] == b;
  }

  lemma {:induction false} ChainFrame(w: Words, a: nat, v: nat, head: nat, s: seq<nat>)
    requires Chain(w, head, s) && a !in s
    ensures Chain(w[a := v], head, s)
    decreases |s|
  {
    if s != [] {
      ChainFrame(w, a, v, At(w, head), s[1..]);
    }
  }

  // What each operation does to the ledger

  ghost function TakeFree(g: Ledger): Ledger
    requires g.free != []
  {
    g.(free := g.free[1..], live := g.live + {g.free[0]})
  }

  ghost function TakeNext(g: Ledger, s: nat): Ledger {
    g.(count := g.count + 1, live := g.live + {s})
  }

  ghost function TakeFirst(g: Ledger, newBlock: nat, s: nat): Ledger {
    g.(blocks := [newBlock] + g.blocks, count := 1, live := g.live + {s})
  }

  ghost function Return(g: Ledger, s: nat): Ledger {
    g.(free := [s] + g.free, live := g.live - {s})
  }

  lemma Reuse(r: Regs, w: Words, g: Ledger)
    requires Inv(r, w, g) && r.free != 0
    ensures g.free != [] && r.free == g.free[0] && r.free !in g.live
    ensures Inv(r.(free := At(w, r.free)), w, TakeFree(g))
  {
    var h := TakeFree(g);
    assert g.free[0] in g.free;
    forall s ensures s in h.live || s in h.free <==> Carved(r.size, h, s) {
      SameSlots(r.size, g, h, s);
      assert s in g.free <==> s == g.free[0] || s in g.free[1..];
    }
  }

  lemma SameSlots(size: nat, g: Ledger, h: Ledger, s: nat)
    requires SizeOk(size) && h.blocks == g.blocks && h.count == g.count
    ensures Carved(size, h, s) <==> Carved(size, g, s)
  {
    if Carved(size, h, s) {
      var i: nat, k: nat :| IsSlot(size, h, s, i, k);
      assert IsSlot(size, g, s, i, k);
    }
    if Carved(size, g, s) {
      var i: nat, k: nat :| IsSlot(size, g, s, i, k);
      assert IsSlot(size, h, s, i, k);
    }
  }

  lemma PutBack(r: Regs, w: Words, g: Ledger, p: nat)
    requires Inv(r, w, g) && p in g.live
    ensures Inv(r.(free := p), w[p := r.free], Return(g, p))
  {
    var h := Return(g, p);
    assert Carved(r.size, g, p);
    forall b | b in g.blocks ensures b != p && p > 0 {
      SlotClearOfLinks(r.size, g, p, b);
    }
    LiveIsPositive(r, w, g, p);
    ChainFrame(w, p, r.free, r.block, g.blocks);
    ChainFrame(w, p, r.free, r.free, g.free);
    assert h.free[1..] == g.free;
    forall s ensures s in h.live || s in h.free <==> Carved(r.size, h, s) {
      SameSlots(r.size, g, h, s);
    }
  }

  lemma LiveIsPositive(r: Regs, w: Words, g: Ledger, p: nat)
    requires Inv(r, w, g) && Carved(r.size, g, p)
    ensures p > 0 && p % 8 == 0
  {
    var i: nat, k: nat :| IsSlot(r.size, g, p, i, k);
    SlotInBlock(r.size, g, p, i, k);
  }

  /** The bump test of the pool is the capacity of the block. */
  lemma BumpTest(r: Regs, g: Ledger)
    requires SizeOk(r.size) && Registers(r, g) && g.blocks != []
    ensures r.slot >= r.last <==> g.count == Capacity(g.blocks[0], r.size)
    ensures r.slot + r.size / 8 * 8 == Slot(g.blocks[0], r.size, g.count + 1)
  {
    SlotFits(g.blocks[0], r.size, g.count);
    assert (g.count + 1) * r.size == g.count * r.size + r.size;
  }

  /** The slots after the newest block has given one more. */
  lemma NextSlots(size: nat, g: Ledger, h: Ledger, s: nat)
    requires SizeOk(size) && g.blocks != [] && h.blocks == g.blocks && h.count == g.count + 1
    ensures Carved(size, h, s) <==> Carved(size, g, s) || s == Slot(g.blocks[0], size, g.count)
  {
    if Carved(size, h, s) {
      var i: nat, k: nat :| IsSlot(size, h, s, i, k);
      assert (i == 0 && k == g.count) || IsSlot(size, g, s, i, k);
    }
    if Carved(size, g, s) {
      var i: nat, k: nat :| IsSlot(size, g, s, i, k);
      assert IsSlot(size, h, s, i, k);
    }
    assert s == Slot(g.blocks[0], size, g.count) ==> IsSlot(size, h, s, 0, g.count);
  }

  lemma NextIsNew(size: nat, g: Ledger)
    requires SizeOk(size) && BlocksOk(g.blocks) && g.blocks != [] && g.count < Capacity(g.blocks[0], size)
    ensures !Carved(size, g, Slot(g.blocks[0], size, g.count))
  {
    var s := Slot(g.blocks[0], size, g.count);
    var h := TakeNext(g, s);
    if Carved(size, g, s) {
      var i: nat, k: nat :| IsSlot(size, g, s, i, k);
      SlotInBlock(size, g, s, i, k);
      assert IsSlot(size, h, s, 0, g.count);
      SlotInBlock(size, h, s, 0, g.count);
      if i == 0 {
        SlotsApart(g.blocks[0], size, k, g.count);
      }
    }
  }

  lemma Carve(r: Regs, w: Words, g: Ledger)
    requires Inv(r, w, g) && r.slot < r.last
    ensures g.blocks != [] && !Carved(r.size, g, r.slot)
    ensures Inv(r.(slot := r.slot + r.size / 8 * 8), w, TakeNext(g, r.slot))
  {
    var h := TakeNext(g, r.slot);
    BumpTest(r, g);
    NextIsNew(r.size, g);
    forall s ensures s in h.live || s in h.free <==> Carved(r.size, h, s) {
      NextSlots(r.size, g, h, s);
      assert s in g.live || s in g.free <==> Carved(r.size, g, s);
    }
  }

  /** The system gives blocks that are aligned, inside the address space and clear of the pool's others. */
  ghost predicate NewBlockOk(newBlock: nat, bs: seq<nat>) {
    BlockOk(newBlock) && forall b :: b in bs ==> Apart(newBlock, BLOCK_SIZE, b, BLOCK_SIZE)
  }

  lemma FirstSlots(size: nat, g: Ledger, newBlock: nat, h: Ledger, s: nat)
    requires SizeOk(size) && (g.blocks != [] ==> g.count == Capacity(g.blocks[0], size))
    requires h.blocks == [newBlock] + g.blocks && h.count == 1
    ensures Carved(size, h, s) <==> Carved(size, g, s) || s == First(newBlock, size)
  {
    assert Slot(newBlock, size, 0) == First(newBlock, size);
    if Carved(size, h, s) {
      var i: nat, k: nat :| IsSlot(size, h, s, i, k);
      if i > 0 {
        assert IsSlot(size, g, s, i - 1, k);
      }
    }
    if Carved(size, g, s) {
      var i: nat, k: nat :| IsSlot(size, g, s, i, k);
      assert IsSlot(size, h, s, i + 1, k);
    }
    assert s == First(newBlock, size) ==> IsSlot(size, h, s, 0, 0);
  }

  /** No slot lies in a new block. */
  lemma ClearOfNewBlock(size: nat, g: Ledger, newBlock: nat, s: nat)
    requires SizeOk(size) && BlocksOk(g.blocks) && Carved(size, g, s) && NewBlockOk(newBlock, g.blocks)
    requires g.blocks != [] ==> g.count <= Capacity(g.blocks[0], size)
    ensures Apart(s, size, newBlock, BLOCK_SIZE)
  {
    var i: nat, k: nat :| IsSlot(size, g, s, i, k);
    SlotInBlock(size, g, s, i, k);
    assert g.blocks[i] in g.blocks;
  }

  lemma Grow(r: Regs, w: Words, g: Ledger, newBlock: nat)
    requires Inv(r, w, g) && r.slot >= r.last && NewBlockOk(newBlock, g.blocks)
    ensures var o := AllocateBlock(r, w, newBlock);
      !Carved(r.size, g, o.slot) && Inv(o.regs, o.words, TakeFirst(g, newBlock, o.slot))
  {
    var o := AllocateBlock(r, w, newBlock);
    var h := TakeFirst(g, newBlock, o.slot);
    if g.blocks != [] {
      BumpTest(r, g);
    }
    GrowRegisters(r, w, g, newBlock);
    GrowChains(r, w, g, newBlock);
    assert Slot(newBlock, r.size, 0) == o.slot;
    SlotFits(newBlock, r.size, 0);
    if Carved(r.size, g, o.slot) {
      ClearOfNewBlock(r.size, g, newBlock, o.slot);
    }
    forall s ensures s in h.live || s in h.free <==> Carved(r.size, h, s) {
      FirstSlots(r.size, g, newBlock, h, s);
      assert s in g.live || s in g.free <==> Carved(r.size, g, s);
    }
  }

  lemma GrowRegisters(r: Regs, w: Words, g: Ledger, newBlock: nat)
    requires Inv(r, w, g) && NewBlockOk(newBlock, g.blocks)
    ensures var o := AllocateBlock(r, w, newBlock); var h := TakeFirst(g, newBlock, o.slot);
      BlocksOk(h.blocks) && Registers(o.regs, h)
  {
    var bs := [newBlock] + g.blocks;
    SlotFits(newBlock, r.size, 0);
    assert Slot(newBlock, r.size, 1) == First(newBlock, r.size) + r.size;
    assert forall i :: 0 < i < |bs| ==> bs[i] == g.blocks[i - 1] && g.blocks[i - 1] in g.blocks;
    assert forall i :: 0 <= i < |g.blocks| ==> BlockOk(g.blocks[i]);
    forall i | 0 <= i < |bs| ensures BlockOk(bs[i]) {
    }
  }

  lemma GrowChains(r: Regs, w: Words, g: Ledger, newBlock: nat)
    requires Inv(r, w, g) && NewBlockOk(newBlock, g.blocks)
    requires g.blocks != [] ==> g.count <= Capacity(g.blocks[0], r.size)
    ensures Chain(w[newBlock := r.block], newBlock, [newBlock] + g.blocks)
    ensures Chain(w[newBlock := r.block], r.free, g.free)
  {
    forall s | s in g.free ensures s != newBlock {
      assert Carved(r.size, g, s);
      ClearOfNewBlock(r.size, g, newBlock, s);
    }
    ChainFrame(w, newBlock, r.block, r.block, g.blocks);
    ChainFrame(w, newBlock, r.block, r.free, g.free);
    assert ([newBlock] + g.blocks)[1..] == g.blocks;
  }

  /** The ledger after an allocation. */
  ghost function Taken(r: Regs, g: Ledger, newBlock: nat): Ledger
    requires r.size > 0
  {
    if r.free != 0 && g.free != [] then TakeFree(g)
    else if r.slot >= r.last then TakeFirst(g, newBlock, First(newBlock, r.size))
    else TakeNext(g, r.slot)
  }

  /** An allocation keeps the invariant and hands out a slot that was not in use. */
  lemma AllocateSafe(r: Regs, w: Words, g: Ledger, newBlock: nat)
    requires Inv(r, w, g) && NewBlockOk(newBlock, g.blocks)
    ensures var o := Allocate(r, w, newBlock); var h := Taken(r, g, newBlock);
      && Inv(o.regs, o.words, h) && o.slot !in g.live && h.live == g.live + {o.slot}
  {
    if r.free != 0 {
      Reuse(r, w, g);
    } else if r.slot < r.last {
      Carve(r, w, g);
      assert Carved(r.size, g, r.slot) <==> r.slot in g.live || r.slot in g.free;
    } else {
      Grow(r, w, g, newBlock);
      var s := First(newBlock, r.size);
      assert Carved(r.size, g, s) <==> s in g.live || s in g.free;
    }
  }

  /** A matched return keeps the invariant; the slot is the next one handed out. */
  lemma DeallocateSafe(r: Regs, w: Words, g: Ledger, p: nat, newBlock: nat)
    requires Inv(r, w, g) && p in g.live
    ensures var o := Deallocate(r, w, p); var h := Return(g, p);
      && Inv(o.regs, o.words, h) && h.live == g.live - {p}
      && Allocate(o.regs, o.words, newBlock).slot == p && Allocate(o.regs, o.words, newBlock).regs == r
  {
    PutBack(r, w, g, p);
    assert Carved(r.size, g, p);
    LiveIsPositive(r, w, g, p);
  }

  lemma NullNotLive(r: Regs, w: Words, g: Ledger)
    requires Inv(r, w, g)
    ensures 0 !in g.live
  {
    if 0 in g.live {
      assert Carved(r.size, g, 0);
      LiveIsPositive(r, w, g, 0);
    }
  }

  lemma {:induction false} ChainAgrees(w: Words, w': Words, head: nat, s: seq<nat>)
    requires Chain(w, head, s) && forall a :: a in s ==> At(w, a) == At(w', a)
    ensures Chain(w', head, s)
    decreases |s|
  {
    if s != [] {
      ChainAgrees(w, w', At(w, head), s[1..]);
    }
  }

  lemma CarvedInBlocks(r: Regs, g: Ledger, s: nat)
    requires SizeOk(r.size) && BlocksOk(g.blocks) && Registers(r, g) && Carved(r.size, g, s)
    ensures exists b :: b in g.blocks && b + LINK_SIZE <= s && s + r.size <= b + BLOCK_SIZE
    ensures s % 8 == 0
  {
    var i: nat, k: nat :| IsSlot(r.size, g, s, i, k);
    SlotInBlock(r.size, g, s, i, k);
    assert g.blocks[i] in g.blocks;
  }

  /** From `w` to `w'` only bytes of the `n` at `s` have changed: all words at other multiples of 8 are the same. */
  ghost predicate OnlyInside(w: Words, w': Words, s: nat, n: nat) {
    forall a: nat {:trigger At(w', a)} :: a % 8 == 0 && !(s <= a < s + n) ==> At(w', a) == At(w, a)
  }

  /** Whatever bytes of a slot in use are written, nothing the pool relies on is disturbed. */
  lemma UserWriteSafe(r: Regs, w: Words, w': Words, g: Ledger, s: nat)
    requires Inv(r, w, g) && s in g.live && OnlyInside(w, w', s, r.size)
    ensures Inv(r, w', g)
  {
    assert Carved(r.size, g, s);
    forall b | b in g.blocks ensures At(w', b) == At(w, b) {
      SlotClearOfLinks(r.size, g, s, b);
      var i :| 0 <= i < |g.blocks| && g.blocks[i] == b;
      assert BlockOk(g.blocks[i]);
    }
    forall t | t in g.free ensures At(w', t) == At(w, t) {
      assert Carved(r.size, g, t);
      SlotsDisjoint(r.size, g, s, t);
      CarvedInBlocks(r, g, t);
    }
    ChainAgrees(w, w', r.block, g.blocks);
    ChainAgrees(w, w', r.free, g.free);
  }

  /** A live slot lies in one block of the pool, past its link, and overlaps no other live or returned slot. */
  lemma LiveSlotSafe(r: Regs, w: Words, g: Ledger, s: nat)
    requires Inv(r, w, g) && s in g.live
    ensures exists i :: 0 <= i < |g.blocks| && g.blocks[i] + LINK_SIZE <= s && s + r.size <= g.blocks[i] + BLOCK_SIZE
    ensures forall t :: t != s && (t in g.live || t in g.free) ==> Apart(s, r.size, t, r.size)
    ensures s !in g.free && s % 8 == 0
  {
    assert Carved(r.size, g, s);
    var i: nat, k: nat :| IsSlot(r.size, g, s, i, k);
    SlotInBlock(r.size, g, s, i, k);
    forall t | t != s && (t in g.live || t in g.free) ensures Apart(s, r.size, t, r.size) {
      assert Carved(r.size, g, t);
      SlotsDisjoint(r.size, g, s, t);
    }
  }

  // Conservation

  ghost function Capacities(size: nat, bs: seq<nat>): nat
    requires 0 < size <= 512
  {
    if bs == [] then 0 else Capacity(bs[0], size) + Capacities(size, bs[1..])
  }

  /** All slots carved so far: the newest block's, and the whole capacity of every older one. */
  ghost function Total(size: nat, g: Ledger): nat
    requires 0 < size <= 512
  {
    if g.blocks == [] then 0 else g.count + Capacities(size, g.blocks[1..])
  }

  ghost predicate Conserved(size: nat, g: Ledger)
    requires 0 < size <= 512
  {
    |g.live| + |g.free| == Total(size, g)
  }

  lemma AllocateConserves(r: Regs, w: Words, g: Ledger, newBlock: nat)
    requires Inv(r, w, g) && NewBlockOk(newBlock, g.blocks) && Conserved(r.size, g)
    ensures Conserved(r.size, Taken(r, g, newBlock))
  {
    AllocateSafe(r, w, g, newBlock);
    if r.free == 0 && r.slot >= r.last {
      assert ([newBlock] + g.blocks)[1..] == g.blocks;
      if g.blocks != [] {
        BumpTest(r, g);
      }
    }
  }

  lemma DeallocateConserves(r: Regs, g: Ledger, p: nat)
    requires SizeOk(r.size) && p in g.live && Conserved(r.size, g)
    ensures Conserved(r.size, Return(g, p))
  {
    assert |g.live - {p}| == |g.live| - 1;
  }

  /** A new block is asked for only when every slot of every block has been carved and none is returned. */
  lemma GrowsOnlyWhenFull(r: Regs, w: Words, g: Ledger, newBlock: nat)
    requires Inv(r, w, g) && Conserved(r.size, g)
    requires Allocate(r, w, newBlock).regs.block != r.block
    ensures |g.live| == Capacities(r.size, g.blocks)
  {
    if g.blocks != [] {
      BumpTest(r, g);
    }
    assert g.free == [];
  }

  // Several pools over one memory

  ghost predicate InBlocks(g: Ledger, a: nat) {
    exists b :: b in g.blocks && b <= a < b + BLOCK_SIZE
  }

  /** A pool relies only on the words in its own blocks. */
  lemma OwnWords(r: Regs, w: Words, w': Words, g: Ledger)
    requires Inv(r, w, g) && forall a :: InBlocks(g, a) && a % 8 == 0 ==> At(w, a) == At(w', a)
    ensures Inv(r, w', g)
  {
    forall b | b in g.blocks ensures At(w, b) == At(w', b) {
      var i :| 0 <= i < |g.blocks| && g.blocks[i] == b;
      assert InBlocks(g, b) && BlockOk(g.blocks[i]);
    }
    forall s | s in g.free ensures At(w, s) == At(w', s) {
      assert Carved(r.size, g, s);
      CarvedInBlocks(r, g, s);
      assert InBlocks(g, s);
    }
    ChainAgrees(w, w', r.block, g.blocks);
    ChainAgrees(w, w', r.free, g.free);
  }

  /** A region clear of all blocks. */
  ghost predicate ClearOf(g: Ledger, p: nat, n: nat) {
    forall b :: b in g.blocks ==> Apart(p, n, b, BLOCK_SIZE)
  }

  ghost predicate BlocksApart(g: Ledger, h: Ledger) {
    forall b :: b in g.blocks ==> ClearOf(h, b, BLOCK_SIZE)
  }

  /** The pools' blocks and the large allocations lie apart from each other. */
  ghost predicate Separate(gs: seq<Ledger>, large: map<nat, nat>) {
    && (forall i, j :: 0 <= i < |gs| && 0 <= j < |gs| && i != j ==> BlocksApart(gs[i], gs[j]))
    && (forall i, p :: 0 <= i < |gs| && p in large ==> ClearOf(gs[i], p, large[p]))
    && (forall p, q :: p in large && q in large && p != q ==> Apart(p, large[p], q, large[q]))
  }

  /** What the system may give: aligned, inside the address space and clear of everything given before. */
  ghost predicate SystemGives(p: nat, n: nat, gs: seq<Ledger>, large: map<nat, nat>) {
    && 0 < p && p % 8 == 0 && p + n <= TWO_TO_THE_64
    && (forall i :: 0 <= i < |gs| ==> ClearOf(gs[i], p, n))
    && (forall q :: q in large ==> Apart(p, n, q, large[q]))
  }

  lemma SeparateBlock(gs: seq<Ledger>, large: map<nat, nat>, c: nat, h: Ledger, newBlock: nat)
    requires Separate(gs, large) && c < |gs| && SystemGives(newBlock, BLOCK_SIZE, gs, large)
    requires h.blocks == gs[c].blocks || h.blocks == [newBlock] + gs[c].blocks
    ensures Separate(gs[c := h], large)
  {
    var hs := gs[c := h];
    assert forall b :: b in h.blocks ==> b == newBlock || b in gs[c].blocks;
    forall i, j | 0 <= i < |hs| && 0 <= j < |hs| && i != j ensures BlocksApart(hs[i], hs[j]) {
      assert BlocksApart(gs[i], gs[j]) && BlocksApart(gs[j], gs[i]);
      assert ClearOf(gs[i], newBlock, BLOCK_SIZE) && ClearOf(gs[j], newBlock, BLOCK_SIZE);
    }
    forall i, p | 0 <= i < |hs| && p in large ensures ClearOf(hs[i], p, large[p]) {
      assert ClearOf(gs[i], p, large[p]);
    }
  }

  lemma SeparateLarge(gs: seq<Ledger>, large: map<nat, nat>, p: nat, n: nat)
    requires Separate(gs, large) && SystemGives(p, n, gs, large)
    ensures Separate(gs, large[p := n])
  {
  }
}
