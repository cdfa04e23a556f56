/** The memory pools as objects over one memory, and the 64 of them behind the allocation functions. */
module MemoryPools {
  import opened Carving
  import M = PoolModel

  class Memory {
    var words: M.Words

    constructor () {
      words := map[];
    }
  }

  class MemoryPool {
    const slotSize: nat
    const memory: Memory
    var currentBlock: nat
    var currentSlot: nat
    var lastSlot: nat
    var freeSlot: nat
    ghost var ledger: M.Ledger

    ghost function Regs(): M.Regs
      reads this
    {
      M.Regs(slotSize, currentBlock, currentSlot, lastSlot, freeSlot)
    }

    ghost predicate Valid()
      reads this, memory
    {
      M.Inv(Regs(), memory.words, ledger) && M.Conserved(slotSize, ledger)
    }

    constructor (size: nat, memory: Memory)
      requires M.SizeOk(size)
      ensures Valid() && slotSize == size && this.memory == memory
      ensures ledger == M.Ledger([], 0, [], {})
    {
      slotSize, this.memory := size, memory;
      currentBlock, currentSlot, lastSlot, freeSlot := 0, 0, 0, 0;
      ledger := M.Ledger([], 0, [], {});
    }

    method AllocateBlock(newBlock: nat) returns (useSlot: nat)
      requires 0 < slotSize <= 512
      modifies this`currentBlock, this`currentSlot, this`lastSlot, memory
      ensures M.Outcome(Regs(), memory.words, useSlot) == M.AllocateBlock(old(Regs()), old(memory.words), newBlock)
    {
      var body := newBlock + LINK_SIZE;
      var bodyPadding := Pad(body, slotSize);
      memory.words := memory.words[newBlock := currentBlock];
      currentBlock := newBlock;
      currentSlot := body + bodyPadding;
      lastSlot := newBlock + BLOCK_SIZE - slotSize + 1;
      useSlot := currentSlot;
      currentSlot := currentSlot + slotSize / 8 * 8;
    }

    method NofreeSolve(newBlock: nat) returns (useSlot: nat)
      requires 0 < slotSize <= 512
      modifies this`currentBlock, this`currentSlot, this`lastSlot, memory
      ensures M.Outcome(Regs(), memory.words, useSlot) == M.NofreeSolve(old(Regs()), old(memory.words), newBlock)
    {
      if currentSlot >= lastSlot {
        useSlot := AllocateBlock(newBlock);
        return;
      }
      useSlot := currentSlot;
      currentSlot := currentSlot + slotSize / 8 * 8;
    }

    /** Hands out a slot; `newBlock` is what the system would give if it were asked for a block. */
    method Allocate(newBlock: nat) returns (result: nat)
      requires Valid() && M.NewBlockOk(newBlock, ledger.blocks)
      modifies this, memory
      ensures Valid() && result !in old(ledger.live) && ledger.live == old(ledger.live) + {result}
      ensures M.Outcome(Regs(), memory.words, result) == M.Allocate(old(Regs()), old(memory.words), newBlock)
      ensures ledger.blocks == old(ledger.blocks) || ledger.blocks == [newBlock] + old(ledger.blocks)
      ensures forall a :: a != newBlock ==> M.At(memory.words, a) == old(M.At(memory.words, a))
    {
      M.AllocateSafe(Regs(), memory.words, ledger, newBlock);
      M.AllocateConserves(Regs(), memory.words, ledger, newBlock);
      ghost var taken := M.Taken(Regs(), ledger, newBlock);
      if freeSlot != 0 {
        result := freeSlot;
        freeSlot := M.At(memory.words, freeSlot);
      } else {
        result := NofreeSolve(newBlock);
      }
      ledger := taken;
    }

    /** Takes a slot back. */
    method DeAllocate(p: nat)
      requires Valid() && (p == 0 || p in ledger.live)
      modifies this, memory
      ensures Valid() && ledger.live == old(ledger.live) - {p} && ledger.blocks == old(ledger.blocks)
      ensures p != 0 ==> ledger.free == [p] + old(ledger.free)
      ensures forall a :: a != p ==> M.At(memory.words, a) == old(M.At(memory.words, a))
    {
      if p == 0 {
        M.NullNotLive(Regs(), memory.words, ledger);
        return;
      }
      M.DeallocateSafe(Regs(), memory.words, ledger, p, 0);
      M.DeallocateConserves(Regs(), ledger, p);
      ghost var returned := M.Return(ledger, p);
      memory.words := memory.words[p := freeSlot];
      freeSlot := p;
      ledger := returned;
    }

    /** The owner of a slot writes any bytes of it: memory is `words` after that. */
    method Write(s: nat, words: M.Words)
      requires Valid() && s in ledger.live && M.OnlyInside(memory.words, words, s, slotSize)
      modifies memory
      ensures Valid() && memory.words == words
    {
      M.UserWriteSafe(Regs(), memory.words, words, ledger, s);
      memory.words := words;
    }
  }

  /** The bytes an allocation really gets: its size class, or the size itself above 512. */
  function Room(size: nat): nat
    requires size > 0
  {
    if size > 512 then size else SizeOf(ClassOf(size))
  }

  /** The 64 pools and the allocations too large for them. */
  class MemoryManager {
    const memory: Memory
    const pools: seq<MemoryPool>
    ghost var large: map<nat, nat>

    ghost function Ledgers(): (gs: seq<M.Ledger>)
      reads pools
      ensures |gs| == |pools| && forall i :: 0 <= i < |pools| ==> gs[i] == pools[i].ledger
    {
      seq(|pools|, i requires 0 <= i < |pools| reads pools => pools[i].ledger)
    }

    ghost predicate PoolOk(i: nat)
      requires i < |pools|
      reads pools[i], memory
    {
      pools[i].memory == memory && pools[i].slotSize == SizeOf(i) && pools[i].Valid()
    }

    ghost predicate Valid()
      reads this, memory, pools
    {
      && |pools| == 64
      && (forall i, j :: 0 <= i < j < 64 ==> pools[i] != pools[j])
      && (forall i {:trigger PoolOk(i)} :: 0 <= i < 64 ==> PoolOk(i))
      && (forall p :: p in large ==> large[p] > 512 && p > 0 && p % 8 == 0)
      && M.Separate(Ledgers(), large)
    }

    /** The region of `n` bytes at `p` is in use. */
    ghost predicate Live(p: nat, n: nat)
      reads this, pools
    {
      if n > 512 then p in large && large[p] == n
      else |pools| == 64 && n > 0 && n % 8 == 0 && p in pools[n / 8 - 1].ledger.live
    }

    /** The pools of slot sizes 8, 16, ..., 512, all empty. */
    constructor ()
      ensures Valid() && large == map[] && forall p, n :: !Live(p, n)
      ensures fresh(memory) && forall i :: 0 <= i < |pools| ==> fresh(pools[i])
    {
      var m := new Memory();
      var ps: seq<MemoryPool> := [];
      for i := 0 to 64
        invariant |ps| == i && fresh(m)
        invariant forall j :: 0 <= j < i ==> fresh(ps[j]) && ps[j].memory == m && ps[j].slotSize == SizeOf(j)
        invariant forall j :: 0 <= j < i ==> ps[j].Valid() && ps[j].ledger == M.Ledger([], 0, [], {})
        invariant forall j, k :: 0 <= j < k < i ==> ps[j] != ps[k]
      {
        var pool := new MemoryPool(SizeOf(i), m);
        ps := ps + [pool];
      }
      memory, pools, large := m, ps, map[];
    }

    lemma LiveInBlock(i: nat, p: nat)
      requires i < |pools| && PoolOk(i) && p in pools[i].ledger.live
      ensures exists b :: b in pools[i].ledger.blocks && b + LINK_SIZE <= p && p + pools[i].slotSize <= b + BLOCK_SIZE
      ensures forall q :: q in pools[i].ledger.live && q != p ==> M.Apart(p, pools[i].slotSize, q, pools[i].slotSize)
      ensures p % 8 == 0
    {
      var pool := pools[i];
      M.LiveSlotSafe(pool.Regs(), memory.words, pool.ledger, p);
      var k :| 0 <= k < |pool.ledger.blocks| && pool.ledger.blocks[k] + LINK_SIZE <= p
        && p + pool.slotSize <= pool.ledger.blocks[k] + BLOCK_SIZE;
      assert pool.ledger.blocks[k] in pool.ledger.blocks;
    }

    lemma PoolRegionsApart(i: nat, p: nat, j: nat, q: nat)
      requires Valid() && i < 64 && j < 64 && p in pools[i].ledger.live && q in pools[j].ledger.live
      ensures (i == j && p == q) || M.Apart(p, pools[i].slotSize, q, pools[j].slotSize)
    {
      assert PoolOk(i) && PoolOk(j);
      LiveInBlock(i, p);
      LiveInBlock(j, q);
      if i != j {
        assert M.BlocksApart(Ledgers()[i], Ledgers()[j]);
        var b :| b in pools[i].ledger.blocks && b + LINK_SIZE <= p && p + pools[i].slotSize <= b + BLOCK_SIZE;
        assert M.ClearOf(Ledgers()[j], b, BLOCK_SIZE);
      }
    }

    lemma LargeApart(i: nat, p: nat, q: nat)
      requires Valid() && i < 64 && p in pools[i].ledger.live && q in large
      ensures M.Apart(p, pools[i].slotSize, q, large[q])
    {
      assert PoolOk(i);
      LiveInBlock(i, p);
      assert M.ClearOf(Ledgers()[i], q, large[q]);
    }

    /** Regions in use do not overlap, whatever their pools. */
    lemma LiveApart(p: nat, m: nat, q: nat, n: nat)
      requires Valid() && Live(p, m) && Live(q, n)
      ensures (p == q && m == n) || M.Apart(p, m, q, n)
    {
      if m <= 512 {
        assert PoolOk(m / 8 - 1);
      }
      if n <= 512 {
        assert PoolOk(n / 8 - 1);
      }
      if m <= 512 && n <= 512 {
        PoolRegionsApart(m / 8 - 1, p, n / 8 - 1, q);
      } else if m <= 512 {
        LargeApart(m / 8 - 1, p, q);
      } else if n <= 512 {
        LargeApart(n / 8 - 1, q, p);
      }
    }

    /** Every region in use starts at a multiple of 8, never at null. */
    lemma LiveAligned(p: nat, n: nat)
      requires Valid() && Live(p, n)
      ensures p > 0 && p % 8 == 0
    {
      if n <= 512 {
        assert PoolOk(n / 8 - 1);
        LiveInBlock(n / 8 - 1, p);
      }
    }

    /** What the system gives is clear of every region in use. */
    lemma GivenApart(p: nat, m: nat, q: nat, n: nat)
      requires Valid() && Live(p, m) && M.SystemGives(q, n, Ledgers(), large)
      ensures M.Apart(p, m, q, n)
    {
      if m <= 512 {
        var i := m / 8 - 1;
        assert PoolOk(i);
        LiveInBlock(i, p);
        assert M.ClearOf(Ledgers()[i], q, n);
      }
    }

    /** A region the system gives becomes a large allocation. */
    method AddLarge(p: nat, n: nat)
      requires Valid() && n > 512 && M.SystemGives(p, n, Ledgers(), large)
      modifies this`large
      ensures Valid() && p !in old(large) && large == old(large)[p := n]
    {
      M.SeparateLarge(Ledgers(), large, p, n);
      large := large[p := n];
    }

    /** A pool that was in order with `words` still is when only words clear of its blocks have changed since. */
    lemma StaysOk(j: nat, words: M.Words, p: nat, n: nat)
      requires j < |pools| && pools[j].memory == memory && pools[j].slotSize == SizeOf(j)
      requires M.Inv(pools[j].Regs(), words, pools[j].ledger) && M.Conserved(pools[j].slotSize, pools[j].ledger)
      requires M.ClearOf(pools[j].ledger, p, n)
      requires forall a: nat :: !(p <= a < p + n) ==> M.At(memory.words, a) == M.At(words, a)
      ensures PoolOk(j)
    {
      M.OwnWords(pools[j].Regs(), words, memory.words, pools[j].ledger);
    }

    /** A slot of pool `c`; `newBlock` is what the system would give for a new block. */
    method TakeSlot(c: nat, newBlock: nat) returns (p: nat)
      requires Valid() && c < 64 && M.SystemGives(newBlock, BLOCK_SIZE, Ledgers(), large)
      modifies pools[c], memory
      ensures Valid() && p !in old(pools[c].ledger.live) && pools[c].ledger.live == old(pools[c].ledger.live) + {p}
      ensures forall a :: a != newBlock ==> M.At(memory.words, a) == old(M.At(memory.words, a))
    {
      assert PoolOk(c) && M.ClearOf(Ledgers()[c], newBlock, BLOCK_SIZE);
      ghost var gs, words := Ledgers(), memory.words;
      label before:
      p := pools[c].Allocate(newBlock);
      M.SeparateBlock(gs, large, c, pools[c].ledger, newBlock);
      assert Ledgers() == gs[c := pools[c].ledger];
      forall j | 0 <= j < 64 ensures PoolOk(j) {
        assert old@before(PoolOk(j));
        if j != c {
          assert M.ClearOf(gs[j], newBlock, BLOCK_SIZE);
          StaysOk(j, words, newBlock, BLOCK_SIZE);
        }
      }
    }

    /** Gives slot `p` back to pool `c`. */
    method ReturnSlot(c: nat, p: nat)
      requires Valid() && c < 64 && p in pools[c].ledger.live
      modifies pools[c], memory
      ensures Valid() && pools[c].ledger.live == old(pools[c].ledger.live) - {p}
      ensures forall a :: a != p ==> M.At(memory.words, a) == old(M.At(memory.words, a))
    {
      assert PoolOk(c);
      ghost var gs, words := Ledgers(), memory.words;
      LiveInBlock(c, p);
      ghost var b :| b in gs[c].blocks && b + LINK_SIZE <= p && p + pools[c].slotSize <= b + BLOCK_SIZE;
      label before:
      pools[c].DeAllocate(p);
      assert Ledgers() == gs[c := pools[c].ledger];
      forall j | 0 <= j < 64 ensures PoolOk(j) {
        assert old@before(PoolOk(j));
        if j != c {
          assert M.BlocksApart(gs[c], gs[j]) && M.ClearOf(gs[j], b, BLOCK_SIZE);
          StaysOk(j, words, b, BLOCK_SIZE);
        }
      }
      SameBlocks(gs, c);
    }

    lemma SameBlocks(gs: seq<M.Ledger>, c: nat)
      requires |gs| == |pools| && c < |gs| && pools[c].ledger.blocks == gs[c].blocks
      requires Ledgers() == gs[c := pools[c].ledger] && M.Separate(gs, large)
      ensures M.Separate(Ledgers(), large)
    {
      var hs := Ledgers();
      forall i, j | 0 <= i < |hs| && 0 <= j < |hs| && i != j ensures M.BlocksApart(hs[i], hs[j]) {
        assert M.BlocksApart(gs[i], gs[j]);
      }
    }

    /** Gives `size` bytes; `given` is what the system would give if it were asked. */
    method UseMemory(size: nat, given: nat) returns (p: nat)
      requires Valid()
      requires size > 0 ==> M.SystemGives(given, if size > 512 then size else BLOCK_SIZE, Ledgers(), large)
      modifies this`large, pools, memory
      ensures Valid()
      ensures size == 0 ==> p == 0 && forall q: nat, n: nat :: Live(q, n) <==> old(Live(q, n))
      ensures size > 0 ==> !old(Live(p, Room(size)))
      ensures size > 0 ==> forall q: nat, n: nat :: Live(q, n) <==> old(Live(q, n)) || (q == p && n == Room(size))
      ensures forall q: nat, n: nat, a: nat {:trigger old(Live(q, n)), M.At(memory.words, a)} ::
        old(Live(q, n)) && q <= a < q + n ==>
        M.At(memory.words, a) == old(M.At(memory.words, a))
    {
      if size == 0 {
        return 0;
      }
      if size > 512 {
        p := given;
        AddLarge(p, size);
        return;
      }
      SmallestClass(size);
      forall q, n | Live(q, n) ensures M.Apart(q, n, given, BLOCK_SIZE) {
        GivenApart(q, n, given, BLOCK_SIZE);
      }
      p := TakeSlot(ClassOf(size), given);
    }

    /** Takes back what `UseMemory` gave for the same size. */
    method FreeMemory(size: nat, p: nat)
      requires Valid() && (p == 0 || (size > 0 && Live(p, Room(size))))
      modifies this`large, pools, memory
      ensures Valid()
      ensures forall q: nat, n: nat :: Live(q, n) <==> old(Live(q, n)) && (p == 0 || !(q == p && n == Room(size)))
      ensures forall q: nat, n: nat, a: nat {:trigger Live(q, n), M.At(memory.words, a)} ::
        Live(q, n) && q <= a < q + n ==>
        M.At(memory.words, a) == old(M.At(memory.words, a))
    {
      if p == 0 {
        return;
      }
      if size > 512 {
        large := large - {p};
        return;
      }
      SmallestClass(size);
      forall q, n | Live(q, n) && !(q == p && n == Room(size)) ensures M.Apart(q, n, p, Room(size)) {
        LiveApart(q, n, p, Room(size));
      }
      ReturnSlot(ClassOf(size), p);
    }

    /** A region in use lies in one block of its own pool, or is large, and so clear of the blocks of every other. */
    lemma ClearOfOthers(p: nat, n: nat, j: nat)
      requires Valid() && Live(p, n) && j < 64 && (n > 512 || j != n / 8 - 1)
      ensures M.ClearOf(pools[j].ledger, p, n)
    {
      if n > 512 {
        assert M.ClearOf(Ledgers()[j], p, n);
      } else {
        var i := n / 8 - 1;
        assert PoolOk(i) && M.BlocksApart(Ledgers()[i], Ledgers()[j]);
        LiveInBlock(i, p);
        var b :| b in pools[i].ledger.blocks && b + LINK_SIZE <= p && p + pools[i].slotSize <= b + BLOCK_SIZE;
        assert M.ClearOf(Ledgers()[j], b, BLOCK_SIZE);
      }
    }

    lemma WritePoolOk(p: nat, n: nat, words: M.Words, j: nat)
      requires Valid() && Live(p, n) && j < 64 && M.OnlyInside(memory.words, words, p, n)
      ensures M.Inv(pools[j].Regs(), words, pools[j].ledger)
    {
      var pool := pools[j];
      assert PoolOk(j);
      if n <= 512 && j == n / 8 - 1 {
        M.UserWriteSafe(pool.Regs(), memory.words, words, pool.ledger, p);
      } else {
        ClearOfOthers(p, n, j);
        M.OwnWords(pool.Regs(), memory.words, words, pool.ledger);
      }
    }

    /** The owner of a region writes any bytes of it: all regions stay in use, and no word of another one changes. */
    method Write(p: nat, n: nat, words: M.Words)
      requires Valid() && Live(p, n) && M.OnlyInside(memory.words, words, p, n)
      modifies memory
      ensures Valid() && memory.words == words && forall q: nat, m: nat :: Live(q, m) <==> old(Live(q, m))
      ensures forall q: nat, m: nat, a: nat {:trigger Live(q, m), M.At(memory.words, a)} ::
        Live(q, m) && !(q == p && m == n) && q <= a < q + m && a % 8 == 0 ==>
        M.At(memory.words, a) == old(M.At(memory.words, a))
    {
      forall j | 0 <= j < 64 ensures M.Inv(pools[j].Regs(), words, pools[j].ledger) {
        WritePoolOk(p, n, words, j);
      }
      forall q, m | Live(q, m) && !(q == p && m == n) ensures M.Apart(p, n, q, m) {
        LiveApart(p, n, q, m);
      }
      label before:
      memory.words := words;
      forall j | 0 <= j < 64 ensures PoolOk(j) {
        assert old@before(PoolOk(j));
      }
    }
  }
}
