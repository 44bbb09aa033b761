/** How memp_init cuts memp_memory into the elements of the pools (src/core/memp.c). */
module MempCarving {

  type Positive = n: int | 1 <= n witness 1

  const MEM_ALIGNMENT: Positive
  const POINTER_SIZE := 4

  /** The next multiple of MEM_ALIGNMENT. */
  function AlignUp(n: nat): nat { (n + MEM_ALIGNMENT - 1) / MEM_ALIGNMENT * MEM_ALIGNMENT }

  /** MEMP_SIZE, and MEMP_SANITY_REGION_AFTER_ALIGNED: zero without MEMP_OVERFLOW_CHECK. */
  type Aligned = n: int | 0 <= n && n % MEM_ALIGNMENT == 0 witness 0
  const MEMP_SIZE: Aligned
  const REGION_AFTER: Aligned

  /** A line of memp_std.h; an element has room for the pointer of the free list. */
  datatype Pool = Pool(num: nat, size: nat)

  predicate ValidPools(pools: seq<Pool>) {
    forall i :: 0 <= i < |pools| ==> pools[i].num < 0x1_0000 && pools[i].size >= POINTER_SIZE
  }

  lemma AlignUpIs(n: nat)
    ensures AlignUp(n) % MEM_ALIGNMENT == 0 && n <= AlignUp(n) < n + MEM_ALIGNMENT
  {
    var q := (n + MEM_ALIGNMENT - 1) / MEM_ALIGNMENT;
    ModOfProduct(q, MEM_ALIGNMENT);
    assert q * MEM_ALIGNMENT <= n + MEM_ALIGNMENT - 1 < q * MEM_ALIGNMENT + MEM_ALIGNMENT;
  }

  lemma SumIsAligned(a: nat, b: nat)
    requires a % MEM_ALIGNMENT == 0 && b % MEM_ALIGNMENT == 0
    ensures (a + b) % MEM_ALIGNMENT == 0
  {
    var x, y, m: int := a / MEM_ALIGNMENT, b / MEM_ALIGNMENT, MEM_ALIGNMENT;
    assert a == x * m && b == y * m;
    assert a + b == (x + y) * m;
    ModOfProduct(x + y, m);
  }

  lemma ModOfProduct(x: nat, m: nat)
    requires m > 0
    ensures x * m % m == 0
  {
    var q: int := x * m / m;
    MultipleIsFar(x - q, m);
    assert x * m == q * m + x * m % m;
    assert (x - q) * m == x * m % m;
  }

  lemma MultipleIsFar(d: int, m: int)
    requires m > 0
    ensures (d >= 1 ==> d * m >= m) && (d <= -1 ==> d * m <= -m) && (d == 0 ==> d * m == 0)
  {
  }

  /** The distance from one element to the next. */
  function Stride(p: Pool): nat { MEMP_SIZE + AlignUp(p.size) + REGION_AFTER }

  lemma StrideIs(p: Pool)
    requires p.size >= POINTER_SIZE
    ensures Stride(p) % MEM_ALIGNMENT == 0 && Stride(p) >= POINTER_SIZE
  {
    AlignUpIs(p.size);
    SumIsAligned(MEMP_SIZE, AlignUp(p.size));
    SumIsAligned(MEMP_SIZE + AlignUp(p.size), REGION_AFTER);
  }

  /** n elements of a pool. */
  function Run(n: nat, stride: nat): nat {
    if n == 0 then 0 else Run(n - 1, stride) + stride
  }

  /** Where the elements of pool i begin, from an aligned address on. */
  function PoolStart(pools: seq<Pool>, start: nat, i: nat): nat
    requires i <= |pools|
  {
    if i == 0 then start else PoolStart(pools, start, i - 1) + Run(pools[i - 1].num, Stride(pools[i - 1]))
  }

  /** Element j of pool i. */
  function Block(pools: seq<Pool>, start: nat, i: nat, j: nat): nat
    requires i < |pools|
  {
    PoolStart(pools, start, i) + Run(j, Stride(pools[i]))
  }

  lemma BlockSteps(pools: seq<Pool>, start: nat, i: nat, j: nat)
    requires i < |pools|
    ensures Block(pools, start, i, 0) == PoolStart(pools, start, i)
    ensures Block(pools, start, i, j + 1) == Block(pools, start, i, j) + Stride(pools[i])
    ensures Block(pools, start, i, pools[i].num) == PoolStart(pools, start, i + 1)
  {
  }

  /** The size of memp_memory. */
  function MemorySize(pools: seq<Pool>): nat {
    MEM_ALIGNMENT - 1 + PoolStart(pools, 0, |pools|)
  }

  lemma {:induction false} RunGrows(n: nat, n': nat, stride: nat)
    requires n <= n'
    ensures Run(n, stride) <= Run(n', stride) && (n < n' ==> Run(n, stride) + stride <= Run(n', stride))
  {
    if n < n' {
      RunGrows(n, n' - 1, stride);
    }
  }

  lemma {:induction false} RunIsAligned(n: nat, stride: nat)
    requires stride % MEM_ALIGNMENT == 0
    ensures Run(n, stride) % MEM_ALIGNMENT == 0
  {
    if n > 0 {
      RunIsAligned(n - 1, stride);
      SumIsAligned(Run(n - 1, stride), stride);
    }
  }

  lemma {:induction false} StartsGrow(pools: seq<Pool>, start: nat, i: nat, i': nat)
    requires i <= i' <= |pools|
    ensures PoolStart(pools, start, i) <= PoolStart(pools, start, i')
  {
    if i < i' {
      StartsGrow(pools, start, i, i' - 1);
    }
  }

  lemma {:induction false} StartsShift(pools: seq<Pool>, start: nat, i: nat)
    requires i <= |pools|
    ensures PoolStart(pools, start, i) == start + PoolStart(pools, 0, i)
  {
    if i > 0 {
      StartsShift(pools, start, i - 1);
    }
  }

  lemma {:induction false} StartsAligned(pools: seq<Pool>, start: nat, i: nat)
    requires i <= |pools| && ValidPools(pools) && start % MEM_ALIGNMENT == 0
    ensures PoolStart(pools, start, i) % MEM_ALIGNMENT == 0
  {
    if i > 0 {
      StartsAligned(pools, start, i - 1);
      StrideIs(pools[i - 1]);
      RunIsAligned(pools[i - 1].num, Stride(pools[i - 1]));
      SumIsAligned(PoolStart(pools, start, i - 1), Run(pools[i - 1].num, Stride(pools[i - 1])));
    }
  }

  /** An element ends before the next one of its pool begins, and before the next pool does. */
  lemma BlockEnds(pools: seq<Pool>, start: nat, i: nat, j: nat)
    requires i < |pools| && j < pools[i].num
    ensures Block(pools, start, i, j) + Stride(pools[i]) ==
            Block(pools, start, i, j + 1) <= PoolStart(pools, start, i + 1)
  {
    RunGrows(j + 1, pools[i].num, Stride(pools[i]));
  }

  /** Two elements do not overlap, whichever pools they belong to. */
  lemma BlocksDisjoint(pools: seq<Pool>, start: nat, i: nat, j: nat, i': nat, j': nat)
    requires i < |pools| && j < pools[i].num && i' < |pools| && j' < pools[i'].num
    requires i < i' || (i == i' && j < j')
    ensures Block(pools, start, i, j) + Stride(pools[i]) <= Block(pools, start, i', j')
  {
    BlockEnds(pools, start, i, j);
    if i < i' {
      StartsGrow(pools, start, i + 1, i');
    } else {
      RunGrows(j + 1, j', Stride(pools[i]));
    }
  }

  /** Every element is aligned and lies in memp_memory, wherever that begins. */
  lemma BlockInMemory(pools: seq<Pool>, memory: nat, i: nat, j: nat)
    requires ValidPools(pools) && i < |pools| && j < pools[i].num
    ensures var b := Block(pools, AlignUp(memory), i, j);
            b % MEM_ALIGNMENT == 0 && memory <= b && b + Stride(pools[i]) <= memory + MemorySize(pools)
  {
    var start := AlignUp(memory);
    AlignUpIs(memory);
    StrideIs(pools[i]);
    StartsAligned(pools, start, i);
    RunIsAligned(j, Stride(pools[i]));
    SumIsAligned(PoolStart(pools, start, i), Run(j, Stride(pools[i])));
    BlockEnds(pools, start, i, j);
    StartsGrow(pools, start, i + 1, |pools|);
    StartsGrow(pools, start, 0, i);
    StartsShift(pools, start, |pools|);
  }
}
