/** memp_init, memp_malloc and memp_free on memp_tab and the memory of the pools
    (src/core/memp.c). */
module MempLayer {
  import opened MempCarving
  import opened MempPools

  /** The first j elements of pool i, the last one in front, as memp_init links them. */
  function Carved(pools: seq<Pool>, start: nat, i: nat, j: nat): (s: seq<nat>)
    requires i < |pools|
    ensures |s| == j
  {
    if j == 0 then [] else [Block(pools, start, i, j - 1)] + Carved(pools, start, i, j - 1)
  }

  lemma {:induction false} CarvedAt(pools: seq<Pool>, start: nat, i: nat, j: nat, k: nat)
    requires i < |pools| && k < j
    ensures Carved(pools, start, i, j)[k] == Block(pools, start, i, j - 1 - k)
  {
    if k > 0 {
      CarvedAt(pools, start, i, j - 1, k - 1);
    }
  }

  /** Each element lies behind all that were carved before it. */
  lemma CarvedBefore(pools: seq<Pool>, start: nat, i: nat, j: nat, i': nat, j': nat, x: nat)
    requires ValidPools(pools) && i < |pools| && j <= pools[i].num && i' < |pools| && j' < pools[i'].num
    requires i < i' || (i == i' && j <= j')
    requires x in Carved(pools, start, i, j)
    ensures start <= x < Block(pools, start, i', j')
  {
    var k :| 0 <= k < j && Carved(pools, start, i, j)[k] == x;
    CarvedAt(pools, start, i, j, k);
    StrideIs(pools[i]);
    BlocksDisjoint(pools, start, i, j - 1 - k, i', j');
    StartsGrow(pools, start, 0, i);
  }

  function SetOf(s: seq<nat>): set<nat> { set x | x in s }

  function Elements(pools: seq<Pool>, start: nat, i: nat): set<nat>
    requires i < |pools|
  {
    SetOf(Carved(pools, start, i, pools[i].num))
  }

  /** No element of a pool is carved twice: it has as many as its line in memp_std.h says. */
  lemma ElementCount(pools: seq<Pool>, start: nat, i: nat)
    requires ValidPools(pools) && i < |pools|
    ensures |Elements(pools, start, i)| == pools[i].num
  {
    CarvedCount(pools, start, i, pools[i].num);
  }

  lemma {:induction false} CarvedCount(pools: seq<Pool>, start: nat, i: nat, j: nat)
    requires ValidPools(pools) && i < |pools| && j <= pools[i].num
    ensures |SetOf(Carved(pools, start, i, j))| == j
  {
    if j > 0 {
      var b, before := Block(pools, start, i, j - 1), Carved(pools, start, i, j - 1);
      CarvedCount(pools, start, i, j - 1);
      if b in before {
        CarvedBefore(pools, start, i, j - 1, i, j - 1, b);
      }
      OneMore(b, before);
    }
  }

  lemma OneMore(x: nat, s: seq<nat>)
    requires x !in s
    ensures |SetOf([x] + s)| == |SetOf(s)| + 1
  {
    assert SetOf([x] + s) == SetOf(s) + {x};
  }

  function AllElements(pools: seq<Pool>, start: nat): seq<set<nat>> {
    seq(|pools|, i requires 0 <= i < |pools| => Elements(pools, start, i))
  }

  lemma ElementsDisjoint(pools: seq<Pool>, start: nat, i: nat, i': nat)
    requires ValidPools(pools) && i < i' < |pools|
    ensures Elements(pools, start, i) !! Elements(pools, start, i')
  {
    forall x | x in Elements(pools, start, i) ensures x !in Elements(pools, start, i') {
      if x in Elements(pools, start, i') {
        var k :| 0 <= k < pools[i'].num && Carved(pools, start, i', pools[i'].num)[k] == x;
        CarvedAt(pools, start, i', pools[i'].num, k);
        CarvedBefore(pools, start, i, pools[i].num, i', pools[i'].num - 1 - k, x);
      }
    }
  }

  class Pools {
    const pools: seq<Pool>
    const tab: array<nat>
    var next: map<nat, nat>
    ghost var free: seq<seq<nat>>
    ghost var live: seq<set<nat>>

    ghost function View(): Heap
      reads this, tab
    {
      Heap(tab[..], next, free, live)
    }

    /** memp_init, with the address of memp_memory: each pool has as many elements as memp_num
        says, all of them free, and the pools are conserved from here on. */
    constructor (pools: seq<Pool>, memory: nat)
      requires ValidPools(pools) && memory > 0
      ensures Conserved(View(), AllElements(pools, AlignUp(memory)))
      ensures forall i :: 0 <= i < |pools| ==> View().live[i] == {} && |View().free[i]| == pools[i].num
    {
      this.pools, tab, next := pools, new nat[|pools|](_ => 0), map[];
      free := seq(|pools|, _ => []);
      live := seq(|pools|, _ => {});
      new;
      AlignUpIs(memory);
      CarveAll(AlignUp(memory));
      AllConserved(AlignUp(memory));
    }

    /** The first i pools are linked up. */
    ghost predicate Linked(start: nat, i: nat)
      reads this, tab
    {
      i <= |pools| == tab.Length == |free| &&
      forall k :: 0 <= k < i ==> free[k] == Carved(pools, start, k, pools[k].num) && Chain(next, tab[k], free[k])
    }

    /** The loop over the pools. */
    method CarveAll(start: nat)
      requires ValidPools(pools) && start > 0 && Linked(start, 0)
      modifies this`next, this`free, tab
      ensures Linked(start, |pools|)
    {
      hide Linked;
      var memp, i := start, 0;
      while i < |pools|
        invariant 0 <= i <= |pools| && memp == PoolStart(pools, start, i) && Linked(start, i)
      {
        memp := CarvePool(i, memp, start);
        i := i + 1;
      }
    }

    /** The elements of one pool. */
    method CarvePool(i: nat, first: nat, ghost start: nat) returns (memp: nat)
      requires ValidPools(pools) && i < |pools| && first == PoolStart(pools, start, i) && start > 0 && Linked(start, i)
      modifies this`next, this`free, tab
      ensures memp == PoolStart(pools, start, i + 1) && Linked(start, i + 1)
    {
      hide Linked, LinkedTo, Carved, Block, PoolStart, Stride, ValidPools;
      BlockSteps(pools, start, i, 0);
      memp := first;
      BeginPool(i, start);
      var j := 0;
      while j < pools[i].num
        invariant 0 <= j <= pools[i].num && memp == Block(pools, start, i, j) && LinkedTo(start, i, j)
      {
        CarveOne(i, j, memp, start);
        BlockSteps(pools, start, i, j);
        memp := memp + Stride(pools[i]);
        j := j + 1;
      }
      PoolDone(i, start);
    }

    method BeginPool(i: nat, ghost start: nat)
      requires i < |pools| && Linked(start, i)
      modifies this`free, tab
      ensures LinkedTo(start, i, 0)
    {
      tab[i] := 0;
      free := free[i := []];
    }

    lemma PoolDone(i: nat, start: nat)
      requires i < |pools| && LinkedTo(start, i, pools[i].num)
      ensures Linked(start, i + 1)
    {
    }

    /** The elements in front of element j of pool i are linked up. */
    ghost predicate LinkedTo(start: nat, i: nat, j: nat)
      reads this, tab
    {
      i < |pools| == tab.Length == |free| && Linked(start, i) &&
      free[i] == Carved(pools, start, i, j) && Chain(next, tab[i], free[i])
    }

    method CarveOne(i: nat, j: nat, memp: nat, ghost start: nat)
      requires ValidPools(pools) && LinkedTo(start, i, j) && j < pools[i].num && start > 0
      requires memp == Block(pools, start, i, j)
      modifies this`next, this`free, tab
      ensures LinkedTo(start, i, j + 1)
    {
      StartsGrow(pools, start, 0, i);
      forall k | 0 <= k <= i ensures Chain(next[memp := tab[i]], tab[k], free[k]) {
        if memp in free[k] {
          CarvedBefore(pools, start, k, if k < i then pools[k].num else j, i, j, memp);
        }
        PathFrame(next, tab[k], free[k], 0, memp, tab[i]);
      }
      assert ([memp] + free[i])[1..] == free[i];
      next := next[memp := tab[i]];
      tab[i] := memp;
      free := free[i := [memp] + free[i]];
    }

    lemma AllConserved(start: nat)
      requires ValidPools(pools) && start > 0 && Linked(start, |pools|) && |live| == |pools|
      requires forall k :: 0 <= k < |pools| ==> live[k] == {}
      ensures Conserved(View(), AllElements(pools, start))
    {
      var all := AllElements(pools, start);
      forall k | 0 <= k < |all| ensures PoolOk(View(), all, k) {
        if 0 in all[k] {
          var n :| 0 <= n < pools[k].num && Carved(pools, start, k, pools[k].num)[n] == 0;
          CarvedAt(pools, start, k, pools[k].num, n);
          StartsGrow(pools, start, 0, k);
        }
      }
      forall k, k' | 0 <= k < k' < |all| ensures all[k] !! all[k'] {
        ElementsDisjoint(pools, start, k, k');
      }
    }

    /** memp_malloc */
    method Allocate(i: nat, ghost all: seq<set<nat>>) returns (mem: nat)
      requires Conserved(View(), all)
      modifies this, tab
      ensures (View(), mem) == DoMalloc(old(View()), i)
    {
      if i >= tab.Length {
        return 0;
      }
      assert PoolOk(View(), all, i);
      var memp: nat := tab[i];
      if memp == 0 {
        return 0;
      }
      tab[i] := next[memp];
      free := free[i := free[i][1..]];
      live := live[i := live[i] + {memp}];
      mem := memp + MEMP_SIZE;
    }

    /** memp_free */
    method Release(i: nat, mem: nat)
      requires i < tab.Length == |free| == |live| && (mem == 0 || mem >= MEMP_SIZE)
      modifies this, tab
      ensures View() == DoFree(old(View()), i, mem)
    {
      if mem == 0 {
        return;
      }
      var memp: nat := mem - MEMP_SIZE;
      next := next[memp := tab[i]];
      tab[i] := memp;
      free := free[i := [memp] + free[i]];
      live := live[i := live[i] - {memp}];
    }
  }
}
