/** The free lists of the pools, which run through the free elements themselves, and the check
    for circles in them (src/core/memp.c). An address stands for a struct memp; 0 is NULL. */
module MempPools {
  import opened MempCarving
  import opened MempCheck

  // ---------------------------------------------------------------- linked lists

  /** Following `next` from a one meets the elements s and then b. */
  predicate Path(next: map<nat, nat>, a: nat, s: seq<nat>, b: nat)
    decreases |s|
  {
    if s == [] then a == b
    else a == s[0] && a != 0 && a in next && Path(next, next[a], s[1..], b)
  }

  /** s is the list that begins at head. */
  predicate Chain(next: map<nat, nat>, head: nat, s: seq<nat>) { Path(next, head, s, 0) }

  lemma {:induction false} PathFrom(next: map<nat, nat>, a: nat, s: seq<nat>, b: nat, k: nat)
    requires Path(next, a, s, b) && k <= |s|
    ensures Path(next, if k < |s| then s[k] else b, s[k..], b)
    ensures k < |s| ==> s[k] != 0 && s[k] in next && next[s[k]] == if k + 1 < |s| then s[k + 1] else b
    decreases k
  {
    if k > 0 {
      PathFrom(next, next[a], s[1..], b, k - 1);
      assert s[1..][k - 1..] == s[k..];
    } else if s != [] {
      assert s[0..] == s;
      assert |s| > 1 ==> s[1..][0] == s[1];
    } else {
      assert s[0..] == s;
    }
  }

  lemma {:induction false} ChainUnique(next: map<nat, nat>, a: nat, s: seq<nat>, t: seq<nat>)
    requires Chain(next, a, s) && Chain(next, a, t)
    ensures s == t
    decreases |s|
  {
    if s != [] {
      ChainUnique(next, next[a], s[1..], t[1..]);
      assert s == [a] + s[1..] && t == [a] + t[1..];
    }
  }

  /** A list that ends meets no element twice. */
  lemma ChainDistinct(next: map<nat, nat>, a: nat, s: seq<nat>, i: nat, j: nat)
    requires Chain(next, a, s) && i < j < |s|
    ensures s[i] != s[j]
  {
    PathFrom(next, a, s, 0, i);
    PathFrom(next, a, s, 0, j);
    if s[i] == s[j] {
      ChainUnique(next, s[i], s[i..], s[j..]);
    }
  }

  /** A write to an element that a path does not meet leaves the path alone. */
  lemma {:induction false} PathFrame(next: map<nat, nat>, a: nat, s: seq<nat>, b: nat, m: nat, v: nat)
    requires Path(next, a, s, b) && m !in s
    ensures Path(next[m := v], a, s, b)
    decreases |s|
  {
    if s != [] {
      assert a in s;
      PathFrame(next, next[a], s[1..], b, m, v);
    }
  }

  lemma {:induction false} PathAppend(next: map<nat, nat>, a: nat, s: seq<nat>, b: nat, t: seq<nat>, c: nat)
    requires Path(next, a, s, b) && Path(next, b, t, c)
    ensures Path(next, a, s + t, c)
    decreases |s|
  {
    if s == [] {
      assert s + t == t;
    } else {
      PathAppend(next, next[a], s[1..], b, t, c);
      assert (s + t)[1..] == s[1..] + t;
    }
  }

  lemma {:induction false} PathTo(next: map<nat, nat>, a: nat, s: seq<nat>, b: nat, k: nat)
    requires Path(next, a, s, b) && k < |s|
    ensures Path(next, a, s[..k], s[k])
    decreases k
  {
    if k > 0 {
      PathTo(next, next[a], s[1..], b, k - 1);
      assert s[..k][1..] == s[1..][..k - 1];
    }
  }

  // ---------------------------------------------------------------- allocating and freeing

  /** memp_tab and the next pointers in memory; then, for each pool, its free list and the
      elements that are in use. */
  datatype Heap = Heap(tab: seq<nat>, next: map<nat, nat>, free: seq<seq<nat>>, live: seq<set<nat>>)

  /** All elements are either free, once, or in use; `all` are those that memp_init carved. */
  ghost predicate Conserved(h: Heap, all: seq<set<nat>>) {
    |h.tab| == |h.free| == |h.live| == |all| &&
    (forall i :: 0 <= i < |all| ==> PoolOk(h, all, i)) &&
    (forall i, j :: 0 <= i < j < |all| ==> all[i] !! all[j])
  }

  ghost predicate PoolOk(h: Heap, all: seq<set<nat>>, i: nat)
    requires i < |h.tab| == |h.free| == |h.live| == |all|
  {
    Chain(h.next, h.tab[i], h.free[i]) && 0 !in all[i] && h.live[i] <= all[i] &&
    forall a :: a in h.free[i] <==> a in all[i] && a !in h.live[i]
  }

  datatype Step =
    | Malloc(pool: nat)
    | Free(pool: nat, mem: nat)          // of an element that the caller got from this pool
    | Use(mem: nat, value: nat)          // the owner of an element overwrites what was `next`

  ghost predicate Valid(h: Heap, s: Step) {
    |h.tab| == |h.free| == |h.live| &&
    match s
    case Malloc(_) => true
    case Free(i, mem) => i < |h.tab| && (mem == 0 || (mem >= MEMP_SIZE && mem - MEMP_SIZE in h.live[i]))
    case Use(mem, _) => exists i :: 0 <= i < |h.tab| && mem in h.live[i]
  }

  /** memp_malloc: the new heap and the pointer that it returns. In a conserved heap the last
      two tests hold whenever the first ones do. */
  function DoMalloc(h: Heap, i: nat): (Heap, nat) {
    if i < |h.tab| == |h.free| == |h.live| && h.tab[i] != 0 && h.tab[i] in h.next && h.free[i] != [] then
      var m := h.tab[i];
      (h.(tab := h.tab[i := h.next[m]], free := h.free[i := h.free[i][1..]], live := h.live[i := h.live[i] + {m}]),
       m + MEMP_SIZE)
    else (h, 0)
  }

  /** memp_free */
  function DoFree(h: Heap, i: nat, mem: nat): Heap
    requires i < |h.tab| == |h.free| == |h.live|
  {
    if mem < MEMP_SIZE || mem == 0 then h
    else
      var m := mem - MEMP_SIZE;
      h.(tab := h.tab[i := m], next := h.next[m := h.tab[i]], free := h.free[i := [m] + h.free[i]],
         live := h.live[i := h.live[i] - {m}])
  }

  ghost function Apply(h: Heap, s: Step): Heap
    requires Valid(h, s)
  {
    match s
    case Malloc(i) => DoMalloc(h, i).0
    case Free(i, mem) => DoFree(h, i, mem)
    case Use(mem, value) => h.(next := h.next[mem := value])
  }

  /** memp_malloc gives out an element of the pool that nobody holds, and NULL exactly when
      all of them are held. */
  lemma MallocIsRight(h: Heap, all: seq<set<nat>>, i: nat)
    requires Conserved(h, all) && i < |all|
    ensures var (h', p) := DoMalloc(h, i);
            Conserved(h', all) &&
            (p == 0 <==> h.live[i] == all[i]) && (p == 0 ==> h' == h) &&
            (p != 0 ==> p >= MEMP_SIZE && p - MEMP_SIZE in all[i] && p - MEMP_SIZE !in h.live[i] &&
                        h'.live == h.live[i := h.live[i] + {p - MEMP_SIZE}])
  {
    var (h', p) := DoMalloc(h, i);
    assert PoolOk(h, all, i);
    if h.tab[i] == 0 {
      assert h.free[i] == [];
      assert forall a :: a in all[i] ==> a in h.live[i];
    } else {
      var m := h.tab[i];
      assert h.free[i][0] == m && m in h.free[i];
      forall k | 0 <= k < |all| ensures PoolOk(h', all, k) {
        assert PoolOk(h, all, k);
        if k == i {
          TailIsRest(h.next, m, h.free[i]);
        }
      }
    }
  }

  lemma TailIsRest(next: map<nat, nat>, a: nat, s: seq<nat>)
    requires Chain(next, a, s) && s != []
    ensures forall x :: x in s[1..] <==> x in s && x != a
  {
    forall k | 1 <= k < |s| ensures s[k] != a {
      ChainDistinct(next, a, s, 0, k);
    }
    assert s == [a] + s[1..];
  }

  lemma FreePreserves(h: Heap, all: seq<set<nat>>, i: nat, mem: nat)
    requires Conserved(h, all) && Valid(h, Free(i, mem))
    ensures Conserved(DoFree(h, i, mem), all)
  {
    var h' := DoFree(h, i, mem);
    if mem != 0 {
      var m := mem - MEMP_SIZE;
      assert PoolOk(h, all, i);
      forall k | 0 <= k < |all| ensures PoolOk(h', all, k) {
        assert PoolOk(h, all, k);
        assert m !in h.free[k] by {
          if k != i {
            assert all[i] !! all[k];
          }
        }
        PathFrame(h.next, h.tab[k], h.free[k], 0, m, h.tab[i]);
        if k == i {
          assert ([m] + h.free[i])[1..] == h.free[i];
        }
      }
    }
  }

  lemma UsePreserves(h: Heap, all: seq<set<nat>>, mem: nat, value: nat)
    requires Conserved(h, all) && Valid(h, Use(mem, value))
    ensures Conserved(Apply(h, Use(mem, value)), all)
  {
    var h' := Apply(h, Use(mem, value));
    var i :| 0 <= i < |h.tab| && mem in h.live[i];
    assert PoolOk(h, all, i);
    forall k | 0 <= k < |all| ensures PoolOk(h', all, k) {
      assert PoolOk(h, all, k);
      assert mem !in h.free[k] by {
        if k < i {
          assert all[k] !! all[i];
        } else if k > i {
          assert all[i] !! all[k];
        }
      }
      PathFrame(h.next, h.tab[k], h.free[k], 0, mem, value);
    }
  }

  ghost predicate IsRun(run: seq<Heap>, steps: seq<Step>) {
    |run| == |steps| + 1 &&
    forall k :: 0 <= k < |steps| ==> Valid(run[k], steps[k]) && run[k + 1] == Apply(run[k], steps[k])
  }

  /** No run of allocations, frees and uses loses or duplicates an element. */
  lemma {:induction false} RunConserves(run: seq<Heap>, steps: seq<Step>, all: seq<set<nat>>)
    requires IsRun(run, steps) && Conserved(run[0], all)
    ensures Conserved(run[|steps|], all)
    decreases |steps|
  {
    var n := |steps|;
    if n > 0 {
      RunConserves(run[..n], steps[..n - 1], all);
      var h, s := run[n - 1], steps[n - 1];
      assert Valid(h, s) && run[n] == Apply(h, s);
      hide Conserved;
      match s
      case Malloc(i) =>
        if i < |h.tab| {
          ConservedLength(h, all);
          MallocIsRight(h, all, i);
        }
      case Free(i, mem) => FreePreserves(h, all, i, mem);
      case Use(mem, value) => UsePreserves(h, all, mem, value);
    }
  }

  lemma ConservedLength(h: Heap, all: seq<set<nat>>)
    requires Conserved(h, all)
    ensures |h.tab| == |all|
  {
  }

  // ---------------------------------------------------------------- the check for circles

  /** What a list looks like to memp_sanity: it ends, or it comes back to its head. */
  datatype Shape = Ends(s: seq<nat>) | Circle(s: seq<nat>)

  predicate HasShape(next: map<nat, nat>, head: nat, shape: Shape) {
    match shape
    case Ends(s) => Chain(next, head, s)
    case Circle(s) => s != [] && s[0] == head && Path(next, head, s, head) && head !in s[1..]
  }

  function Last(head: nat, shape: Shape): nat {
    if shape.Ends? then 0 else head
  }

  lemma ShapeAt(next: map<nat, nat>, head: nat, shape: Shape, k: nat)
    requires HasShape(next, head, shape) && k < |shape.s|
    ensures shape.s[k] != 0 && shape.s[k] in next
    ensures next[shape.s[k]] == if k + 1 < |shape.s| then shape.s[k + 1] else Last(head, shape)
  {
    PathFrom(next, head, shape.s, Last(head, shape), k);
  }

  /** The inner loop of memp_sanity: does a walk over the list meet m twice? */
  method MeetsTwice(next: map<nat, nat>, head: nat, m: nat, ghost shape: Shape) returns (twice: bool)
    requires HasShape(next, head, shape) && (shape.Circle? ==> m == head) && m != 0
    ensures twice <==> shape.Circle?
  {
    var c, n := 1, head;
    ghost var s := shape.s;
    ghost var k := 0;
    while n != 0
      invariant k <= |s| && n == if k < |s| then s[k] else Last(head, shape)
      invariant c == if m in s[..k] then 0 else 1
      decreases |s| - k
    {
      if k < |s| {
        ShapeAt(next, head, shape, k);
        MetOnce(next, head, shape, m, k);
        assert s[..k + 1] == s[..k] + [s[k]];
      } else {
        assert s[..k] == s;
      }
      if n == m {
        c := c - 1;
        if c < 0 {
          return true;
        }
      }
      n := next[n];
      k := k + 1;
    }
    if shape.Circle? && k < |s| {
      ShapeAt(next, head, shape, k);
    }
    twice := false;
  }

  /** Within one round, no element that is looked for is met a second time. */
  lemma MetOnce(next: map<nat, nat>, head: nat, shape: Shape, m: nat, k: nat)
    requires HasShape(next, head, shape) && k < |shape.s| && (shape.Circle? ==> m == head)
    ensures shape.s[k] == m ==> m !in shape.s[..k]
  {
    var s := shape.s;
    if shape.Ends? {
      forall j | 0 <= j < k ensures s[j] != s[k] {
        ChainDistinct(next, head, s, j, k);
      }
    } else if k > 0 {
      assert s[1..][k - 1] == s[k];
    }
  }

  lemma CircleHead(next: map<nat, nat>, head: nat, shape: Shape)
    requires HasShape(next, head, shape)
    ensures shape.Circle? ==> head != 0
  {
  }

  /** memp_sanity. Lists behind the first circle are not looked at, and may have any shape. */
  method MempSanity(tab: seq<nat>, next: map<nat, nat>, ghost shapes: seq<Shape>) returns (sane: bool)
    requires |shapes| == |tab|
    requires forall i :: 0 <= i < |tab| && AllEnd(shapes[..i]) ==> HasShape(next, tab[i], shapes[i])
    ensures sane <==> AllEnd(shapes)
  {
    var i := 0;
    while i < |tab|
      invariant 0 <= i <= |tab| && AllEnd(shapes[..i])
    {
      var m := tab[i];
      ghost var k := 0;
      ghost var s := shapes[i].s;
      CircleHead(next, tab[i], shapes[i]);
      while m != 0
        invariant k <= |s| && m == if k < |s| then s[k] else Last(tab[i], shapes[i])
        invariant k > 0 ==> shapes[i].Ends?
        decreases |s| - k
      {
        ShapeAt(next, tab[i], shapes[i], k);
        var twice := MeetsTwice(next, tab[i], m, shapes[i]);
        if twice {
          return false;
        }
        m := next[m];
        k := k + 1;
      }
      i := i + 1;
    }
    assert shapes[..i] == shapes;
    sane := true;
  }

  predicate AllEnd(shapes: seq<Shape>) {
    forall j :: 0 <= j < |shapes| ==> shapes[j].Ends?
  }

  /** The part of a list before its first m. */
  function Before(s: seq<nat>, m: nat): (r: seq<nat>)
    requires m in s
    ensures |r| < |s| && r == s[..|r|] && s[|r|] == m && m !in r
  {
    if s[0] == m then [] else [s[0]] + Before(s[1..], m)
  }

  // ---------------------------------------------------------------- the check after a free

  /** The first pool that has the element on its list. */
  function FirstWith(free: seq<seq<nat>>, m: nat): (k: nat)
    ensures k <= |free| && (k < |free| ==> m in free[k]) && forall j :: 0 <= j < k ==> m !in free[j]
  {
    if free == [] || m in free[0] then 0 else 1 + FirstWith(free[1..], m)
  }

  /** The check after m was put on the list of pool i comes to an end: m was not there yet, or
      the first list that has m begins with an element of the list of pool i. */
  predicate Harmless(tab: seq<nat>, free: seq<seq<nat>>, i: nat, m: nat)
    requires |tab| == |free| && i < |free|
  {
    m in free[i] ==> tab[FirstWith(free, m)] in free[i]
  }

  /** What the list of pool k looks like then, up to the first pool that has m on its list. */
  function ShapeAfter(tab: seq<nat>, free: seq<seq<nat>>, i: nat, m: nat, k: nat): Shape
    requires |tab| == |free| && i < |free| && k < |free|
  {
    if m !in free[i] then
      (if k == i then Ends([m] + free[i])
       else if m in free[k] then Ends(Before(free[k], m) + ([m] + free[i]))
       else Ends(free[k]))
    else if m !in free[k] then Ends(free[k])
    else if k == i then Circle([m] + Before(free[i], m))
    else if tab[k] in free[i] then Circle(Before(free[k], m) + ([m] + Before(free[i], tab[k])))
    else Ends([])
  }

  lemma ShapesAfterFree(tab: seq<nat>, next: map<nat, nat>, free: seq<seq<nat>>, i: nat, m: nat, k: nat)
    requires |tab| == |free| && i < |tab| && k < |tab| && m != 0
    requires Chain(next, tab[i], free[i]) && Chain(next, tab[k], free[k])
    requires m in free[i] && m in free[k] && k != i ==> tab[k] in free[i]
    ensures HasShape(next[m := tab[i]], tab[i := m][k], ShapeAfter(tab, free, i, m, k))
  {
    var next' := next[m := tab[i]];
    if m !in free[i] {
      PathFrame(next, tab[i], free[i], 0, m, tab[i]);
      assert ([m] + free[i])[1..] == free[i];
      assert Chain(next', m, [m] + free[i]);
      if k != i && m in free[k] {
        var b := Before(free[k], m);
        PathTo(next, tab[k], free[k], 0, |b|);
        PathFrame(next, tab[k], b, m, m, tab[i]);
        PathAppend(next', tab[k], b, m, [m] + free[i], 0);
      } else if k != i {
        PathFrame(next, tab[k], free[k], 0, m, tab[i]);
      }
    } else if m !in free[k] {
      PathFrame(next, tab[k], free[k], 0, m, tab[i]);
    } else if k == i {
      LoopsBack(next, tab[i], free[i], m, m);
      assert ([m] + Before(free[i], m))[1..] == Before(free[i], m);
    } else {
      SharedCircle(next, tab, free, i, m, k);
    }
  }

  /** From m, that list leads through the elements in front of h to h. */
  lemma LoopsBack(next: map<nat, nat>, head: nat, s: seq<nat>, m: nat, h: nat)
    requires Chain(next, head, s) && h in s && m != 0 && m !in Before(s, h)
    ensures Path(next[m := head], m, [m] + Before(s, h), h)
  {
    var b := Before(s, h);
    PathTo(next, head, s, 0, |b|);
    PathFrame(next, head, b, h, m, head);
    assert ([m] + b)[1..] == b;
  }

  /** A list that begins within the list of pool i is the rest of that one; with m put in
      front, both come back to where this list begins. */
  lemma SharedCircle(next: map<nat, nat>, tab: seq<nat>, free: seq<seq<nat>>, i: nat, m: nat, k: nat)
    requires |tab| == |free| && i < |tab| && k < |tab| && k != i && m != 0
    requires Chain(next, tab[i], free[i]) && Chain(next, tab[k], free[k])
    requires m in free[i] && m in free[k] && tab[k] in free[i]
    ensures HasShape(next[m := tab[i]], tab[k], Circle(Before(free[k], m) + ([m] + Before(free[i], tab[k]))))
  {
    var h, next' := tab[k], next[m := tab[i]];
    var front, back := Before(free[k], m), Before(free[i], h);
    PathFrom(next, tab[i], free[i], 0, |back|);
    ChainUnique(next, h, free[i][|back|..], free[k]);
    NotInFront(next, tab[i], free[i], |back|, m);
    PathTo(next, h, free[k], 0, |front|);
    PathFrame(next, h, front, m, m, tab[i]);
    LoopsBack(next, tab[i], free[i], m, h);
    PathAppend(next', h, front, m, [m] + back, h);
    TailIsRest(next, h, free[k]);
    if front != [] {
      FrontTail(free[k], front);
    }
    hide Path, Before;
    HeadOnce(front, back, m, h);
  }

  lemma FrontTail(s: seq<nat>, front: seq<nat>)
    requires front != [] && |front| < |s| && front == s[..|front|]
    ensures forall x :: x in front[1..] ==> x in s[1..]
  {
    forall j | 1 <= j < |front| ensures front[j] in s[1..] {
      assert s[1..][j - 1] == front[j];
    }
  }

  lemma HeadOnce(front: seq<nat>, back: seq<nat>, m: nat, h: nat)
    requires h !in back && (if front == [] then h == m else front[0] == h && h != m && h !in front[1..])
    ensures var s := front + ([m] + back); s != [] && s[0] == h && h !in s[1..]
  {
    var s := front + ([m] + back);
    if front == [] {
      assert s == [m] + back && s[1..] == back;
    } else {
      assert s[1..] == front[1..] + ([m] + back);
    }
  }

  lemma NotInFront(next: map<nat, nat>, a: nat, s: seq<nat>, c: nat, m: nat)
    requires Chain(next, a, s) && c <= |s| && m in s[c..]
    ensures m !in s[..c]
  {
    var j :| 0 <= j < |s| - c && s[c..][j] == m;
    forall x | 0 <= x < c ensures s[x] != m {
      ChainDistinct(next, a, s, x, c + j);
    }
  }

  /** memp_free with MEMP_SANITY_CHECK: on lists that all end, whatever they share, and in the
      cases in which the check comes to an end, it fails exactly when the element was on the
      free list of its pool already. */
  method FreeAndCheck(tab: seq<nat>, next: map<nat, nat>, i: nat, mem: nat, ghost free: seq<seq<nat>>)
    returns (tab': seq<nat>, next': map<nat, nat>, sane: bool)
    requires |tab| == |free| && i < |tab| && mem > MEMP_SIZE
    requires forall k :: 0 <= k < |tab| ==> Chain(next, tab[k], free[k])
    requires Harmless(tab, free, i, mem - MEMP_SIZE)
    ensures tab' == tab[i := mem - MEMP_SIZE] && next' == next[mem - MEMP_SIZE := tab[i]]
    ensures sane <==> mem - MEMP_SIZE !in free[i]
  {
    var m: nat := mem - MEMP_SIZE;
    next' := next[m := tab[i]];
    tab' := tab[i := m];
    ghost var shapes := ShapesOf(tab, free, i, m);
    ShapesHold(tab, next, free, i, m);
    sane := MempSanity(tab', next', shapes);
    ShapesTell(tab, next, free, i, m);
  }

  function ShapesOf(tab: seq<nat>, free: seq<seq<nat>>, i: nat, m: nat): seq<Shape>
    requires |tab| == |free| && i < |free|
  {
    seq(|tab|, k requires 0 <= k < |tab| => ShapeAfter(tab, free, i, m, k))
  }

  /** All lists have these shapes up to the first circle. */
  lemma ShapesHold(tab: seq<nat>, next: map<nat, nat>, free: seq<seq<nat>>, i: nat, m: nat)
    requires |tab| == |free| && i < |tab| && m != 0 && Harmless(tab, free, i, m)
    requires forall k :: 0 <= k < |tab| ==> Chain(next, tab[k], free[k])
    ensures var shapes := ShapesOf(tab, free, i, m);
            forall k :: 0 <= k < |tab| && AllEnd(shapes[..k]) ==> HasShape(next[m := tab[i]], tab[i := m][k], shapes[k])
  {
    var shapes, first := ShapesOf(tab, free, i, m), FirstWith(free, m);
    forall k | first < k <= |shapes| && m in free[i] ensures !AllEnd(shapes[..k]) {
      assert shapes[..k][first] == ShapeAfter(tab, free, i, m, first);
    }
    forall k | 0 <= k < |tab| && AllEnd(shapes[..k]) ensures HasShape(next[m := tab[i]], tab[i := m][k], shapes[k]) {
      ShapesAfterFree(tab, next, free, i, m, k);
    }
  }

  lemma ShapesTell(tab: seq<nat>, next: map<nat, nat>, free: seq<seq<nat>>, i: nat, m: nat)
    requires |tab| == |free| && i < |tab| && Harmless(tab, free, i, m)
    ensures AllEnd(ShapesOf(tab, free, i, m)) <==> m !in free[i]
  {
    var shapes := ShapesOf(tab, free, i, m);
    if m in free[i] {
      assert shapes[FirstWith(free, m)].Circle?;
    }
  }

  // ---------------------------------------------------------------- when the check ends

  lemma {:induction false} FollowsPath(next: map<nat, nat>, a: nat, s: seq<nat>, b: nat, n: nat)
    requires Path(next, a, s, b) && n <= |s|
    ensures Follow(next, a, n) == if n < |s| then s[n] else b
  {
    if n > 0 {
      FollowsPath(next, a, s, b, n - 1);
      PathFrom(next, a, s, b, n - 1);
    }
  }

  lemma ShapesWalk(next: map<nat, nat>, head: nat, shape: Shape)
    requires HasShape(next, head, shape)
    ensures shape.Ends? ==> WalkEnds(next, head) && !WalkReturns(next, head)
    ensures shape.Circle? ==> WalkReturns(next, head)
  {
    var s := shape.s;
    FollowsPath(next, head, s, Last(head, shape), |s|);
    if shape.Ends? {
      forall n: nat | n > 0 && head != 0 ensures Follow(next, head, n) != head {
        if n < |s| {
          FollowsPath(next, head, s, 0, n);
          ChainDistinct(next, head, s, 0, n);
        } else {
          StaysNull(next, head, |s|, n);
        }
      }
    }
  }

  /** A list that leads into a circle which it does not belong to neither ends nor returns. */
  lemma {:induction false} TailedCircle(next: map<nat, nat>, head: nat, p: seq<nat>, m: nat, q: seq<nat>, n: nat)
    requires Path(next, head, p, m) && p != [] && Path(next, m, q, m) && q != [] && q[0] == m
    requires head !in p[1..] && head !in q
    ensures Follow(next, head, n) in p + q && (n > 0 ==> Follow(next, head, n) != head) && Follow(next, head, n) != 0
  {
    hide Path;
    if n == 0 {
      NextOnPath(next, head, p, m, 0);
    } else {
      TailedCircle(next, head, p, m, q, n - 1);
      NextInTail(next, head, p, m, q, Follow(next, head, n - 1));
    }
  }

  lemma NextOnPath(next: map<nat, nat>, a: nat, s: seq<nat>, b: nat, k: nat)
    requires Path(next, a, s, b) && k < |s|
    ensures s[k] != 0 && NextOf(next, s[k]) == (if k + 1 < |s| then s[k + 1] else b) && s[0] == a
  {
    PathFrom(next, a, s, b, k);
  }

  /** From the way in or the circle one gets to the rest of the way in, or to the circle. */
  lemma NextInTail(next: map<nat, nat>, head: nat, p: seq<nat>, m: nat, q: seq<nat>, b: nat)
    requires Path(next, head, p, m) && p != [] && Path(next, m, q, m) && q != [] && q[0] == m
    requires head !in p[1..] && head !in q && b in p + q
    ensures var x := NextOf(next, b); x in p + q && x != head && x != 0
  {
    hide Path;
    if b in p {
      var k :| 0 <= k < |p| && p[k] == b;
      NextOnPath(next, head, p, m, k);
      NextOnPath(next, m, q, m, 0);
      if k + 1 < |p| {
        NextOnPath(next, head, p, m, k + 1);
        assert p[1..][k] == p[k + 1];
      }
    } else {
      var k :| 0 <= k < |q| && q[k] == b;
      NextOnPath(next, m, q, m, k);
      NextOnPath(next, m, q, m, if k + 1 < |q| then k + 1 else 0);
    }
  }

  /** The walk over the first list that has m, when it begins outside the list of pool i. */
  lemma HangsOnFirst(tab: seq<nat>, next: map<nat, nat>, free: seq<seq<nat>>, i: nat, m: nat, k: nat)
    requires |tab| == |free| && i < |tab| && k < |tab| && m != 0
    requires Chain(next, tab[i], free[i]) && Chain(next, tab[k], free[k])
    requires m in free[i] && m in free[k] && tab[k] !in free[i]
    ensures !WalkEnds(next[m := tab[i]], tab[k]) && !WalkReturns(next[m := tab[i]], tab[k])
  {
    var next', head := next[m := tab[i]], tab[k];
    var p, q := Before(free[k], m), [m] + Before(free[i], m);
    PathTo(next, head, free[k], 0, |p|);
    PathFrame(next, head, p, m, m, tab[i]);
    LoopsBack(next, tab[i], free[i], m, m);
    TailIsRest(next, head, free[k]);
    assert forall x :: x in p[1..] ==> x in free[k][1..];
    forall n: nat ensures Follow(next', head, n) != 0 && (n > 0 ==> Follow(next', head, n) != head) {
      TailedCircle(next', head, p, m, q, n);
    }
  }

  /** On lists that all end, the check after memp_free comes to an end exactly if the element
      was not on the list of its pool, or the first list that had it began with an element of
      that list. */
  lemma CheckEndsExactlyIf(tab: seq<nat>, next: map<nat, nat>, free: seq<seq<nat>>, i: nat, m: nat)
    requires |tab| == |free| && i < |tab| && m != 0
    requires forall k :: 0 <= k < |tab| ==> Chain(next, tab[k], free[k])
    ensures Halts(tab[i := m], next[m := tab[i]]) <==> Harmless(tab, free, i, m)
  {
    var tab', next', first := tab[i := m], next[m := tab[i]], FirstWith(free, m);
    HaltsExactlyIf(tab', next');
    if Harmless(tab, free, i, m) {
      ShapesHold(tab, next, free, i, m);
      LoopsAgree(tab', next', ShapesOf(tab, free, i, m));
    } else {
      HeadOfOwnList(next, tab[i], free[i]);
      forall j | 0 <= j < first ensures !WalkReturns(next', tab'[j]) {
        ShapesAfterFree(tab, next, free, i, m, j);
        ShapesWalk(next', tab'[j], ShapeAfter(tab, free, i, m, j));
      }
      HangsOnFirst(tab, next, free, i, m, first);
      assert tab'[first] == tab[first];
    }
  }

  /** As long as only elements in use are freed, lists never share an element: then the check
      ends even after a free that is not valid. */
  lemma ConservedIsHarmless(h: Heap, all: seq<set<nat>>, i: nat, m: nat)
    requires Conserved(h, all) && i < |all|
    ensures Harmless(h.tab, h.free, i, m)
  {
    assert PoolOk(h, all, i);
    if m in h.free[i] {
      forall k | 0 <= k < |all| && m in h.free[k] ensures k == i {
        assert PoolOk(h, all, k);
        assert m in all[k] && m in all[i];
      }
      HeadOfOwnList(h.next, h.tab[i], h.free[i]);
    }
  }

  lemma HeadOfOwnList(next: map<nat, nat>, head: nat, s: seq<nat>)
    requires Chain(next, head, s) && s != []
    ensures head in s
  {
  }

  /** The loops, round by round, on lists as MempSanity has them: they return what it does. */
  lemma LoopsAgree(tab: seq<nat>, next: map<nat, nat>, shapes: seq<Shape>)
    requires |shapes| == |tab|
    requires forall j :: 0 <= j < |tab| && AllEnd(shapes[..j]) ==> HasShape(next, tab[j], shapes[j])
    ensures Halts(tab, next)
    ensures forall k: nat :: Rounds(tab, next, Enter(tab, 0), k).Returned? ==>
              (Rounds(tab, next, Enter(tab, 0), k).sane <==> AllEnd(shapes))
  {
    hide Rounds;
    HaltsExactlyIf(tab, next);
    forall k | 0 <= k < |tab| && forall j :: 0 <= j < k ==> !WalkReturns(next, tab[j])
      ensures WalkEnds(next, tab[k]) || WalkReturns(next, tab[k])
    {
      EndsUpTo(tab, next, shapes, k);
      ShapesWalk(next, tab[k], shapes[k]);
    }
    if AllEnd(shapes) {
      forall j | 0 <= j < |tab| ensures !WalkReturns(next, tab[j]) {
        ShapesWalk(next, tab[j], shapes[j]);
      }
    }
    if forall j :: 0 <= j < |tab| ==> !WalkReturns(next, tab[j]) {
      EndsUpTo(tab, next, shapes, |tab|);
    }
  }

  lemma {:induction false} EndsUpTo(tab: seq<nat>, next: map<nat, nat>, shapes: seq<Shape>, k: nat)
    requires |shapes| == |tab| && k <= |tab|
    requires forall j :: 0 <= j < |tab| && AllEnd(shapes[..j]) ==> HasShape(next, tab[j], shapes[j])
    requires forall j :: 0 <= j < k ==> !WalkReturns(next, tab[j])
    ensures AllEnd(shapes[..k]) && (k == |tab| ==> AllEnd(shapes))
  {
    assert shapes[..|tab|] == shapes;
    if k > 0 {
      EndsUpTo(tab, next, shapes, k - 1);
      ShapesWalk(next, tab[k - 1], shapes[k - 1]);
      assert shapes[..k] == shapes[..k - 1] + [shapes[k - 1]];
    }
  }
}
