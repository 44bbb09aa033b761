/** The loops of memp_sanity (src/core/memp.c), one round of the inner loop at a time, on lists
    of any shape: when they come to an end, and with which result. */
module MempCheck {

  // ---------------------------------------------------------------- lists of any shape

  function NextOf(next: map<nat, nat>, a: nat): nat {
    if a != 0 && a in next then next[a] else 0
  }

  /** The element that n steps along a list lead to. */
  function Follow(next: map<nat, nat>, a: nat, n: nat): nat {
    if n == 0 then a else NextOf(next, Follow(next, a, n - 1))
  }

  ghost predicate WalkEnds(next: map<nat, nat>, head: nat) {
    exists n: nat :: Follow(next, head, n) == 0
  }

  ghost predicate WalkReturns(next: map<nat, nat>, head: nat) {
    head != 0 && exists n: nat :: n > 0 && Follow(next, head, n) == head
  }

  lemma {:induction false} StaysNull(next: map<nat, nat>, a: nat, n: nat, k: nat)
    requires n <= k && Follow(next, a, n) == 0
    ensures Follow(next, a, k) == 0
  {
    if n < k {
      StaysNull(next, a, n, k - 1);
    }
  }

  /** Two places of a walk with the same element are followed by the same ones. */
  lemma {:induction false} SameFollow(next: map<nat, nat>, a: nat, i: nat, j: nat, d: nat)
    requires Follow(next, a, i) == Follow(next, a, j)
    ensures Follow(next, a, i + d) == Follow(next, a, j + d)
  {
    if d > 0 {
      SameFollow(next, a, i, j, d - 1);
    }
  }

  /** The length of a list that ends: its elements are all different. */
  ghost predicate Length(next: map<nat, nat>, a: nat, l: nat) {
    Follow(next, a, l) == 0 && forall j :: 0 <= j < l ==> Follow(next, a, j) != 0
  }

  lemma {:induction false} HasLength(next: map<nat, nat>, a: nat, n: nat) returns (l: nat)
    requires Follow(next, a, n) == 0
    ensures Length(next, a, l)
  {
    if j :| 0 <= j < n && Follow(next, a, j) == 0 {
      l := HasLength(next, a, j);
    } else {
      l := n;
    }
  }

  lemma AllDifferent(next: map<nat, nat>, a: nat, l: nat, i: nat, j: nat)
    requires Length(next, a, l) && i < j < l
    ensures Follow(next, a, i) != Follow(next, a, j)
  {
    if Follow(next, a, i) == Follow(next, a, j) {
      SameFollow(next, a, i, j, l - j);
      assert false;
    }
  }

  lemma EndsOrReturns(next: map<nat, nat>, head: nat)
    requires WalkEnds(next, head)
    ensures !WalkReturns(next, head)
  {
    var n: nat :| Follow(next, head, n) == 0;
    var l := HasLength(next, head, n);
    forall k: nat | k > 0 && head != 0 ensures Follow(next, head, k) != head {
      if k < l {
        AllDifferent(next, head, l, 0, k);
      } else {
        StaysNull(next, head, l, k);
      }
    }
  }

  // ---------------------------------------------------------------- the loops

  /** The head of the inner loop, with its variables; or the result. */
  datatype Loop = At(i: nat, m: nat, n: nat, c: int) | Returned(sane: bool)

  /** The first round for pool i. */
  function Enter(tab: seq<nat>, i: nat): Loop {
    if i < |tab| then At(i, tab[i], tab[i], 1) else Returned(true)
  }

  function Round(tab: seq<nat>, next: map<nat, nat>, s: Loop): Loop {
    match s
    case Returned(_) => s
    case At(i, m, n, c) =>
      if i >= |tab| then Returned(true)
      else if m == 0 then Enter(tab, i + 1)
      else if n == 0 then At(i, NextOf(next, m), tab[i], 1)
      else if n == m && c - 1 < 0 then Returned(false)
      else At(i, m, NextOf(next, n), if n == m then c - 1 else c)
  }

  function Rounds(tab: seq<nat>, next: map<nat, nat>, s: Loop, k: nat): Loop {
    if k == 0 then s else Round(tab, next, Rounds(tab, next, s, k - 1))
  }

  /** memp_sanity returns. */
  ghost predicate Halts(tab: seq<nat>, next: map<nat, nat>) {
    exists k: nat :: Rounds(tab, next, Enter(tab, 0), k).Returned?
  }

  lemma {:induction false} MoreRounds(tab: seq<nat>, next: map<nat, nat>, s: Loop, a: nat, b: nat)
    ensures Rounds(tab, next, Rounds(tab, next, s, a), b) == Rounds(tab, next, s, a + b)
  {
    if b > 0 {
      MoreRounds(tab, next, s, a, b - 1);
    }
  }

  lemma StaysReturned(tab: seq<nat>, next: map<nat, nat>, s: Loop, a: nat, b: nat)
    requires a <= b && Rounds(tab, next, s, a).Returned?
    ensures Rounds(tab, next, s, b) == Rounds(tab, next, s, a)
  {
    if a < b {
      StaysReturned(tab, next, s, a, b - 1);
    }
  }

  /** One walk for the element m at place a of a list of length l, from place b on. */
  lemma {:induction false} InnerWalk(tab: seq<nat>, next: map<nat, nat>, i: nat, l: nat, a: nat, b: nat)
    requires i < |tab| && Length(next, tab[i], l) && a < l && b <= l
    ensures var m := Follow(next, tab[i], a);
            Rounds(tab, next, At(i, m, tab[i], 1), b) == At(i, m, Follow(next, tab[i], b), if a < b then 0 else 1)
  {
    if b > 0 {
      InnerWalk(tab, next, i, l, a, b - 1);
      if b - 1 < a {
        AllDifferent(next, tab[i], l, b - 1, a);
      } else if a < b - 1 {
        AllDifferent(next, tab[i], l, a, b - 1);
      }
    }
  }

  /** All walks for the elements from place a on: then comes the next pool. */
  lemma {:induction false} MiddleWalk(tab: seq<nat>, next: map<nat, nat>, i: nat, l: nat, a: nat) returns (k: nat)
    requires i < |tab| && Length(next, tab[i], l) && a <= l
    ensures Rounds(tab, next, At(i, Follow(next, tab[i], a), tab[i], 1), k) == Enter(tab, i + 1)
    decreases l - a
  {
    var s := At(i, Follow(next, tab[i], a), tab[i], 1);
    if a == l {
      k := 1;
      assert Rounds(tab, next, s, 0) == s;
    } else {
      InnerWalk(tab, next, i, l, a, l);
      var rest := MiddleWalk(tab, next, i, l, a + 1);
      MoreRounds(tab, next, s, l + 1, rest);
      k := l + 1 + rest;
    }
  }

  /** A list that comes back to its head on step p for the first time is found out. */
  lemma {:induction false} CircleWalk(tab: seq<nat>, next: map<nat, nat>, i: nat, p: nat, b: nat)
    requires i < |tab| && tab[i] != 0 && 0 < b <= p && Follow(next, tab[i], p) == tab[i]
    requires forall j :: 0 < j < p ==> Follow(next, tab[i], j) != tab[i] && Follow(next, tab[i], j) != 0
    ensures Rounds(tab, next, Enter(tab, i), b) == At(i, tab[i], Follow(next, tab[i], b), 0)
  {
    if b > 1 {
      CircleWalk(tab, next, i, p, b - 1);
    } else {
      assert Rounds(tab, next, Enter(tab, i), 0) == Enter(tab, i);
    }
  }

  lemma {:induction false} FirstReturn(next: map<nat, nat>, head: nat, n: nat) returns (p: nat)
    requires n > 0 && Follow(next, head, n) == head
    ensures p > 0 && Follow(next, head, p) == head && forall j :: 0 < j < p ==> Follow(next, head, j) != head
  {
    if j :| 0 < j < n && Follow(next, head, j) == head {
      p := FirstReturn(next, head, j);
    } else {
      p := n;
    }
  }

  /** What becomes of the rounds for pool i, by what its list is like. */
  lemma PoolEnds(tab: seq<nat>, next: map<nat, nat>, i: nat) returns (k: nat)
    requires i < |tab| && WalkEnds(next, tab[i])
    ensures Rounds(tab, next, Enter(tab, i), k) == Enter(tab, i + 1)
  {
    var n: nat :| Follow(next, tab[i], n) == 0;
    var l := HasLength(next, tab[i], n);
    k := MiddleWalk(tab, next, i, l, 0);
  }

  lemma PoolReturns(tab: seq<nat>, next: map<nat, nat>, i: nat) returns (k: nat)
    requires i < |tab| && WalkReturns(next, tab[i])
    ensures Rounds(tab, next, Enter(tab, i), k) == Returned(false)
  {
    var n: nat :| n > 0 && Follow(next, tab[i], n) == tab[i];
    var p := FirstReturn(next, tab[i], n);
    forall j | 0 < j < p ensures Follow(next, tab[i], j) != 0 {
      if Follow(next, tab[i], j) == 0 {
        StaysNull(next, tab[i], j, p);
        assert false;
      }
    }
    CircleWalk(tab, next, i, p, p);
    k := p + 1;
  }

  lemma {:induction false} PoolHangs(tab: seq<nat>, next: map<nat, nat>, i: nat, k: nat)
    requires i < |tab| && !WalkEnds(next, tab[i]) && !WalkReturns(next, tab[i])
    ensures Rounds(tab, next, Enter(tab, i), k) == At(i, tab[i], Follow(next, tab[i], k), if k > 0 then 0 else 1)
  {
    if k > 0 {
      PoolHangs(tab, next, i, k - 1);
    }
  }

  // ---------------------------------------------------------------- the result

  /** Every list that the check gets to ends, or comes back to its head. */
  ghost predicate CheckEnds(tab: seq<nat>, next: map<nat, nat>) {
    forall k :: 0 <= k < |tab| && (forall j :: 0 <= j < k ==> !WalkReturns(next, tab[j])) ==>
      WalkEnds(next, tab[k]) || WalkReturns(next, tab[k])
  }

  /** The check gets to pool i if all lists before it end. */
  lemma {:induction false} GetsTo(tab: seq<nat>, next: map<nat, nat>, i: nat) returns (k: nat)
    requires i <= |tab| && forall j :: 0 <= j < i ==> WalkEnds(next, tab[j])
    ensures Rounds(tab, next, Enter(tab, 0), k) == Enter(tab, i)
  {
    if i == 0 {
      k := 0;
    } else {
      k := GetsTo(tab, next, i - 1);
      var more := PoolEnds(tab, next, i - 1);
      MoreRounds(tab, next, Enter(tab, 0), k, more);
      k := k + more;
    }
  }

  /** The first list that does not end, if there is one. */
  lemma {:induction false} FirstEndless(tab: seq<nat>, next: map<nat, nat>, n: nat) returns (i: nat)
    requires n <= |tab|
    ensures i <= n && (forall j :: 0 <= j < i ==> WalkEnds(next, tab[j])) && (i < n ==> !WalkEnds(next, tab[i]))
  {
    if n == 0 {
      i := 0;
    } else {
      i := FirstEndless(tab, next, n - 1);
      if i == n - 1 && WalkEnds(next, tab[i]) {
        i := n;
      }
    }
  }

  /** memp_sanity returns exactly if every list that it gets to ends or comes back to its head;
      then it says that all is well exactly if none comes back. */
  lemma HaltsExactlyIf(tab: seq<nat>, next: map<nat, nat>)
    ensures Halts(tab, next) <==> CheckEnds(tab, next)
    ensures forall k: nat :: Rounds(tab, next, Enter(tab, 0), k).Returned? ==>
              (Rounds(tab, next, Enter(tab, 0), k).sane <==> forall j :: 0 <= j < |tab| ==> !WalkReturns(next, tab[j]))
  {
    hide Rounds, WalkEnds, WalkReturns;
    var i := FirstEndless(tab, next, |tab|);
    forall j | 0 <= j < i ensures !WalkReturns(next, tab[j]) {
      EndsOrReturns(next, tab[j]);
    }
    var a := GetsTo(tab, next, i);
    if i == |tab| {
      OneResult(tab, next, a);
    } else if WalkReturns(next, tab[i]) {
      var b := PoolReturns(tab, next, i);
      MoreRounds(tab, next, Enter(tab, 0), a, b);
      OneResult(tab, next, a + b);
    } else {
      NeverReturns(tab, next, i, a);
    }
  }

  lemma OneResult(tab: seq<nat>, next: map<nat, nat>, a: nat)
    requires Rounds(tab, next, Enter(tab, 0), a).Returned?
    ensures Halts(tab, next)
    ensures forall k: nat :: Rounds(tab, next, Enter(tab, 0), k).Returned? ==>
              Rounds(tab, next, Enter(tab, 0), k) == Rounds(tab, next, Enter(tab, 0), a)
  {
    forall k: nat | Rounds(tab, next, Enter(tab, 0), k).Returned?
      ensures Rounds(tab, next, Enter(tab, 0), k) == Rounds(tab, next, Enter(tab, 0), a)
    {
      if k <= a {
        StaysReturned(tab, next, Enter(tab, 0), k, a);
      } else {
        StaysReturned(tab, next, Enter(tab, 0), a, k);
      }
    }
  }

  lemma NeverReturns(tab: seq<nat>, next: map<nat, nat>, i: nat, a: nat)
    requires i < |tab| && !WalkEnds(next, tab[i]) && !WalkReturns(next, tab[i])
    requires Rounds(tab, next, Enter(tab, 0), a) == Enter(tab, i)
    ensures forall k: nat :: !Rounds(tab, next, Enter(tab, 0), k).Returned?
  {
    forall k: nat ensures !Rounds(tab, next, Enter(tab, 0), k).Returned? {
      if k <= a {
        if Rounds(tab, next, Enter(tab, 0), k).Returned? {
          StaysReturned(tab, next, Enter(tab, 0), k, a);
          assert false;
        }
      } else {
        PoolHangs(tab, next, i, k - a);
        MoreRounds(tab, next, Enter(tab, 0), a, k - a);
      }
    }
  }
}
