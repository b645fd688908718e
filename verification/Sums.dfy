/** Totals over a sequence of threads, and how they move when one thread moves. */
module Sums {

  ghost function Sum<T>(f: T -> int, s: seq<T>): int {
    if s == [] then 0 else f(s[0]) + Sum(f, s[1..])
  }

  lemma {:induction false} SumUpdate<T>(f: T -> int, s: seq<T>, i: nat, x: T)
    requires i < |s|
    ensures Sum(f, s[i := x]) == Sum(f, s) - f(s[i]) + f(x)
  {
    if i == 0 {
      assert s[i := x][1..] == s[1..];
    } else {
      SumUpdate(f, s[1..], i - 1, x);
      assert s[i := x][1..] == s[1..][i - 1 := x];
    }
  }

  /** One part never exceeds the whole, when no part is negative. */
  lemma {:induction false} SumAtLeast<T>(f: T -> int, s: seq<T>, i: nat)
    requires i < |s|
    requires forall x :: x in s ==> f(x) >= 0
    ensures Sum(f, s) >= f(s[i])
  {
    SumNonNegative(f, s[1..]);
    if i == 0 {
    } else {
      SumAtLeast(f, s[1..], i - 1);
    }
  }

  lemma {:induction false} SumNonNegative<T>(f: T -> int, s: seq<T>)
    requires forall x :: x in s ==> f(x) >= 0
    ensures Sum(f, s) >= 0
  {
    if s == [] {
    } else {
      SumNonNegative(f, s[1..]);
    }
  }

  lemma {:induction false} SumAtMost<T>(f: T -> int, s: seq<T>)
    requires forall x :: x in s ==> f(x) <= 1
    ensures Sum(f, s) <= |s|
  {
    if s == [] {
    } else {
      SumAtMost(f, s[1..]);
    }
  }

  lemma {:induction false} SumAllZero<T>(f: T -> int, s: seq<T>)
    requires forall x :: x in s ==> f(x) == 0
    ensures Sum(f, s) == 0
  {
    if s == [] {
    } else {
      SumAllZero(f, s[1..]);
    }
  }

  /** Two different parts together never exceed the whole. */
  lemma {:induction false} SumAtLeastBoth<T>(f: T -> int, s: seq<T>, i: nat, j: nat)
    requires i < j < |s|
    requires forall x :: x in s ==> f(x) >= 0
    ensures Sum(f, s) >= f(s[i]) + f(s[j])
  {
    if i == 0 {
      SumAtLeast(f, s[1..], j - 1);
    } else {
      SumAtLeastBoth(f, s[1..], i - 1, j - 1);
    }
  }
}
