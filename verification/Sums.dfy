/** Sums over the threads of a program, and the numbers 0, 1, .., n - 1. */
module Sums {

  function Sum<T>(f: T -> int, s: seq<T>): int {
    if s == [] then 0 else f(s[0]) + Sum(f, s[1..])
  }

  /** One thread moved: the sum changes by what that thread contributes. */
  lemma {:induction false} SumUpdate<T>(f: T -> int, s: seq<T>, i: nat, x: T)
    requires i < |s|
    ensures Sum(f, s[i := x]) == Sum(f, s) - f(s[i]) + f(x)
  {
    if i == 0 {
      assert s[i := x][1..] == s[1..];
    } else {
      SumUpdate(f, s[1..], i - 1, x);
      assert s[i := x][1..] == s[1..][i - 1 := x];
    }
  }

  /** Each of several non-negative contributions is at most their sum. */
  lemma {:induction false} SumAtLeast<T>(f: T -> int, s: seq<T>, i: nat)
    requires i < |s|
    requires forall x :: x in s ==> f(x) >= 0
    ensures f(s[i]) <= Sum(f, s)
  {
    if i == 0 {
      SumNonNegative(f, s[1..]);
    } else {
      SumAtLeast(f, s[1..], i - 1);
    }
  }

  lemma {:induction false} SumNonNegative<T>(f: T -> int, s: seq<T>)
    requires forall x :: x in s ==> f(x) >= 0
    ensures Sum(f, s) >= 0
  {
    if s != [] { SumNonNegative(f, s[1..]); }
  }

  /** Equal contributions from every thread multiply. */
  lemma {:induction false} SumConstant<T>(f: T -> int, s: seq<T>, c: int)
    requires forall x :: x in s ==> f(x) == c
    ensures Sum(f, s) == |s| * c
  {
    if s != [] {
      SumConstant(f, s[1..], c);
      assert |s| * c == c + (|s| - 1) * c;
    }
  }

  lemma {:induction false} SumAtMost<T>(f: T -> int, s: seq<T>, c: int)
    requires forall x :: x in s ==> f(x) <= c
    ensures Sum(f, s) <= c * |s|
  {
    if s != [] {
      SumAtMost(f, s[1..], c);
      assert c * |s| == c + c * |s[1..]|;
    }
  }

  /** Two sums compare if their contributions do one by one. */
  lemma {:induction false} SumCompare<T, U>(f: T -> int, s: seq<T>, g: U -> int, r: seq<U>)
    requires |s| == |r| && forall i :: 0 <= i < |s| ==> f(s[i]) <= g(r[i])
    ensures Sum(f, s) <= Sum(g, r)
  {
    if s != [] {
      assert forall i :: 0 <= i < |s[1..]| ==> s[1..][i] == s[i + 1] && r[1..][i] == r[i + 1];
      SumCompare(f, s[1..], g, r[1..]);
    }
  }

  lemma {:induction false} SumLinear<T>(f: T -> int, g: T -> int, h: T -> int, s: seq<T>, c: int, d: int)
    requires forall x :: x in s ==> h(x) == c * f(x) + d * g(x)
    ensures Sum(h, s) == c * Sum(f, s) + d * Sum(g, s)
  {
    if s != [] {
      SumLinear(f, g, h, s[1..], c, d);
      assert c * Sum(f, s) == c * f(s[0]) + c * Sum(f, s[1..]);
      assert d * Sum(g, s) == d * g(s[0]) + d * Sum(g, s[1..]);
    }
  }

  /** Each contribution grows by at most `c`. */
  lemma {:induction false} SumShift<T>(f: T -> int, g: T -> int, s: seq<T>, c: int)
    requires forall j :: 0 <= j < |s| ==> g(s[j]) <= f(s[j]) + c
    ensures Sum(g, s) <= Sum(f, s) + c * |s|
  {
    if s != [] {
      assert forall j :: 0 <= j < |s[1..]| ==> s[1..][j] == s[j + 1];
      SumShift(f, g, s[1..], c);
      assert c * |s| == c + c * |s[1..]|;
    }
  }

  /** Each contribution but one grows by at most `c`. */
  lemma {:induction false} SumShiftButOne<T>(f: T -> int, g: T -> int, s: seq<T>, i: nat, c: int)
    requires i < |s|
    requires forall j :: 0 <= j < |s| && j != i ==> g(s[j]) <= f(s[j]) + c
    ensures Sum(g, s) <= Sum(f, s) + c * (|s| - 1) + g(s[i]) - f(s[i])
  {
    assert forall j :: 0 <= j < |s[1..]| ==> s[1..][j] == s[j + 1];
    if i == 0 {
      SumShift(f, g, s[1..], c);
    } else {
      SumShiftButOne(f, g, s[1..], i - 1, c);
      assert c * (|s| - 1) == c + c * (|s[1..]| - 1);
    }
  }

  lemma Distributes(rate: int, x: int, y: int)
    ensures rate * (x + y) == rate * x + rate * y
  {}

  /** 0, 1, .., n - 1. */
  function Numbers(n: nat): seq<int> {
    seq(n, i => i)
  }
}
