/**
 The numbers 2^i * 3^j * 5^k in increasing order.
 */
module Smooth {

  ghost function Pow(b: nat, e: nat): nat {
    if e == 0 then 1 else b * Pow(b, e - 1)
  }

  ghost predicate IsProduct(x: nat, i: nat, j: nat, k: nat) {
    x == Pow(2, i) * Pow(3, j) * Pow(5, k)
  }

  ghost predicate IsSmooth(x: nat) {
    exists i: nat, j: nat, k: nat :: IsProduct(x, i, j, k)
  }

  /** The smooth numbers up to the last element, in strictly increasing order: the |a| smallest. */
  ghost predicate IsFirst(a: seq<nat>) {
    && (forall i, j :: 0 <= i < j < |a| ==> a[i] < a[j])
    && (forall i :: 0 <= i < |a| ==> IsSmooth(a[i]))
    && (forall x: nat :: a != [] && IsSmooth(x) && x <= a[|a| - 1] ==> x in a)
  }

  lemma {:induction false} PowPositive(b: nat, e: nat)
    requires b > 0
    ensures Pow(b, e) > 0
  {
    if e > 0 {
      PowPositive(b, e - 1);
    }
  }

  lemma ProductPositive(x: nat, i: nat, j: nat, k: nat)
    requires IsProduct(x, i, j, k)
    ensures x > 0
  {
    PowPositive(2, i);
    PowPositive(3, j);
    PowPositive(5, k);
    assert Pow(2, i) * Pow(3, j) > 0;
  }

  lemma OneIsSmooth()
    ensures IsSmooth(1)
  {
    assert IsProduct(1, 0, 0, 0);
  }

  lemma Multiples(x: nat)
    requires IsSmooth(x)
    ensures x > 0 && IsSmooth(2 * x) && IsSmooth(3 * x) && IsSmooth(5 * x)
  {
    var i: nat, j: nat, k: nat :| IsProduct(x, i, j, k);
    ProductPositive(x, i, j, k);
    var a, b, c := Pow(2, i), Pow(3, j), Pow(5, k);
    assert Pow(2, i + 1) == 2 * a && Pow(3, j + 1) == 3 * b && Pow(5, k + 1) == 5 * c;
    Regroup(a, b, c);
    assert IsProduct(2 * x, i + 1, j, k) && IsProduct(3 * x, i, j + 1, k) && IsProduct(5 * x, i, j, k + 1);
  }

  lemma Regroup(a: nat, b: nat, c: nat)
    ensures 2 * (a * b * c) == 2 * a * b * c
    ensures 3 * (a * b * c) == a * (3 * b) * c
    ensures 5 * (a * b * c) == a * b * (5 * c)
  {
    assert 2 * a * b == 2 * (a * b) && 2 * (a * b) * c == 2 * (a * b * c);
    assert a * (3 * b) == 3 * (a * b) && 3 * (a * b) * c == 3 * (a * b * c);
  }

  /** Every smooth number but 1 is 2, 3 or 5 times a smooth number. */
  lemma Divisor(x: nat) returns (y: nat)
    requires IsSmooth(x) && x > 1
    ensures IsSmooth(y) && 0 < y < x && (x == 2 * y || x == 3 * y || x == 5 * y)
  {
    var i: nat, j: nat, k: nat :| IsProduct(x, i, j, k);
    var a, b, c := Pow(2, i), Pow(3, j), Pow(5, k);
    if i > 0 {
      var a' := Pow(2, i - 1);
      y := a' * b * c;
      assert IsProduct(y, i - 1, j, k);
      Regroup(a', b, c);
      ProductPositive(y, i - 1, j, k);
    } else if j > 0 {
      var b' := Pow(3, j - 1);
      y := a * b' * c;
      assert IsProduct(y, i, j - 1, k);
      Regroup(a, b', c);
      ProductPositive(y, i, j - 1, k);
    } else {
      assert a == 1 && b == 1 && x == c;
      var c' := Pow(5, k - 1);
      y := a * b * c';
      assert IsProduct(y, i, j, k - 1);
      ProductPositive(y, i, j, k - 1);
    }
  }

  /** r is at most every multiple of a[j] that lies above `last`. */
  ghost predicate AtMost(r: nat, y: nat, last: nat) {
    && (2 * y > last ==> r <= 2 * y)
    && (3 * y > last ==> r <= 3 * y)
    && (5 * y > last ==> r <= 5 * y)
  }

  /** Nothing smooth lies between the last number and a smallest multiple of all of them. */
  lemma NoneBetween(a: seq<nat>, r: nat, x: nat)
    requires a != [] && IsFirst(a)
    requires r <= 2 * a[|a| - 1] && forall j :: 0 <= j < |a| ==> AtMost(r, a[j], a[|a| - 1])
    requires IsSmooth(x) && x > a[|a| - 1]
    ensures r <= x
  {
    hide IsSmooth;
    var last := a[|a| - 1];
    Multiples(last);
    var y := Divisor(x);
    if y <= last {
      var j :| 0 <= j < |a| && a[j] == y;
      assert AtMost(r, a[j], last);
    }
  }

  /** One turn of the loop of get_next; `stop` is its break. */
  method Lower(r0: nat, y: nat, last: nat) returns (r: nat, stop: bool)
    requires r0 > last && y > 0 && IsSmooth(r0) && IsSmooth(y)
    ensures last < r <= r0 && IsSmooth(r) && AtMost(r, y, last) && (stop <==> 5 * y < last)
  {
    hide IsSmooth;
    Multiples(y);
    r := r0;
    var t := 2 * y;
    if t > last && t < r {
      r := t;
    }
    t := 3 * y;
    if t > last && t < r {
      r := t;
    }
    t := 5 * y;
    if t < last {
      return r, true;
    }
    if t > last && t < r {
      r := t;
    }
    stop := false;
  }

  /** get_next: the next number after the first n. The break loses nothing. */
  method GetNext(a: array<nat>, n: nat) returns (r: nat)
    requires n <= a.Length && IsFirst(a[..n])
    ensures IsFirst(a[..n] + [r])
  {
    hide IsFirst, IsSmooth;
    if n == 0 {
      assert a[..n] + [1] == [1];
      OnlyOne();
      return 1;
    }
    ghost var s := a[..n];
    var last := a[n - 1];
    FirstAt(s, n - 1, n - 1);
    Multiples(last);
    r := 2 * last;
    var i, stop := n - 1, false;
    while i >= 0 && !stop
      invariant -1 <= i < n && last < r <= 2 * last && IsSmooth(r)
      invariant forall j :: (if stop then -1 else i) < j < n ==> AtMost(r, s[j], last)
      decreases i, !stop
    {
      FirstAt(s, i, i);
      r, stop := Lower(r, a[i], last);
      if stop {
        forall j | 0 <= j <= i
          ensures AtMost(r, s[j], last)
        {
          FirstAt(s, j, i);
        }
      } else {
        i := i - 1;
      }
    }
    Extends(s, r);
  }

  lemma FirstAt(s: seq<nat>, i: nat, j: nat)
    requires IsFirst(s) && i <= j < |s|
    ensures s[i] <= s[j] && IsSmooth(s[i]) && s[i] > 0
  {
    hide IsSmooth;
    Multiples(s[i]);
  }

  lemma OnlyOne()
    ensures IsFirst([1])
  {
    OneIsSmooth();
    forall x: nat | IsSmooth(x) && x <= 1
      ensures x in [1]
    {
      Multiples(x);
    }
  }

  lemma Extends(s: seq<nat>, r: nat)
    requires s != [] && IsFirst(s) && IsSmooth(r) && s[|s| - 1] < r <= 2 * s[|s| - 1]
    requires forall j :: 0 <= j < |s| ==> AtMost(r, s[j], s[|s| - 1])
    ensures IsFirst(s + [r])
  {
    hide IsSmooth, AtMost;
    var t, last := s + [r], s[|s| - 1];
    forall x: nat | IsSmooth(x) && x <= r
      ensures x in t
    {
      if x > last {
        NoneBetween(s, r, x);
        assert t[|s|] == x;
      } else {
        assert x in s;
      }
    }
  }

  /** The filling loop: the array holds the first numbers. */
  method Fill(a: array<nat>)
    modifies a
    ensures IsFirst(a[..])
  {
    var i := 0;
    while i < a.Length
      invariant 0 <= i <= a.Length && IsFirst(a[..i])
    {
      hide IsFirst;
      ghost var s := a[..i];
      var r := GetNext(a, i);
      a[i] := r;
      assert a[..i + 1] == s + [r];
      i := i + 1;
    }
    assert a[..i] == a[..];
  }
}
