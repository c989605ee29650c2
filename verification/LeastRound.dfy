/**
 The least round way: among the paths through a square matrix that go right or down, one whose product ends in
 the fewest decimal zeros. A product of zero counts as one zero.
 */
module LeastRound {
  import opened Numbers

  type Grid = seq<seq<nat>>

  ghost predicate Square(m: Grid) {
    |m| > 0 && forall i :: 0 <= i < |m| ==> |m[i]| == |m|
  }

  // ---- factors ----

  lemma Shrinks(x: nat, p: nat)
    requires p >= 2 && x > 0
    ensures 0 <= x / p < x && x == p * (x / p) + x % p
  {
    var q, r := x / p, x % p;
    Division(x, p);
    assert p * q == 2 * q + (p - 2) * q && (p - 2) * q >= 0;
  }

  lemma Division(x: nat, p: nat)
    requires p > 0
    ensures x / p >= 0 && 0 <= x % p < p && x == p * (x / p) + x % p
  {
  }

  /** The exponent of p in x; none for zero. */
  function Factors(x: nat, p: nat): nat
    requires p >= 2
  {
    if x != 0 && x % p == 0 then
      Shrinks(x, p);
      1 + Factors(x / p, p)
    else 0
  }

  /** The zeros at the end of a decimal number. */
  function Zeros(x: nat): nat {
    if x == 0 then 1 else if x % 10 == 0 then 1 + Zeros(x / 10) else 0
  }

  lemma AddMultiple(x: nat, b: nat, p: nat)
    requires p == 2 || p == 5
    ensures (x + p * b) % p == x % p
  {
  }

  lemma Distribute(a: nat, b: nat, p: nat)
    requires a >= p
    ensures a * b == (a - p) * b + p * b
  {
  }

  lemma LessModulus(a: nat, p: nat)
    requires p == 2 || p == 5
    ensures a >= p ==> (a - p) % p == a % p
    ensures a < p ==> a % p == a
  {
  }

  /** Only the remainder of a factor matters. */
  lemma {:induction false} RemainderOfProduct(a: nat, b: nat, p: nat)
    requires p == 2 || p == 5
    ensures (a * b) % p == (a % p * b) % p
    decreases a
  {
    LessModulus(a, p);
    if a >= p {
      Distribute(a, b, p);
      AddMultiple((a - p) * b, b, p);
      RemainderOfProduct(a - p, b, p);
    }
  }

  lemma Primes(a: nat, b: nat, p: nat)
    requires p == 2 || p == 5
    requires a % p != 0 && b % p != 0
    ensures (a * b) % p != 0
  {
    var r, t := a % p, b % p;
    RemainderOfProduct(a, b, p);
    RemainderOfProduct(b, r, p);
    Commute(r, b);
    Commute(t, r);
    SmallPrimes(r, t, p);
  }

  lemma Commute(a: nat, b: nat)
    ensures a * b == b * a
  {
  }

  lemma SmallPrimes(r: nat, t: nat, p: nat)
    requires (p == 2 || p == 5) && 0 < r < p && 0 < t < p
    ensures (r * t) % p != 0
  {
    if p == 2 {
      assert r == 1 && t == 1;
    } else {
      Residues(r, t);
    }
  }

  lemma Residues(r: nat, t: nat)
    requires 0 < r < 5 && 0 < t < 5
    ensures (r * t) % 5 != 0
  {
    if r == 1 {} else if r == 2 {} else if r == 3 {} else {}
  }

  /** Exponents of a prime add up in a product. */
  lemma {:induction false} FactorsAdd(a: nat, b: nat, p: nat)
    requires (p == 2 || p == 5) && a > 0 && b > 0
    ensures a * b > 0 && Factors(a * b, p) == Factors(a, p) + Factors(b, p)
    decreases a + b
  {
    if a % p == 0 {
      Quotient(a, b, p);
      FactorsAdd(a / p, b, p);
    } else if b % p == 0 {
      Quotient(b, a, p);
      Commute(a, b);
      Commute(b / p, a);
      FactorsAdd(a, b / p, p);
    } else {
      Primes(a, b, p);
    }
  }

  lemma Quotient(a: nat, b: nat, p: nat)
    requires (p == 2 || p == 5) && a > 0 && b > 0 && a % p == 0
    ensures 0 < a / p < a && a * b > 0 && (a * b) % p == 0 && (a * b) / p == a / p * b
  {
    var q := a / p;
    assert a == p * q;
    assert a * b == p * (q * b) by {
      assert p * q * b == p * (q * b);
    }
    assert q * b > 0;
  }

  /** A number ends in as many zeros as the smaller of its exponents of 2 and 5. */
  lemma {:induction false} ZerosAreFactors(x: nat)
    requires x > 0
    ensures Zeros(x) == Min(Factors(x, 2), Factors(x, 5))
  {
    hide Factors;
    if x % 10 == 0 {
      ZerosAreFactors(x / 10);
      TenTimes(x / 10);
      assert x == 10 * (x / 10);
    } else {
      NotTen(x);
    }
  }

  lemma TenTimes(y: nat)
    requires y > 0
    ensures Factors(10 * y, 2) == 1 + Factors(y, 2) && Factors(10 * y, 5) == 1 + Factors(y, 5)
  {
    TenFactors();
    hide Factors;
    FactorsAdd(10, y, 2);
    FactorsAdd(10, y, 5);
  }

  lemma NotTen(x: nat)
    requires x % 10 != 0
    ensures Factors(x, 2) == 0 || Factors(x, 5) == 0
  {
    LastDigit(x / 10, x % 10);
    assert x == 10 * (x / 10) + x % 10;
  }

  lemma LastDigit(q: nat, d: nat)
    requires 0 < d < 10
    ensures (10 * q + d) % 2 != 0 || (10 * q + d) % 5 != 0
  {
    AddMultiple(d, 5 * q, 2);
    AddMultiple(d, 2 * q, 5);
    assert d + 2 * (5 * q) == 10 * q + d && d + 5 * (2 * q) == 10 * q + d;
  }

  lemma TenFactors()
    ensures Factors(10, 2) == 1 && Factors(10, 5) == 1
  {
    assert Factors(5, 2) == 0 && Factors(2, 5) == 0;
  }

  // ---- paths ----

  /** A way from the upper left corner to cell (i, j). */
  predicate IsPath(path: string, i: nat, j: nat)
    decreases |path|
  {
    if path == [] then i == 0 && j == 0
    else
      var last, before := path[|path| - 1], path[..|path| - 1];
      (last == 'D' && i > 0 && IsPath(before, i - 1, j)) || (last == 'R' && j > 0 && IsPath(before, i, j - 1))
  }

  /** The product of the cells on a path. */
  function Product(m: Grid, path: string, i: nat, j: nat): nat
    requires Square(m) && i < |m| && j < |m| && IsPath(path, i, j)
    decreases |path|
  {
    if path == [] then m[i][j]
    else
      var before := path[..|path| - 1];
      m[i][j] * if path[|path| - 1] == 'D' then Product(m, before, i - 1, j) else Product(m, before, i, j - 1)
  }

  /** The exponents of p along a path. */
  function Cost(m: Grid, p: nat, path: string, i: nat, j: nat): nat
    requires p >= 2 && Square(m) && i < |m| && j < |m| && IsPath(path, i, j)
    decreases |path|
  {
    var here := Factors(m[i][j], p);
    if path == [] then here
    else
      var before := path[..|path| - 1];
      here + if path[|path| - 1] == 'D' then Cost(m, p, before, i - 1, j) else Cost(m, p, before, i, j - 1)
  }

  lemma {:induction false} CostIsFactors(m: Grid, p: nat, path: string, i: nat, j: nat)
    requires (p == 2 || p == 5) && Square(m) && i < |m| && j < |m| && IsPath(path, i, j) && Product(m, path, i, j) > 0
    ensures Factors(Product(m, path, i, j), p) == Cost(m, p, path, i, j)
    decreases |path|
  {
    hide Factors;
    if path != [] {
      var before := path[..|path| - 1];
      var i', j' := if path[|path| - 1] == 'D' then i - 1 else i, if path[|path| - 1] == 'D' then j else j - 1;
      NonZero(m[i][j], Product(m, before, i', j'));
      CostIsFactors(m, p, before, i', j');
      FactorsAdd(m[i][j], Product(m, before, i', j'), p);
    }
  }

  lemma NonZero(a: nat, b: nat)
    requires a * b > 0
    ensures a > 0 && b > 0
  {
  }

  /** The least cost of a way to (i, j), and the last step the table keeps for it: ties go right. */
  function Best(m: Grid, p: nat, i: nat, j: nat): nat
    requires p >= 2 && Square(m) && i < |m| && j < |m|
    decreases i, j, 1
  {
    Factors(m[i][j], p) +
    if i == 0 && j == 0 then 0
    else if LastStep(m, p, i, j) == 'D' then Best(m, p, i - 1, j)
    else Best(m, p, i, j - 1)
  }

  function LastStep(m: Grid, p: nat, i: nat, j: nat): (d: char)
    requires p >= 2 && Square(m) && i < |m| && j < |m|
    ensures d == 'D' ==> i > 0
    ensures d == 'R' ==> j > 0
    ensures d == 'D' || d == 'R' || (d == ' ' && i == 0 && j == 0)
    decreases i, j, 0
  {
    if i == 0 && j == 0 then ' '
    else if i == 0 then 'R'
    else if j == 0 then 'D'
    else if Best(m, p, i - 1, j) >= Best(m, p, i, j - 1) then 'R'
    else 'D'
  }

  function BestPath(m: Grid, p: nat, i: nat, j: nat): string
    requires p >= 2 && Square(m) && i < |m| && j < |m|
  {
    if i == 0 && j == 0 then []
    else if LastStep(m, p, i, j) == 'D' then BestPath(m, p, i - 1, j) + "D"
    else BestPath(m, p, i, j - 1) + "R"
  }

  /** The path kept by the table attains the cost kept by the table. */
  lemma {:induction false} BestPathAttains(m: Grid, p: nat, i: nat, j: nat)
    requires p >= 2 && Square(m) && i < |m| && j < |m|
    ensures var path := BestPath(m, p, i, j);
            |path| == i + j && IsPath(path, i, j) && Cost(m, p, path, i, j) == Best(m, p, i, j)
  {
    hide Factors;
    var path := BestPath(m, p, i, j);
    if LastStep(m, p, i, j) == 'D' {
      BestPathAttains(m, p, i - 1, j);
      assert path[..|path| - 1] == BestPath(m, p, i - 1, j);
    } else if LastStep(m, p, i, j) == 'R' {
      BestPathAttains(m, p, i, j - 1);
      assert path[..|path| - 1] == BestPath(m, p, i, j - 1);
    }
  }

  /** No path costs less. */
  lemma {:induction false} BestIsLeast(m: Grid, p: nat, path: string, i: nat, j: nat)
    requires p >= 2 && Square(m) && i < |m| && j < |m| && IsPath(path, i, j)
    ensures Best(m, p, i, j) <= Cost(m, p, path, i, j)
    decreases |path|
  {
    hide Factors;
    if path != [] {
      var before := path[..|path| - 1];
      if path[|path| - 1] == 'D' {
        BestIsLeast(m, p, before, i - 1, j);
      } else {
        BestIsLeast(m, p, before, i, j - 1);
      }
    }
  }

  // ---- the printed answer ----

  function Repeat(c: char, n: nat): (s: string)
    ensures |s| == n
  {
    if n == 0 then [] else Repeat(c, n - 1) + [c]
  }

  /** The first row from i on that holds a zero, or the number of rows. */
  function ZeroRow(m: Grid, i: nat): (r: nat)
    requires i <= |m|
    ensures i <= r <= |m| && (r < |m| ==> 0 in m[r])
    ensures forall k :: i <= k < r ==> 0 !in m[k]
    decreases |m| - i
  {
    if i == |m| || 0 in m[i] then i else ZeroRow(m, i + 1)
  }

  /** Down to the row of the zero, right through it, and down. */
  function Detour(n: nat, row: nat): string
    requires row < n
  {
    Repeat('D', row) + Repeat('R', n - 1) + Repeat('D', n - 1 - row)
  }

  /** The selection in main. */
  function Answer(m: Grid): (nat, string)
    requires Square(m)
  {
    var n := |m|;
    var count2, count5 := Best(m, 2, n - 1, n - 1), Best(m, 5, n - 1, n - 1);
    if count2 < 1 || count5 < 1 || ZeroRow(m, 0) == n then
      if count2 > count5 then (count5, BestPath(m, 5, n - 1, n - 1)) else (count2, BestPath(m, 2, n - 1, n - 1))
    else (1, Detour(n, ZeroRow(m, 0)))
  }

  /** `count` is the number of zeros of the path's product, and no path has fewer. */
  ghost predicate Correct(m: Grid, count: nat, path: string)
    requires Square(m)
  {
    var e := |m| - 1;
    && IsPath(path, e, e) && Zeros(Product(m, path, e, e)) == count
    && forall q :: IsPath(q, e, e) ==> count <= Zeros(Product(m, q, e, e))
  }

  /** A path of non-zero cells has at least as many zeros as the smaller of the two least costs. */
  lemma ZerosAtLeast(m: Grid, path: string, i: nat, j: nat)
    requires Square(m) && i < |m| && j < |m| && IsPath(path, i, j) && Product(m, path, i, j) > 0
    ensures Zeros(Product(m, path, i, j)) == Min(Cost(m, 2, path, i, j), Cost(m, 5, path, i, j))
    ensures Zeros(Product(m, path, i, j)) >= Min(Best(m, 2, i, j), Best(m, 5, i, j))
  {
    hide Factors, Zeros, Product, Cost, Best;
    ZerosAreFactors(Product(m, path, i, j));
    CostIsFactors(m, 2, path, i, j);
    CostIsFactors(m, 5, path, i, j);
    BestIsLeast(m, 2, path, i, j);
    BestIsLeast(m, 5, path, i, j);
  }

  /** The cheaper of the two kept paths, when it avoids zeros, ends in as many zeros as it costs. */
  lemma ChosenZeros(m: Grid, p: nat, i: nat, j: nat)
    requires Square(m) && i < |m| && j < |m| && (p == 2 || p == 5)
    requires Best(m, p, i, j) <= Best(m, 7 - p, i, j)
    ensures IsPath(BestPath(m, p, i, j), i, j)
    ensures Product(m, BestPath(m, p, i, j), i, j) > 0 ==> Zeros(Product(m, BestPath(m, p, i, j), i, j)) == Best(m, p, i, j)
  {
    hide Factors, Zeros, Product, Cost, Best, BestPath;
    BestPathAttains(m, p, i, j);
    var path := BestPath(m, p, i, j);
    if Product(m, path, i, j) > 0 {
      ZerosAtLeast(m, path, i, j);
      BestIsLeast(m, 7 - p, path, i, j);
    }
  }

  lemma ZeroHasOneZero()
    ensures Zeros(0) == 1
  {
  }

  lemma {:induction false} RunDown(m: Grid, start: string, i: nat, j: nat, end: nat)
    requires Square(m) && IsPath(start, i, j) && i <= end < |m| && j < |m|
    ensures IsPath(start + Repeat('D', end - i), end, j)
    ensures Product(m, start, i, j) == 0 ==> Product(m, start + Repeat('D', end - i), end, j) == 0
    decreases end
  {
    var path := start + Repeat('D', end - i);
    if end == i {
      assert path == start;
    } else {
      RunDown(m, start, i, j, end - 1);
      assert path[..|path| - 1] == start + Repeat('D', end - 1 - i);
    }
  }

  /** A run through a whole row meets its zero. */
  lemma {:induction false} RunRight(m: Grid, start: string, i: nat, k: nat, z: nat)
    requires Square(m) && IsPath(start, i, 0) && i < |m| && k < |m| && z < |m| && m[i][z] == 0
    ensures IsPath(start + Repeat('R', k), i, k)
    ensures z <= k ==> Product(m, start + Repeat('R', k), i, k) == 0
    decreases k
  {
    var path := start + Repeat('R', k);
    if k == 0 {
      assert path == start;
    } else {
      RunRight(m, start, i, k - 1, z);
      assert path[..|path| - 1] == start + Repeat('R', k - 1);
    }
  }

  lemma NoSteps()
    ensures IsPath([], 0, 0)
  {
  }

  lemma DetourThrough(m: Grid, row: nat, z: nat)
    requires Square(m) && row < |m| && z < |m| && m[row][z] == 0
    ensures var path, e := Detour(|m|, row), |m| - 1; IsPath(path, e, e) && Product(m, path, e, e) == 0
  {
    hide Product, IsPath, Repeat;
    var e := |m| - 1;
    NoSteps();
    RunDown(m, [], 0, 0, row);
    assert [] + Repeat('D', row - 0) == Repeat('D', row);
    RunRight(m, Repeat('D', row), row, e, z);
    RunDown(m, Repeat('D', row) + Repeat('R', e), row, e, e);
  }

  lemma DetourIsZero(m: Grid)
    requires Square(m) && ZeroRow(m, 0) < |m|
    ensures var path, e := Detour(|m|, ZeroRow(m, 0)), |m| - 1; IsPath(path, e, e) && Product(m, path, e, e) == 0
  {
    hide Product, IsPath, Detour, ZeroRow;
    var row := ZeroRow(m, 0);
    var z :| 0 <= z < |m[row]| && m[row][z] == 0;
    DetourThrough(m, row, z);
  }

  /** A product of zero needs a zero in the matrix. */
  lemma {:induction false} ZeroNeedsZero(m: Grid, path: string, i: nat, j: nat)
    requires Square(m) && i < |m| && j < |m| && IsPath(path, i, j) && Product(m, path, i, j) == 0
    ensures ZeroRow(m, 0) < |m|
    decreases |path|
  {
    if m[i][j] == 0 {
      assert 0 in m[i];
    } else {
      var before := path[..|path| - 1];
      if path[|path| - 1] == 'D' {
        Nothing(m[i][j], Product(m, before, i - 1, j));
        ZeroNeedsZero(m, before, i - 1, j);
      } else {
        Nothing(m[i][j], Product(m, before, i, j - 1));
        ZeroNeedsZero(m, before, i, j - 1);
      }
    }
  }

  lemma Nothing(a: nat, b: nat)
    requires a * b == 0 && a != 0
    ensures b == 0
  {
  }

  /** The row with a zero in it is the better way when every way has a 2 and a 5. */
  lemma DetourCorrect(m: Grid)
    requires Square(m) && ZeroRow(m, 0) < |m|
    requires var e := |m| - 1; Best(m, 2, e, e) >= 1 && Best(m, 5, e, e) >= 1
    ensures Correct(m, 1, Detour(|m|, ZeroRow(m, 0)))
  {
    hide Factors, Best, Product, Zeros, Detour, ZeroRow;
    DetourIsZero(m);
    ZeroHasOneZero();
    var e := |m| - 1;
    forall q | IsPath(q, e, e)
      ensures 1 <= Zeros(Product(m, q, e, e))
    {
      if Product(m, q, e, e) > 0 {
        ZerosAtLeast(m, q, e, e);
      }
    }
  }

  /** A kept path without zeros is right unless the detour is better. */
  lemma ChosenCorrect(m: Grid, p: nat)
    requires Square(m) && (p == 2 || p == 5)
    requires var e := |m| - 1; Best(m, p, e, e) <= Best(m, 7 - p, e, e)
    requires ZeroRow(m, 0) == |m| || Best(m, p, |m| - 1, |m| - 1) == 0
    ensures var e := |m| - 1; var path := BestPath(m, p, e, e);
            IsPath(path, e, e) && (Correct(m, Best(m, p, e, e), path) <==> Product(m, path, e, e) > 0)
  {
    hide Factors, Best, Product, Zeros, BestPath, ZeroRow;
    var e := |m| - 1;
    var path, count := BestPath(m, p, e, e), Best(m, p, e, e);
    ChosenZeros(m, p, e, e);
    ZeroHasOneZero();
    forall q | IsPath(q, e, e)
      ensures count <= Zeros(Product(m, q, e, e))
    {
      if Product(m, q, e, e) > 0 {
        ZerosAtLeast(m, q, e, e);
      } else {
        ZeroNeedsZero(m, q, e, e);
      }
    }
    if Product(m, path, e, e) == 0 {
      ZeroNeedsZero(m, path, e, e);
    }
  }

  /** What is printed is a path, and right if and only if the path avoids zeros or both least costs are positive. */
  lemma AnswerByPath(m: Grid)
    requires Square(m)
    ensures var (count, path) := Answer(m); var e := |m| - 1;
            && IsPath(path, e, e)
            && (Correct(m, count, path) <==>
                Product(m, path, e, e) > 0 || (Best(m, 2, e, e) >= 1 && Best(m, 5, e, e) >= 1))
  {
    hide Factors, Best, Product, Zeros, BestPath, ZeroRow, Correct, Detour;
    var e := |m| - 1;
    var count2, count5 := Best(m, 2, e, e), Best(m, 5, e, e);
    if count2 < 1 || count5 < 1 || ZeroRow(m, 0) == |m| {
      var p := if count2 > count5 then 5 else 2;
      ChosenCorrect(m, p);
      if Product(m, BestPath(m, p, e, e), e, e) == 0 {
        ZeroNeedsZero(m, BestPath(m, p, e, e), e, e);
      }
    } else {
      DetourCorrect(m);
      DetourIsZero(m);
    }
  }

  // ---- when the answer is wrong, said of the matrix ----

  /** A way of cells without the factor p leads to (i, j); a zero counts as such a cell. */
  predicate Clear(m: Grid, p: nat, i: nat, j: nat)
    requires p >= 2 && Square(m) && i < |m| && j < |m|
  {
    && (m[i][j] == 0 || m[i][j] % p != 0)
    && ((i == 0 && j == 0) || (i > 0 && Clear(m, p, i - 1, j)) || (j > 0 && Clear(m, p, i, j - 1)))
  }

  /** Going back from (i, j), to the left wherever the left cell is clear and up otherwise, meets a zero. */
  predicate ZeroOnLowest(m: Grid, p: nat, i: nat, j: nat)
    requires p >= 2 && Square(m) && i < |m| && j < |m|
  {
    || m[i][j] == 0
    || (if j > 0 && Clear(m, p, i, j - 1) then ZeroOnLowest(m, p, i, j - 1) else i > 0 && ZeroOnLowest(m, p, i - 1, j))
  }

  lemma {:induction false} ClearIsFree(m: Grid, p: nat, i: nat, j: nat)
    requires p >= 2 && Square(m) && i < |m| && j < |m|
    ensures Clear(m, p, i, j) <==> Best(m, p, i, j) == 0
  {
    assert Factors(m[i][j], p) == 0 <==> m[i][j] == 0 || m[i][j] % p != 0;
    hide Factors;
    if i > 0 {
      ClearIsFree(m, p, i - 1, j);
    }
    if j > 0 {
      ClearIsFree(m, p, i, j - 1);
    }
  }

  /** On clear cells the kept step is to the left if the left cell is clear, and up otherwise. */
  lemma ClearStep(m: Grid, p: nat, i: nat, j: nat)
    requires p >= 2 && Square(m) && i < |m| && j < |m| && Clear(m, p, i, j) && i + j > 0
    ensures LastStep(m, p, i, j) == if j > 0 && Clear(m, p, i, j - 1) then 'R' else 'D'
    ensures if j > 0 && Clear(m, p, i, j - 1) then true else i > 0 && Clear(m, p, i - 1, j)
  {
    hide Best;
    if i > 0 {
      ClearIsFree(m, p, i - 1, j);
    }
    if j > 0 {
      ClearIsFree(m, p, i, j - 1);
    }
  }

  lemma {:induction false} ZeroOnBestPath(m: Grid, p: nat, i: nat, j: nat)
    requires p >= 2 && Square(m) && i < |m| && j < |m| && Clear(m, p, i, j)
    ensures IsPath(BestPath(m, p, i, j), i, j)
    ensures Product(m, BestPath(m, p, i, j), i, j) == 0 <==> ZeroOnLowest(m, p, i, j)
  {
    hide Factors, Best, LastStep;
    BestPathAttains(m, p, i, j);
    var path := BestPath(m, p, i, j);
    if i + j > 0 {
      ClearStep(m, p, i, j);
      var i', j' := if LastStep(m, p, i, j) == 'D' then i - 1 else i, if LastStep(m, p, i, j) == 'D' then j else j - 1;
      assert path[..|path| - 1] == BestPath(m, p, i', j');
      ZeroOnBestPath(m, p, i', j');
      ZeroProduct(m[i][j], Product(m, path[..|path| - 1], i', j'));
    }
  }

  lemma ZeroProduct(a: nat, b: nat)
    ensures a * b == 0 <==> a == 0 || b == 0
  {
  }

  /**
   The printed answer is wrong exactly for these matrices: a clear way for 2 exists and the lowest one meets a zero, or
   none for 2 but one for 5 exists and the lowest one of those does.
   */
  lemma AnswerWrongIff(m: Grid)
    requires Square(m)
    ensures var (count, path) := Answer(m); var e := |m| - 1;
            !Correct(m, count, path) <==>
            if Clear(m, 2, e, e) then ZeroOnLowest(m, 2, e, e) else Clear(m, 5, e, e) && ZeroOnLowest(m, 5, e, e)
  {
    hide Factors, Best, Product, Zeros, BestPath, ZeroRow, Correct, Detour, Clear, ZeroOnLowest;
    var e := |m| - 1;
    AnswerByPath(m);
    ClearIsFree(m, 2, e, e);
    ClearIsFree(m, 5, e, e);
    if Clear(m, 2, e, e) {
      ZeroOnBestPath(m, 2, e, e);
    } else if Clear(m, 5, e, e) {
      ZeroOnBestPath(m, 5, e, e);
    }
  }

  /** For positive matrices the answer is always right. */
  lemma PositiveAnswer(m: Grid)
    requires Square(m) && forall i, j :: 0 <= i < |m| && 0 <= j < |m[i]| ==> m[i][j] > 0
    ensures var (count, path) := Answer(m); Correct(m, count, path)
  {
    hide Factors, Best, Product, Zeros, BestPath, Correct, Detour, Answer;
    AnswerByPath(m);
    var (count, path) := Answer(m);
    var e := |m| - 1;
    if Product(m, path, e, e) == 0 {
      ZeroNeedsZero(m, path, e, e);
    }
  }

  /** A matrix for which 0 is printed with a path whose product is zero. */
  const WRONG: Grid := [[1, 0], [10, 1]]

  lemma WrongCosts()
    ensures Square(WRONG) && Best(WRONG, 2, 0, 1) == 0 && Best(WRONG, 2, 1, 0) == 1
  {
    assert WRONG[0] == [1, 0] && WRONG[1] == [10, 1];
    assert Factors(1, 2) == 0 && Factors(0, 2) == 0;
    TenFactors();
    hide Factors;
    assert LastStep(WRONG, 2, 0, 1) == 'R' && LastStep(WRONG, 2, 1, 0) == 'D';
    assert Best(WRONG, 2, 0, 0) == 0;
  }

  lemma WrongPath()
    ensures Square(WRONG) && BestPath(WRONG, 2, 1, 1) == "RD" && Best(WRONG, 2, 1, 1) == 0
  {
    WrongCosts();
    assert Factors(1, 2) == 0;
    hide Factors, Best;
    assert LastStep(WRONG, 2, 1, 1) == 'D';
    assert LastStep(WRONG, 2, 0, 1) == 'R';
    assert BestPath(WRONG, 2, 0, 0) == [];
    assert BestPath(WRONG, 2, 0, 1) == [] + "R" == "R";
    assert BestPath(WRONG, 2, 1, 1) == "R" + "D";
    assert WRONG[1][1] == 1;
    BestStep(WRONG, 2, 1, 1);
  }

  lemma BestStep(m: Grid, p: nat, i: nat, j: nat)
    requires p >= 2 && Square(m) && i < |m| && j < |m| && LastStep(m, p, i, j) == 'D'
    ensures Best(m, p, i, j) == Factors(m[i][j], p) + Best(m, p, i - 1, j)
  {
  }

  lemma WrongProduct()
    ensures Square(WRONG) && IsPath("RD", 1, 1) && Product(WRONG, "RD", 1, 1) == 0
  {
    assert WRONG[0] == [1, 0] && WRONG[1] == [10, 1];
    assert "RD"[..1] == "R" && "R"[..0] == "";
    assert IsPath("", 0, 0);
    assert IsPath("R", 0, 1);
    assert Product(WRONG, "R", 0, 1) == 0;
  }

  lemma WrongAnswer()
    ensures Square(WRONG) && Answer(WRONG) == (0, "RD") && !Correct(WRONG, 0, "RD")
  {
    hide Factors, Best, BestPath, Product, IsPath, Zeros, LastStep;
    WrongPath();
    WrongProduct();
    ZeroHasOneZero();
  }
}
