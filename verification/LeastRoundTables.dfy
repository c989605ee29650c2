/**
 The tables of the least round way, filled in place.
 */
module LeastRoundTables {
  import opened LeastRound

  /** zero_flag and zero_row: the first row found to hold a zero. */
  class ZeroCell {
    var flag: bool
    var row: nat

    constructor ()
      ensures !flag
    {
      flag, row := false, 0;
    }
  }

  /** What is known of zeros after the rows below i and the cells of row i below j. */
  ghost predicate ZeroSeen(m: Grid, flag: bool, row: nat, i: nat, j: nat)
    requires i <= |m| && (i < |m| ==> j <= |m[i]|)
  {
    if flag then row < |m| && row <= i && 0 in m[row] && forall k :: 0 <= k < row ==> 0 !in m[k]
    else (forall k :: 0 <= k < i ==> 0 !in m[k]) && (i < |m| ==> 0 !in m[i][..j])
  }

  lemma ZeroSeenNext(m: Grid, flag: bool, row: nat, i: nat, j: nat)
    requires i < |m| && j < |m[i]| && ZeroSeen(m, flag, row, i, j)
    ensures if !flag && m[i][j] == 0 then ZeroSeen(m, true, i, i, j + 1) else ZeroSeen(m, flag, row, i, j + 1)
  {
    assert m[i][..j + 1] == m[i][..j] + [m[i][j]];
  }

  lemma ZeroSeenRow(m: Grid, flag: bool, row: nat, i: nat)
    requires i < |m| && ZeroSeen(m, flag, row, i, |m[i]|)
    ensures ZeroSeen(m, flag, row, i + 1, 0)
  {
    assert m[i][..|m[i]|] == m[i];
  }

  /** The inner loop of get_number_of_factor. */
  method CountFactor(x0: nat, p: nat) returns (k: nat)
    requires p >= 2
    ensures k == Factors(x0, p)
  {
    var x: nat := x0;
    k := 0;
    while x != 0 && x % p == 0
      invariant k + Factors(x, p) == Factors(x0, p)
      decreases x
    {
      Shrinks(x, p);
      k := k + 1;
      x := x / p;
    }
  }

  ghost predicate Holds(mo: array2<nat>, m: Grid, p: nat)
    requires p >= 2 && Square(m)
    reads mo
  {
    && mo.Length0 == |m| && mo.Length1 == |m|
    && forall i, j :: 0 <= i < |m| && 0 <= j < |m| ==> mo[i, j] == Factors(m[i][j], p)
  }

  /** get_number_of_factor on a table of zeros. */
  method GetNumberOfFactor(m: Grid, mo: array2<nat>, p: nat, z: ZeroCell)
    requires p >= 2 && Square(m) && mo.Length0 == |m| && mo.Length1 == |m|
    requires forall i, j :: 0 <= i < |m| && 0 <= j < |m| ==> mo[i, j] == 0
    requires z.flag ==> ZeroSeen(m, z.flag, z.row, |m|, 0)
    modifies mo, z
    ensures Holds(mo, m, p)
    ensures ZeroSeen(m, z.flag, z.row, |m|, 0)
  {
    hide Factors;
    ghost var early := z.flag;
    var i := 0;
    while i < |m|
      invariant 0 <= i <= |m| && early == old(z.flag)
      invariant if early then z.flag && z.row == old(z.row) else ZeroSeen(m, z.flag, z.row, i, 0)
      invariant forall a, b :: 0 <= a < |m| && 0 <= b < |m| ==> mo[a, b] == if a < i then Factors(m[a][b], p) else 0
    {
      var j := 0;
      while j < |m|
        invariant 0 <= j <= |m|
        invariant if early then z.flag && z.row == old(z.row) else ZeroSeen(m, z.flag, z.row, i, j)
        invariant forall a, b :: 0 <= a < |m| && 0 <= b < |m| ==>
                    mo[a, b] == if a < i || (a == i && b < j) then Factors(m[a][b], p) else 0
      {
        if !early {
          ZeroSeenNext(m, z.flag, z.row, i, j);
        }
        hide ZeroSeen;
        if !z.flag && m[i][j] == 0 {
          z.flag, z.row := true, i;
        }
        var k := CountFactor(m[i][j], p);
        mo[i, j] := mo[i, j] + k;
        j := j + 1;
      }
      if !early {
        ZeroSeenRow(m, z.flag, z.row, i);
      }
      i := i + 1;
    }
  }

  lemma BestEdges(m: Grid, p: nat, i: nat)
    requires p >= 2 && Square(m) && i < |m|
    ensures Best(m, p, 0, 0) == Factors(m[0][0], p) && LastStep(m, p, 0, 0) == ' '
    ensures i > 0 ==> Best(m, p, 0, i) == Factors(m[0][i], p) + Best(m, p, 0, i - 1) && LastStep(m, p, 0, i) == 'R'
    ensures i > 0 ==> Best(m, p, i, 0) == Factors(m[i][0], p) + Best(m, p, i - 1, 0) && LastStep(m, p, i, 0) == 'D'
  {
    hide Factors;
  }

  lemma BestInside(m: Grid, p: nat, i: nat, j: nat)
    requires p >= 2 && Square(m) && 0 < i < |m| && 0 < j < |m|
    ensures LastStep(m, p, i, j) == if Best(m, p, i - 1, j) >= Best(m, p, i, j - 1) then 'R' else 'D'
    ensures Best(m, p, i, j) == Factors(m[i][j], p) +
                                if LastStep(m, p, i, j) == 'D' then Best(m, p, i - 1, j) else Best(m, p, i, j - 1)
  {
    hide Factors;
  }

  ghost predicate Sized(mo: array2<nat>, d: array2<char>, m: Grid) {
    mo.Length0 == |m| && mo.Length1 == |m| && d.Length0 == |m| && d.Length1 == |m|
  }

  /** The first row and column of dp. */
  method Edges(mo: array2<nat>, d: array2<char>, m: Grid, p: nat)
    requires p >= 2 && Square(m) && Holds(mo, m, p) && Sized(mo, d, m)
    modifies mo, d
    ensures forall a, b :: 0 <= a < |m| && 0 <= b < |m| && (a == 0 || b == 0) ==>
              mo[a, b] == Best(m, p, a, b) && d[a, b] == LastStep(m, p, a, b)
    ensures forall a, b :: 0 < a < |m| && 0 < b < |m| ==> mo[a, b] == Factors(m[a][b], p)
  {
    hide Factors, Best, LastStep;
    BestEdges(m, p, 0);
    d[0, 0] := ' ';
    var i := 1;
    while i < |m|
      invariant 1 <= i <= |m|
      invariant forall a, b :: 0 <= a < i && 0 <= b < i && (a == 0 || b == 0) ==>
                mo[a, b] == Best(m, p, a, b) && d[a, b] == LastStep(m, p, a, b)
      invariant forall a, b :: 0 <= a < |m| && 0 <= b < |m| && (a >= i || b >= i || (a > 0 && b > 0)) ==> mo[a, b] == Factors(m[a][b], p)
    {
      BestEdges(m, p, i);
      mo[0, i] := mo[0, i] + mo[0, i - 1];
      mo[i, 0] := mo[i, 0] + mo[i - 1, 0];
      d[0, i] := 'R';
      d[i, 0] := 'D';
      i := i + 1;
    }
  }

  /** The rest of dp. */
  method Inside(mo: array2<nat>, d: array2<char>, m: Grid, p: nat)
    requires p >= 2 && Square(m) && Sized(mo, d, m)
    requires forall a, b :: 0 <= a < |m| && 0 <= b < |m| && (a == 0 || b == 0) ==>
              mo[a, b] == Best(m, p, a, b) && d[a, b] == LastStep(m, p, a, b)
    requires forall a, b :: 0 < a < |m| && 0 < b < |m| ==> mo[a, b] == Factors(m[a][b], p)
    modifies mo, d
    ensures forall a, b :: 0 <= a < |m| && 0 <= b < |m| ==>
              mo[a, b] == Best(m, p, a, b) && d[a, b] == LastStep(m, p, a, b)
  {
    hide Factors, Best, LastStep;
    var i := 1;
    while i < |m|
      invariant 1 <= i <= |m|
      invariant forall a, b :: 0 <= a < |m| && 0 <= b < |m| && (a < i || b == 0) ==>
                mo[a, b] == Best(m, p, a, b) && d[a, b] == LastStep(m, p, a, b)
      invariant forall a, b :: i <= a < |m| && 0 < b < |m| ==> mo[a, b] == Factors(m[a][b], p)
    {
      var j := 1;
      while j < |m|
        invariant 1 <= j <= |m|
        invariant forall a, b :: 0 <= a < |m| && 0 <= b < |m| && (a < i || b == 0 || (a == i && b < j)) ==>
                  mo[a, b] == Best(m, p, a, b) && d[a, b] == LastStep(m, p, a, b)
        invariant forall a, b :: i <= a < |m| && 0 < b < |m| && (a > i || b >= j) ==> mo[a, b] == Factors(m[a][b], p)
      {
        BestInside(m, p, i, j);
        if mo[i - 1, j] >= mo[i, j - 1] {
          mo[i, j] := mo[i, j] + mo[i, j - 1];
          d[i, j] := 'R';
        } else {
          mo[i, j] := mo[i, j] + mo[i - 1, j];
          d[i, j] := 'D';
        }
        j := j + 1;
      }
      i := i + 1;
    }
  }

  /** dp: least costs and last steps for every cell. */
  method Dp(mo: array2<nat>, d: array2<char>, m: Grid, p: nat)
    requires p >= 2 && Square(m) && Holds(mo, m, p) && Sized(mo, d, m)
    modifies mo, d
    ensures forall a, b :: 0 <= a < |m| && 0 <= b < |m| ==>
              mo[a, b] == Best(m, p, a, b) && d[a, b] == LastStep(m, p, a, b)
  {
    hide Factors, Best, LastStep;
    Edges(mo, d, m, p);
    Inside(mo, d, m, p);
  }

  lemma PathLength(m: Grid, p: nat, i: nat, j: nat)
    requires p >= 2 && Square(m) && i < |m| && j < |m|
    ensures |BestPath(m, p, i, j)| == i + j
  {
    BestPathAttains(m, p, i, j);
  }

  /** output_path: the way is filled in from its end. */
  method OutputPath(d: array2<char>, m: Grid, p: nat) returns (s: string)
    requires p >= 2 && Square(m) && d.Length0 == |m| && d.Length1 == |m|
    requires forall a, b :: 0 <= a < |m| && 0 <= b < |m| ==> d[a, b] == LastStep(m, p, a, b)
    ensures s == BestPath(m, p, |m| - 1, |m| - 1)
  {
    hide LastStep, BestPath;
    var n := |m|;
    var length := 2 * (n - 1);
    var path := new char[length];
    var i, j, k := n - 1, n - 1, length - 1;
    ghost var whole := BestPath(m, p, n - 1, n - 1);
    PathLength(m, p, n - 1, n - 1);
    while k != -1
      invariant -1 <= k < length && 0 <= i < n && 0 <= j < n && i + j == k + 1
      invariant whole == BestPath(m, p, i, j) + path[k + 1..]
      decreases k
    {
      ghost var tail := path[k + 1..];
      ghost var step := LastStep(m, p, i, j);
      PathStep(m, p, i, j);
      path[k] := d[i, j];
      ghost var longer := path[k..];
      assert longer == [step] + tail;
      k := k - 1;
      if d[i, j] == 'D' {
        i := i - 1;
      } else {
        j := j - 1;
      }
      assert BestPath(m, p, i, j) + [step] + tail == BestPath(m, p, i, j) + longer;
    }
    PathLength(m, p, 0, 0);
    assert path[0..] == path[..];
    s := path[..];
  }

  lemma PathStep(m: Grid, p: nat, i: nat, j: nat)
    requires p >= 2 && Square(m) && i < |m| && j < |m| && i + j > 0
    ensures LastStep(m, p, i, j) == 'D' ==> i > 0 && BestPath(m, p, i, j) == BestPath(m, p, i - 1, j) + ['D']
    ensures LastStep(m, p, i, j) != 'D' ==>
              j > 0 && LastStep(m, p, i, j) == 'R' && BestPath(m, p, i, j) == BestPath(m, p, i, j - 1) + ['R']
  {
    hide Best;
  }

  /** Both tables for one prime. */
  method Tables(m: Grid, p: nat, z: ZeroCell) returns (count: nat, path: string)
    requires p >= 2 && Square(m) && (z.flag ==> ZeroSeen(m, z.flag, z.row, |m|, 0))
    modifies z
    ensures count == Best(m, p, |m| - 1, |m| - 1) && path == BestPath(m, p, |m| - 1, |m| - 1)
    ensures ZeroSeen(m, z.flag, z.row, |m|, 0)
  {
    hide Factors, Best, LastStep, BestPath, ZeroSeen;
    var n := |m|;
    var mo := new nat[n, n]((i, j) => 0);
    var d := new char[n, n]((i, j) => ' ');
    GetNumberOfFactor(m, mo, p, z);
    Dp(mo, d, m, p);
    count := mo[n - 1, n - 1];
    path := OutputPath(d, m, p);
  }

  /** The row of the first zero is the one the flag remembers. */
  lemma RowSeen(m: Grid, flag: bool, row: nat)
    requires ZeroSeen(m, flag, row, |m|, 0)
    ensures ZeroRow(m, 0) == (if flag then row else |m|) && (flag ==> row < |m|)
  {
  }

  /** A run of one letter. */
  method Letters(c: char, n: nat) returns (s: string)
    ensures s == Repeat(c, n)
  {
    s := [];
    for i := 0 to n
      invariant s == Repeat(c, i)
    {
      s := s + [c];
    }
  }

  /** main: what is printed is the answer. */
  method Solve(m: Grid) returns (count: nat, path: string)
    requires Square(m)
    ensures (count, path) == Answer(m)
  {
    hide Factors, Best, LastStep, BestPath, ZeroSeen, Repeat, ZeroRow;
    var z := new ZeroCell();
    var count2, path2 := Tables(m, 2, z);
    var count5, path5 := Tables(m, 5, z);
    RowSeen(m, z.flag, z.row);
    if count2 < 1 || count5 < 1 || !z.flag {
      if count2 > count5 {
        return count5, path5;
      }
      return count2, path2;
    }
    var down := Letters('D', z.row);
    var along := Letters('R', |m| - 1);
    var rest := Letters('D', |m| - 1 - z.row);
    return 1, down + along + rest;
  }
}
