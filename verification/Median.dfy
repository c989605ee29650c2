/**
 The lower median of two sorted arrays of equal length, by halving both at once.
 */
module Median {

  predicate Sorted(s: seq<int>) {
    forall i, j :: 0 <= i <= j < |s| ==> s[i] <= s[j]
  }

  /** The sorted merge. */
  function Merge(x: seq<int>, y: seq<int>): (r: seq<int>)
    ensures |r| == |x| + |y|
    decreases |x| + |y|
  {
    if x == [] then y
    else if y == [] then x
    else if x[0] <= y[0] then [x[0]] + Merge(x[1..], y)
    else [y[0]] + Merge(x, y[1..])
  }

  lemma {:induction false} MergeIsPermutation(x: seq<int>, y: seq<int>)
    ensures multiset(Merge(x, y)) == multiset(x) + multiset(y)
    decreases |x| + |y|
  {
    if x != [] && y != [] {
      if x[0] <= y[0] {
        MergeIsPermutation(x[1..], y);
        ConsMultiset(x[0], x[1..], Merge(x[1..], y), y);
        assert x == [x[0]] + x[1..];
      } else {
        MergeIsPermutation(x, y[1..]);
        ConsMultiset(y[0], y[1..], Merge(x, y[1..]), x);
        assert y == [y[0]] + y[1..];
      }
    }
  }

  lemma ConsMultiset(a: int, s: seq<int>, m: seq<int>, other: seq<int>)
    requires multiset(m) == multiset(s) + multiset(other)
    ensures multiset([a] + m) == multiset([a] + s) + multiset(other)
  {
  }

  lemma SortedAt(s: seq<int>, i: int, j: int)
    requires Sorted(s) && 0 <= i <= j < |s|
    ensures s[i] <= s[j] && Sorted(s[1..])
  {
  }

  lemma SortedCons(a: int, s: seq<int>)
    requires Sorted(s) && forall j :: 0 <= j < |s| ==> a <= s[j]
    ensures Sorted([a] + s)
  {
  }

  /** The smaller head goes before everything that remains. */
  lemma HeadIsLeast(a: int, x: seq<int>, y: seq<int>)
    requires (forall j :: 0 <= j < |x| ==> a <= x[j]) && (forall j :: 0 <= j < |y| ==> a <= y[j])
    ensures forall j :: 0 <= j < |Merge(x, y)| ==> a <= Merge(x, y)[j]
  {
    hide Merge;
    MergeIsPermutation(x, y);
    var m := Merge(x, y);
    forall j | 0 <= j < |m|
      ensures a <= m[j]
    {
      assert m[j] in multiset(m);
      assert m[j] in x || m[j] in y;
    }
  }

  lemma {:induction false} MergeIsSorted(x: seq<int>, y: seq<int>)
    requires Sorted(x) && Sorted(y)
    ensures Sorted(Merge(x, y))
    decreases |x| + |y|
  {
    hide Sorted;
    if x != [] && y != [] {
      SortedAt(x, 0, 0);
      SortedAt(y, 0, 0);
      if x[0] <= y[0] {
        HeadIsLeastOf(x[0], x, y);
        MergeIsSorted(x[1..], y);
        HeadIsLeast(x[0], x[1..], y);
        SortedCons(x[0], Merge(x[1..], y));
      } else {
        HeadIsLeastOf(y[0], y, x);
        MergeIsSorted(x, y[1..]);
        HeadIsLeast(y[0], x, y[1..]);
        SortedCons(y[0], Merge(x, y[1..]));
      }
    }
  }

  lemma HeadIsLeastOf(a: int, x: seq<int>, y: seq<int>)
    requires Sorted(x) && Sorted(y) && x != [] && y != [] && a == x[0] <= y[0]
    ensures (forall j :: 0 <= j < |x[1..]| ==> a <= x[1..][j]) && (forall j :: 0 <= j < |y| ==> a <= y[j])
  {
  }

  /** v has i elements of x and j of y on its left, and is the next of one of them. */
  predicate Splits(x: seq<int>, y: seq<int>, i: nat, j: nat, v: int) {
    && i <= |x| && j <= |y|
    && ((i < |x| && x[i] == v) || (j < |y| && y[j] == v))
    && (i > 0 ==> x[i - 1] <= v) && (j > 0 ==> y[j - 1] <= v)
    && (i < |x| ==> v <= x[i]) && (j < |y| ==> v <= y[j])
  }

  /** The merge of two sequences without the head it starts with. */
  lemma MergeSteps(x: seq<int>, y: seq<int>, k: nat)
    requires x != [] && y != [] && k < |x| + |y|
    ensures x[0] <= y[0] ==> Merge(x, y)[k] == if k == 0 then x[0] else Merge(x[1..], y)[k - 1]
    ensures x[0] > y[0] ==> Merge(x, y)[k] == if k == 0 then y[0] else Merge(x, y[1..])[k - 1]
  {
  }

  /** When the split is all in y, everything before it equals v. */
  lemma SplitsInY(x: seq<int>, y: seq<int>, j: nat, v: int)
    requires Splits(x, y, 0, j, v) && Sorted(x) && Sorted(y) && x != [] && j > 0 && x[0] <= y[0]
    ensures Splits(x[1..], y, 0, j - 1, v)
  {
    SortedAt(y, 0, j - 1);
  }

  lemma SplitsWithoutX(x: seq<int>, y: seq<int>, i: nat, j: nat, v: int)
    requires Splits(x, y, i, j, v) && i > 0
    ensures Splits(x[1..], y, i - 1, j, v)
  {
  }

  lemma SplitsWithoutY(x: seq<int>, y: seq<int>, i: nat, j: nat, v: int)
    requires Splits(x, y, i, j, v) && j > 0
    ensures Splits(x, y[1..], i, j - 1, v)
  {
  }

  /** Where there is nothing on the left, v is the head of the merge. */
  lemma SplitsAtHead(x: seq<int>, y: seq<int>, i: nat, v: int)
    requires Splits(x, y, i, 0, v) && Sorted(x) && (x != [] && y != [] ==> i == 0 || x[0] > y[0]) && (x == [] || y == [] ==> i == 0)
    ensures i == 0 && Merge(x, y)[0] == v
  {
    if i > 0 {
      SortedAt(x, 0, i - 1);
    }
  }

  lemma MergeOne(x: seq<int>, y: seq<int>, i: nat, j: nat, v: int)
    requires Splits(x, y, i, j, v) && (x == [] || y == [])
    ensures i + j < |x| + |y| && Merge(x, y)[i + j] == v
  {
  }

  lemma SplitsInside(x: seq<int>, y: seq<int>, i: nat, j: nat, v: int)
    requires Splits(x, y, i, j, v)
    ensures i + j < |x| + |y|
  {
  }

  lemma {:induction false} MergeAt(x: seq<int>, y: seq<int>, i: nat, j: nat, v: int)
    requires Sorted(x) && Sorted(y) && Splits(x, y, i, j, v)
    ensures i + j < |x| + |y| && Merge(x, y)[i + j] == v
    decreases |x| + |y|
  {
    hide Sorted, Merge, Splits;
    if x == [] || y == [] {
      MergeOne(x, y, i, j, v);
      return;
    }
    SplitsInside(x, y, i, j, v);
    SortedAt(x, 0, 0);
    SortedAt(y, 0, 0);
    MergeSteps(x, y, i + j);
    if x[0] <= y[0] && i > 0 {
      SplitsWithoutX(x, y, i, j, v);
      MergeAt(x[1..], y, i - 1, j, v);
    } else if x[0] <= y[0] && j > 0 {
      SplitsInY(x, y, j, v);
      MergeAt(x[1..], y, 0, j - 1, v);
    } else if j > 0 {
      SplitsWithoutY(x, y, i, j, v);
      MergeAt(x, y[1..], i, j - 1, v);
    } else {
      SplitsAtHead(x, y, i, v);
    }
  }

  /**
   What every call of getMedian keeps: the windows have the same, non-zero size, they are opposite each other,
   and what has been cut off lies on the right side.
   */
  predicate Window(x: seq<int>, lx: int, hx: int, y: seq<int>, ly: int, hy: int) {
    && |x| == |y|
    && 0 <= lx <= hx < |x| && 0 <= ly <= hy < |y|
    && lx + hy == |x| - 1 && hx - lx == hy - ly
    && (ly > 0 ==> y[ly - 1] < x[hx])
    && (lx > 0 ==> x[lx - 1] < y[hy])
  }

  /** getMedian; it never calls itself on an empty window, and always on a smaller one. */
  function GetMedian(x: seq<int>, lx: int, hx: int, y: seq<int>, ly: int, hy: int): (z: int)
    requires Window(x, lx, hx, y, ly, hy)
    decreases hx - lx
  {
    var cx := (lx + hx) / 2;
    var cy := hy - (cx - lx);
    var mx, my := x[cx], y[cy];
    if mx <= my then
      if cy < 1 || mx >= y[cy - 1] then mx else GetMedian(x, cx + 1, hx, y, ly, cy - 1)
    else
      if cx < 1 || my >= x[cx - 1] then my else GetMedian(x, lx, cx - 1, y, cy + 1, hy)
  }

  /** Where the search stops, the smaller of the two opposite elements is element n - 1 of the merge. */
  lemma StopsAtMiddle(x: seq<int>, y: seq<int>, cx: nat, cy: nat)
    requires Sorted(x) && Sorted(y) && |x| == |y| && cx + cy == |x| - 1
    ensures x[cx] <= y[cy] && (cy == 0 || y[cy - 1] <= x[cx]) ==> Merge(x, y)[|x| - 1] == x[cx]
    ensures y[cy] < x[cx] && (cx == 0 || x[cx - 1] <= y[cy]) ==> Merge(x, y)[|x| - 1] == y[cy]
  {
    hide Sorted, Merge;
    if cx > 0 {
      SortedAt(x, cx - 1, cx);
    }
    if cy > 0 {
      SortedAt(y, cy - 1, cy);
    }
    if x[cx] <= y[cy] && (cy == 0 || y[cy - 1] <= x[cx]) {
      MergeAt(x, y, cx, cy, x[cx]);
    }
    if y[cy] < x[cx] && (cx == 0 || x[cx - 1] <= y[cy]) {
      MergeAt(x, y, cx, cy, y[cy]);
    }
  }

  /** From any window the recursion reaches, the result is element n - 1 of the merge. */
  lemma {:induction false} MedianIsMiddle(x: seq<int>, lx: int, hx: int, y: seq<int>, ly: int, hy: int)
    requires Window(x, lx, hx, y, ly, hy) && Sorted(x) && Sorted(y)
    ensures GetMedian(x, lx, hx, y, ly, hy) == Merge(x, y)[|x| - 1]
    decreases hx - lx
  {
    hide Sorted, Merge;
    var cx := (lx + hx) / 2;
    var cy := hy - (cx - lx);
    StopsAtMiddle(x, y, cx, cy);
    if x[cx] <= y[cy] && cy > 0 && x[cx] < y[cy - 1] {
      MedianIsMiddle(x, cx + 1, hx, y, ly, cy - 1);
    } else if y[cy] < x[cx] && cx > 0 && y[cy] < x[cx - 1] {
      MedianIsMiddle(x, lx, cx - 1, y, cy + 1, hy);
    }
  }

  /** The call of main, on any two sorted arrays of the same length: the middle of both together. */
  lemma MedianOfBoth(x: seq<int>, y: seq<int>)
    requires Sorted(x) && Sorted(y) && |x| == |y| > 0
    ensures Window(x, 0, |x| - 1, y, 0, |y| - 1)
    ensures var all, z := Merge(x, y), GetMedian(x, 0, |x| - 1, y, 0, |y| - 1);
            && Sorted(all) && multiset(all) == multiset(x) + multiset(y) && z == all[|x| - 1]
  {
    MergeIsSorted(x, y);
    MergeIsPermutation(x, y);
    MedianIsMiddle(x, 0, |x| - 1, y, 0, |y| - 1);
  }
}
