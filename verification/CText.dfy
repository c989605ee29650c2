/**
 C strings.  A byte is a `char` with code below 256 and a NUL-terminated buffer is
 the `string` of its bytes up to the terminator, so reading at or past the end yields NUL.
 */
module CText {

  const NUL: char := 0 as char

  datatype Option<+T> = None | Some(value: T)

  function At(s: string, i: nat): char {
    if i < |s| then s[i] else NUL
  }

  /** `w` occurs in `s` at offset `i` (strncmp of its length gives 0). */
  predicate StartsWith(s: string, i: nat, w: string) {
    i + |w| <= |s| && s[i..i + |w|] == w
  }

  function Lower(c: char): char {
    if 'A' <= c <= 'Z' then (c as int + 32) as char else c
  }

  /** strncasecmp of the length of `w` gives 0. */
  predicate StartsWithNoCase(s: string, i: nat, w: string) {
    i + |w| <= |s| && forall k :: 0 <= k < |w| ==> Lower(s[i + k]) == Lower(w[k])
  }

  /** strstr: the first occurrence of `w` at or after `i`. */
  function Find(s: string, i: nat, w: string): (r: Option<nat>)
    ensures r.Some? ==> i <= r.value && StartsWith(s, r.value, w)
    ensures forall k: nat :: i <= k && (r.Some? ==> k < r.value) ==> !StartsWith(s, k, w)
    decreases |s| - i
  {
    if StartsWith(s, i, w) then Some(i)
    else if i >= |s| then None
    else Find(s, i + 1, w)
  }

  predicate IsSpace(c: char) {
    c == '\n' || c == '\t' || c == '\r' || c == ' '
  }

  predicate AllSpace(s: string) {
    forall k :: 0 <= k < |s| ==> IsSpace(s[k])
  }

  /** Parser_skipWhiteSpaces: the first offset at or after `i` that holds no white space. */
  function SkipSpaces(s: string, i: nat): (r: nat)
    ensures i <= r && (i <= |s| ==> r <= |s|)
    ensures !IsSpace(At(s, r))
    ensures forall k :: i <= k < r ==> IsSpace(At(s, k))
    decreases |s| - i
  {
    if IsSpace(At(s, i)) then SkipSpaces(s, i + 1) else i
  }

  /** The skipped stretch is determined: white space up to `j`, none at `j`. */
  lemma {:induction false} SkipSpacesTo(s: string, i: nat, j: nat)
    requires i <= j && !IsSpace(At(s, j))
    requires forall k :: i <= k < j ==> IsSpace(At(s, k))
    ensures SkipSpaces(s, i) == j
    decreases j - i
  {
    if i < j {
      assert IsSpace(At(s, i));
      SkipSpacesTo(s, i + 1, j);
    }
  }

  /** An occurrence splits with the text that occurs. */
  lemma StartsWithSplit(s: string, i: nat, a: string, b: string)
    ensures StartsWith(s, i, a + b) <==> StartsWith(s, i, a) && StartsWith(s, i + |a|, b)
  {
    if StartsWith(s, i, a + b) {
      assert s[i..i + |a|] == s[i..i + |a + b|][..|a|] == (a + b)[..|a|] == a;
      assert s[i + |a|..i + |a| + |b|] == s[i..i + |a + b|][|a|..] == (a + b)[|a|..] == b;
    }
    if StartsWith(s, i, a) && StartsWith(s, i + |a|, b) {
      assert s[i..i + |a + b|] == s[i..i + |a|] + s[i + |a|..i + |a| + |b|];
    }
  }

  lemma StartsWithAt(s: string, i: nat, w: string, k: nat)
    requires StartsWith(s, i, w) && k < |w|
    ensures At(s, i + k) == w[k]
  {
    assert s[i..i + |w|][k] == w[k];
  }

  /** Texts that differ in a byte are told apart. */
  lemma NotStarting(s: string, i: nat, w: string, k: nat)
    requires k < |w|
    ensures At(s, i + k) != w[k] ==> !StartsWith(s, i, w)
    ensures Lower(At(s, i + k)) != Lower(w[k]) ==> !StartsWithNoCase(s, i, w)
  {
    if StartsWith(s, i, w) {
      StartsWithAt(s, i, w, k);
    }
    if StartsWithNoCase(s, i, w) {
      NoCaseAt(s, i, w, k);
    }
  }

  lemma NoCaseAt(s: string, i: nat, w: string, k: nat)
    requires StartsWithNoCase(s, i, w) && k < |w|
    ensures Lower(At(s, i + k)) == Lower(w[k])
  {
    assert Lower(s[i + k]) == Lower(w[k]);
  }

  lemma NoCaseOf(s: string, i: nat, w: string)
    requires StartsWith(s, i, w)
    ensures StartsWithNoCase(s, i, w)
  {
    forall k | 0 <= k < |w| ensures Lower(s[i + k]) == Lower(w[k]) {
      StartsWithAt(s, i, w, k);
    }
  }

  /** The first occurrence is the one no earlier offset can start. */
  lemma FindAt(s: string, i: nat, j: nat, w: string)
    requires i <= j && |w| > 1 && StartsWith(s, j, w)
    requires forall k :: i <= k < j ==> At(s, k) != w[0] || At(s, k + 1) != w[1]
    ensures Find(s, i, w) == Some(j)
  {
    var r := Find(s, i, w).value;
    assert r <= j;
    if r < j {
      StartsWithAt(s, r, w, 0);
      StartsWithAt(s, r, w, 1);
    }
  }
}
