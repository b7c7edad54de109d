/**
 * Building blocks for the hand-written regular-expression matchers.
 *
 * Each pattern of the extractor is written as a function `XAt(s, i)` that tries to match
 * starting exactly at index `i`, exploring alternatives and optional parts in the order the
 * ECMAScript backtracking matcher does. A greedy run of a character class that is followed by
 * an item which cannot begin with a member of that class is taken at its maximal length:
 * giving characters back can only place a class member where that item must start, so the
 * backtracking there always fails. `FirstFrom` and `FindFrom` then play the part of
 * `String.prototype.match` without the `g` flag and of `RegExp.prototype.test`: they try the
 * start positions from left to right and stop at the first that matches.
 */
module Scan {
  import opened Optional
  import opened Chars

  /** The character classes the patterns use. */
  datatype CharClass =
    | Space          // \s
    | Digit          // \d
    | Letter         // [A-Za-z], or [A-Z] / [a-z] under the `i` flag
    | Upper          // [A-Z] without the `i` flag
    | LowerCase      // [a-z] without the `i` flag
    | LetterOrSpace  // [a-z\s] under the `i` flag
    | NotQuote       // [^"]
    | NotLineEnd     // .

  predicate InClass(c: char, k: CharClass) {
    match k
    case Space => IsSpace(c)
    case Digit => IsDigit(c)
    case Letter => IsLetter(c)
    case Upper => IsUpper(c)
    case LowerCase => IsLower(c)
    case LetterOrSpace => IsLetter(c) || IsSpace(c)
    case NotQuote => c != '"'
    case NotLineEnd => !IsLineTerminator(c)
  }

  /** End of the longest run of class `k` starting at `i` (a greedy `k*`). */
  function RunEnd(s: string, i: nat, k: CharClass): (e: nat)
    ensures i <= e
    ensures e > i ==> e <= |s|
    ensures forall j :: i <= j < e ==> InClass(s[j], k)
    ensures e < |s| ==> !InClass(s[e], k)
    decreases |s| - i
  {
    if i < |s| && InClass(s[i], k) then RunEnd(s, i + 1, k) else i
  }

  /** Whether pattern character `l` matches text character `c`; `ci` is the `i` flag. */
  predicate SameChar(c: char, l: char, ci: bool) {
    if ci then Fold(c) == Fold(l) else c == l
  }

  /** The literal `lit` occurs in `s` at index `i`. */
  predicate LitAt(s: string, i: nat, lit: string, ci: bool)
    ensures LitAt(s, i, lit, ci) <==>
      i + |lit| <= |s| && forall k :: 0 <= k < |lit| ==> SameChar(s[i + k], lit[k], ci)
    decreases |lit|
  {
    if |lit| == 0 then i <= |s|
    else
      var r := i < |s| && SameChar(s[i], lit[0], ci) && LitAt(s, i + 1, lit[1..], ci);
      assert r ==> forall k :: 0 <= k < |lit| ==> SameChar(s[i + k], lit[k], ci) by {
        if r {
          forall k | 0 <= k < |lit| ensures SameChar(s[i + k], lit[k], ci) {
            if k > 0 { assert lit[1..][k - 1] == lit[k]; }
          }
        }
      }
      assert (i + |lit| <= |s| && forall k :: 0 <= k < |lit| ==> SameChar(s[i + k], lit[k], ci)) ==> r by {
        if i + |lit| <= |s| && forall k :: 0 <= k < |lit| ==> SameChar(s[i + k], lit[k], ci) {
          assert SameChar(s[i], lit[0], ci);
          forall k | 0 <= k < |lit| - 1 ensures SameChar(s[i + 1 + k], lit[1..][k], ci) {
            assert SameChar(s[i + (k + 1)], lit[k + 1], ci);
          }
        }
      }
      r
  }

  /** `s[i]` exists and is a word character. */
  predicate WordAt(s: string, i: int) {
    0 <= i < |s| && IsWordChar(s[i])
  }

  /** The assertion `\b` at index `i`. */
  predicate BoundaryAt(s: string, i: nat) {
    WordAt(s, i - 1) != WordAt(s, i)
  }

  /**
   * The leftmost match of `at` starting at an index in `i..|s|`, with the index: the search
   * of `String.prototype.match` without the `g` flag.
   */
  function FirstFrom<T>(s: string, i: nat, at: (string, nat) -> Option<T>): (r: Option<(nat, T)>)
    ensures r.Some? ==> i <= r.value.0 <= |s| && at(s, r.value.0) == Some(r.value.1)
    ensures r.Some? ==> forall k :: i <= k < r.value.0 ==> at(s, k).None?
    ensures r.None? ==> forall k :: i <= k <= |s| ==> at(s, k).None?
    decreases |s| + 1 - i
  {
    if i > |s| then None
    else match at(s, i)
      case Some(m) => Some((i, m))
      case None => FirstFrom(s, i + 1, at)
  }

  /** A match at `i` with none before it is the one the leftmost search returns. */
  lemma FirstIsLeftmost<T>(s: string, i: nat, at: (string, nat) -> Option<T>)
    requires i <= |s| && at(s, i).Some? && forall k :: 0 <= k < i ==> at(s, k).None?
    ensures FirstFrom(s, 0, at) == Some((i, at(s, i).value))
  {
    var r := FirstFrom(s, 0, at);
    assert r.Some?;
    assert !(r.value.0 < i);
    assert !(i < r.value.0);
  }

  /** The leftmost index in `i..|s|` where the pattern `at` matches. */
  function FindFrom(s: string, i: nat, at: (string, nat) -> bool): (r: Option<nat>)
    ensures r.Some? ==> i <= r.value <= |s| && at(s, r.value)
    ensures r.Some? ==> forall k :: i <= k < r.value ==> !at(s, k)
    ensures r.None? ==> forall k :: i <= k <= |s| ==> !at(s, k)
    decreases |s| + 1 - i
  {
    if i > |s| then None
    else if at(s, i) then Some(i)
    else FindFrom(s, i + 1, at)
  }

  /** `RegExp.prototype.test`: the pattern matches somewhere in `s`. */
  predicate Occurs(s: string, at: (string, nat) -> bool) {
    FindFrom(s, 0, at).Some?
  }

  /** The pattern `at` matches at some index in `i..e`: the leftmost match is found no later. */
  predicate FoundWithin(s: string, i: nat, e: nat, at: (string, nat) -> bool) {
    match FindFrom(s, i, at)
    case None => false
    case Some(j) => j <= e
  }

  lemma {:induction false} FoundWithinMeans(s: string, i: nat, e: nat, at: (string, nat) -> bool)
    requires e <= |s|
    ensures FoundWithin(s, i, e, at) <==> exists j :: i <= j <= e && at(s, j)
  {
    match FindFrom(s, i, at)
    case None =>
    case Some(j) =>
      if j > e {
        forall j' | i <= j' <= e ensures !at(s, j') {
          assert j' < j;
        }
      }
  }

  /** A stretch lies inside the greedy run of class `k` from `i` exactly when it ends by the run's end. */
  lemma {:induction false} WithinRun(s: string, i: nat, j: nat, k: CharClass)
    requires i <= j <= |s|
    ensures (forall m :: i <= m < j ==> InClass(s[m], k)) <==> j <= RunEnd(s, i, k)
  {
    var e := RunEnd(s, i, k);
    if j > e {
      assert e < |s| && !InClass(s[e], k);
    }
  }

  /** The pattern `at` matches inside or just after the greedy run of class `k` from `i`. */
  lemma {:induction false} FoundWithinRun(s: string, i: nat, k: CharClass, at: (string, nat) -> bool)
    ensures FoundWithin(s, i, RunEnd(s, i, k), at) <==>
      exists j :: i <= j <= |s| && (forall m :: i <= m < j ==> InClass(s[m], k)) && at(s, j)
  {
    var e := RunEnd(s, i, k);
    if i > |s| {
      assert e == i;
      assert FindFrom(s, i, at).None?;
    } else {
      FoundWithinMeans(s, i, e, at);
      forall j | i <= j <= |s|
        ensures (j <= e && at(s, j)) <==> (forall m :: i <= m < j ==> InClass(s[m], k)) && at(s, j)
      {
        WithinRun(s, i, j, k);
      }
    }
  }

  /** A greedy run inside the slice `s[a..b]` is the run in `s`, cut at `b`. */
  lemma {:induction false} RunEndSlice(s: string, a: nat, b: nat, p: nat, k: CharClass)
    requires a <= p <= b <= |s|
    ensures RunEnd(s[a..b], p - a, k) == (if RunEnd(s, p, k) < b then RunEnd(s, p, k) else b) - a
    decreases b - p
  {
    var x := s[a..b];
    if p < b {
      assert x[p - a] == s[p];
      if InClass(s[p], k) {
        RunEndSlice(s, a, b, p + 1, k);
      }
    }
  }

  /** A literal occurs in the slice `s[a..b]` where it occurs in `s` and fits before `b`. */
  lemma LitAtSlice(s: string, a: nat, b: nat, p: nat, lit: string, ci: bool)
    requires a <= p <= b <= |s|
    ensures LitAt(s[a..b], p - a, lit, ci) <==> LitAt(s, p, lit, ci) && p + |lit| <= b
  {
    var x := s[a..b];
    if p + |lit| <= b {
      forall k | 0 <= k < |lit| ensures SameChar(x[p - a + k], lit[k], ci) == SameChar(s[p + k], lit[k], ci) {
        assert x[p - a + k] == s[p + k];
      }
    }
  }

  /** A literal found in a prefix of `s` is found in `s`. */
  lemma LitAtPrefix(s: string, n: nat, p: nat, lit: string, ci: bool)
    requires p <= n <= |s|
    ensures LitAt(s[..n], p, lit, ci) ==> LitAt(s, p, lit, ci)
  {
    assert s[..n] == s[0..n];
    LitAtSlice(s, 0, n, p, lit, ci);
  }

  /** The greedy run of class `k` from `p` ends at `e` when `s[p..e]` is in the class and `s[e]` is not. */
  lemma {:induction false} RunEndAt(s: string, p: nat, e: nat, k: CharClass)
    requires p <= e <= |s|
    requires forall j :: p <= j < e ==> InClass(s[j], k)
    requires e < |s| ==> !InClass(s[e], k)
    ensures RunEnd(s, p, k) == e
    decreases e - p
  {
    if p < e {
      RunEndAt(s, p + 1, e, k);
    }
  }

  /** Slicing a slice is slicing the original. */
  lemma SliceOfSlice(s: string, a: nat, b: nat, i: nat, j: nat)
    requires a <= i <= j <= b <= |s|
    ensures s[a..b][i - a..j - a] == s[i..j]
  {
    assert |s[a..b][i - a..j - a]| == |s[i..j]|;
    forall k | 0 <= k < j - i ensures s[a..b][i - a..j - a][k] == s[i..j][k] {
      assert s[a..b][i - a..j - a][k] == s[a..b][i - a + k];
    }
  }

  /** A literal occurs, in either letter-case mode, where the text holds exactly its characters. */
  lemma LitHere(s: string, i: nat, lit: string, ci: bool)
    requires i + |lit| <= |s| && s[i..i + |lit|] == lit
    ensures LitAt(s, i, lit, ci)
  {
    forall k | 0 <= k < |lit| ensures SameChar(s[i + k], lit[k], ci) {
      assert s[i + k] == s[i..i + |lit|][k];
    }
  }

  /** A single space before a letter is a whole run of white space. */
  lemma SpaceBeforeLetter(s: string, i: nat)
    requires i + 1 < |s| && s[i] == ' ' && IsLetter(s[i + 1])
    ensures RunEnd(s, i, Space) == i + 1
  {
    LetterNotSpace(s[i + 1]);
    RunEndAt(s, i, i + 1, Space);
  }

  /** One character of a literal match. */
  lemma LitAtChar(s: string, i: nat, lit: string, ci: bool, n: nat)
    requires LitAt(s, i, lit, ci) && n < |lit|
    ensures i + n < |s| && SameChar(s[i + n], lit[n], ci)
  {
  }
}
