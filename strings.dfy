/** The Python `str` operations the scraper relies on: `isspace`, `lower`,
    `strip`, `find`/`in`, `split` on a separator, `join` and single-character
    `replace`. Strings are sequences of Unicode scalar values. */
module Strings {
  import opened Wrappers

  /** Python's `str.isspace` for one character: the ASCII controls TAB..CR and
      FS..US, the space, NEL, NO-BREAK SPACE and the Unicode space separators. */
  predicate IsSpace(c: char) {
    || ('\t' <= c <= '\r')
    || ('\U{1C}' <= c <= ' ')
    || c == '\U{85}' || c == '\U{A0}' || c == '\U{1680}'
    || ('\U{2000}' <= c <= '\U{200A}')
    || c == '\U{2028}' || c == '\U{2029}' || c == '\U{202F}' || c == '\U{205F}' || c == '\U{3000}'
  }

  predicate AllSpace(s: string) {
    forall i :: 0 <= i < |s| ==> IsSpace(s[i])
  }

  /** Lower-casing of one character: ASCII and Latin-1 capitals map to their
      small letters, every other character is left alone. */
  function LowerChar(c: char): char {
    if 'A' <= c <= 'Z' || ('\U{C0}' <= c <= '\U{DE}' && c != '\U{D7}') then (c as int + 32) as char else c
  }

  /** Python's `str.lower`, character by character. */
  function Lower(s: string): string {
    seq(|s|, i requires 0 <= i < |s| => LowerChar(s[i]))
  }

  /** The index of the first non-whitespace character at or after `i`, or
      `|s|` when there is none. */
  function SkipSpaces(s: string, i: nat): (n: nat)
    requires i <= |s|
    ensures i <= n <= |s|
    ensures forall k :: i <= k < n ==> IsSpace(s[k])
    ensures n == |s| || !IsSpace(s[n])
    decreases |s| - i
  {
    if i < |s| && IsSpace(s[i]) then SkipSpaces(s, i + 1) else i
  }

  /** The index just after the last non-whitespace character before `j`, or
      0 when there is none. */
  function BackSpaces(s: string, j: nat): (n: nat)
    requires j <= |s|
    ensures n <= j
    ensures forall k :: n <= k < j ==> IsSpace(s[k])
    ensures n == 0 || !IsSpace(s[n - 1])
    decreases j
  {
    if j > 0 && IsSpace(s[j - 1]) then BackSpaces(s, j - 1) else j
  }

  /** The scan stops at the first non-whitespace character, whatever way
      that character is found. */
  lemma {:induction false} SkipSpacesAt(s: string, i: nat, n: nat)
    requires i <= n <= |s|
    requires forall k :: i <= k < n ==> IsSpace(s[k])
    requires n == |s| || !IsSpace(s[n])
    ensures SkipSpaces(s, i) == n
  {
  }

  lemma {:induction false} BackSpacesAt(s: string, j: nat, n: nat)
    requires n <= j <= |s|
    requires forall k :: n <= k < j ==> IsSpace(s[k])
    requires n == 0 || !IsSpace(s[n - 1])
    ensures BackSpaces(s, j) == n
  {
  }

  /** Python's `str.lstrip()`: drops the leading whitespace. */
  function StripLeft(s: string): string {
    s[SkipSpaces(s, 0)..]
  }

  /** Python's `str.rstrip()`: drops the trailing whitespace. */
  function StripRight(s: string): string {
    s[..BackSpaces(s, |s|)]
  }

  /** Python's `str.strip()`: drops the whitespace at both ends. */
  function Strip(s: string): string {
    StripRight(StripLeft(s))
  }

  /** A string with no whitespace at either end, the form `strip` produces. */
  predicate Trimmed(t: string) {
    t == [] || (!IsSpace(t[0]) && !IsSpace(t[|t| - 1]))
  }

  lemma {:induction false} StripLeftPadded(w: string, t: string)
    requires AllSpace(w)
    requires t == [] || !IsSpace(t[0])
    ensures StripLeft(w + t) == t
  {
    var s := w + t;
    forall k | 0 <= k < |w| ensures IsSpace(s[k]) {
      assert s[k] == w[k];
    }
    if t != [] {
      assert s[|w|] == t[0];
    }
    SkipSpacesAt(s, 0, |w|);
    assert s[|w|..] == t;
  }

  lemma {:induction false} StripRightPadded(t: string, w: string)
    requires AllSpace(w)
    requires t == [] || !IsSpace(t[|t| - 1])
    ensures StripRight(t + w) == t
  {
    var s := t + w;
    forall k | |t| <= k < |s| ensures IsSpace(s[k]) {
      assert s[k] == w[k - |t|];
    }
    if t != [] {
      assert s[|t| - 1] == t[|t| - 1];
    }
    BackSpacesAt(s, |s|, |t|);
    assert s[..|t|] == t;
  }

  /** `strip` undoes any whitespace padding of a trimmed string. */
  lemma {:induction false} StripPadded(w1: string, t: string, w2: string)
    requires AllSpace(w1) && AllSpace(w2) && Trimmed(t)
    ensures Strip(w1 + t + w2) == t
  {
    if t == [] {
      assert w1 + t + w2 == w1 + w2 + [];
      StripLeftPadded(w1 + w2, []);
    } else {
      assert w1 + t + w2 == w1 + (t + w2);
      StripLeftPadded(w1, t + w2);
      StripRightPadded(t, w2);
    }
  }

  lemma {:induction false} AllSpaceConcat(a: string, b: string)
    requires AllSpace(a) && AllSpace(b)
    ensures AllSpace(a + b)
  {
    forall k | 0 <= k < |a + b| ensures IsSpace((a + b)[k]) {
      if k < |a| { assert (a + b)[k] == a[k]; } else { assert (a + b)[k] == b[k - |a|]; }
    }
  }

  /** Every string is its stripped form between two runs of whitespace. */
  lemma {:induction false} StripSplits(s: string)
    ensures var i := SkipSpaces(s, 0);
            i + |Strip(s)| <= |s| && Strip(s) == s[i..i + |Strip(s)|]
            && AllSpace(s[..i]) && AllSpace(s[i + |Strip(s)|..]) && Trimmed(Strip(s))
  {
    var i := SkipSpaces(s, 0);
    var l := s[i..];
    var b := BackSpaces(l, |l|);
    assert Strip(s) == l[..b];
    assert l[..b] == s[i..i + b];
    var front, back := s[..i], s[i + b..];
    forall k | 0 <= k < |front| ensures IsSpace(front[k]) {
      assert front[k] == s[k];
    }
    forall k | 0 <= k < |back| ensures IsSpace(back[k]) {
      assert back[k] == l[b + k];
    }
    if b > 0 {
      assert l[0] == s[i];
      assert l[..b][b - 1] == l[b - 1];
    }
  }

  /** Surrounding whitespace never changes the stripped string. */
  lemma {:induction false} StripIgnoresPadding(w1: string, s: string, w2: string)
    requires AllSpace(w1) && AllSpace(w2)
    ensures Strip(w1 + s + w2) == Strip(s)
  {
    StripSplits(s);
    var i := SkipSpaces(s, 0);
    var j := i + |Strip(s)|;
    var a, t, b := s[..i], s[i..j], s[j..];
    SliceThree(s, i, j);
    AllSpaceConcat(w1, a);
    AllSpaceConcat(b, w2);
    Regroup(w1, a, t, b, w2);
    StripPadded(w1 + a, t, b + w2);
  }

  lemma {:induction false} SliceThree(s: string, i: nat, j: nat)
    requires i <= j <= |s|
    ensures s == s[..i] + s[i..j] + s[j..]
  {
    assert s == s[..j] + s[j..];
    assert s[..j] == s[..i] + s[i..j];
  }

  lemma {:induction false} Regroup(w1: string, a: string, t: string, b: string, w2: string)
    ensures w1 + (a + t + b) + w2 == (w1 + a) + t + (b + w2)
  {
  }

  lemma {:induction false} StripTrimmed(t: string)
    requires Trimmed(t)
    ensures Strip(t) == t
  {
    assert [] + t + [] == t;
    StripPadded([], t, []);
  }

  lemma {:induction false} StripIdempotent(s: string)
    ensures Strip(Strip(s)) == Strip(s)
  {
    StripSplits(s);
    assert Strip(s) == [] + Strip(s) + [];
    StripPadded([], Strip(s), []);
  }

  lemma {:induction false} LowerIdempotent(s: string)
    ensures Lower(Lower(s)) == Lower(s)
  {
  }

  lemma {:induction false} LowerConcat(a: string, b: string)
    ensures Lower(a + b) == Lower(a) + Lower(b)
  {
  }

  lemma {:induction false} LowerKeepsSpace(c: char)
    ensures IsSpace(LowerChar(c)) == IsSpace(c)
  {
  }

  lemma {:induction false} LowerAllSpace(w: string)
    requires AllSpace(w)
    ensures Lower(w) == w
  {
  }

  lemma {:induction false} LowerTrimmed(t: string)
    requires Trimmed(t)
    ensures Trimmed(Lower(t))
  {
    if t != [] {
      LowerKeepsSpace(t[0]);
      LowerKeepsSpace(t[|t| - 1]);
    }
  }

  lemma {:induction false} LowerThree(a: string, t: string, b: string)
    ensures Lower(a + t + b) == Lower(a) + Lower(t) + Lower(b)
  {
    LowerConcat(a + t, b);
    LowerConcat(a, t);
  }

  /** Lowering and stripping commute, so the order `lower().strip()` in the
      identity key is immaterial. */
  lemma {:induction false} LowerStripCommute(s: string)
    ensures Strip(Lower(s)) == Lower(Strip(s))
  {
    StripSplits(s);
    var i := SkipSpaces(s, 0);
    var j := i + |Strip(s)|;
    var a, t, b := s[..i], s[i..j], s[j..];
    SliceThree(s, i, j);
    LowerThree(a, t, b);
    LowerAllSpace(a);
    LowerAllSpace(b);
    LowerTrimmed(t);
    StripPadded(a, Lower(t), b);
  }

  // ---------------------------------------------------------------------
  // Searching and splitting
  // ---------------------------------------------------------------------

  /** The characters of `sep` from index `m` on match those of `s` from
      `i + m` on. */
  predicate MatchesFrom(s: string, sep: string, i: nat, m: nat)
    requires i + |sep| <= |s| && m <= |sep|
    decreases |sep| - m
  {
    m == |sep| || (s[i + m] == sep[m] && MatchesFrom(s, sep, i, m + 1))
  }

  /** `sep` occurs in `s` starting at index `i`. */
  predicate OccursAt(s: string, sep: string, i: int) {
    0 <= i && i + |sep| <= |s| && MatchesFrom(s, sep, i, 0)
  }

  lemma {:induction false} MatchesFromChars(s: string, sep: string, i: nat, m: nat)
    requires i + |sep| <= |s| && m <= |sep|
    ensures MatchesFrom(s, sep, i, m) <==> forall t :: m <= t < |sep| ==> s[i + t] == sep[t]
    decreases |sep| - m
  {
    if m < |sep| {
      MatchesFromChars(s, sep, i, m + 1);
    }
  }

  /** An occurrence is a run of matching characters. */
  lemma {:induction false} OccursAtChars(s: string, sep: string, i: int)
    ensures OccursAt(s, sep, i) <==> 0 <= i && i + |sep| <= |s| && forall t :: 0 <= t < |sep| ==> s[i + t] == sep[t]
  {
    if 0 <= i && i + |sep| <= |s| {
      MatchesFromChars(s, sep, i, 0);
    }
  }

  /** An occurrence is the slice of `s` at `i` equalling `sep`. */
  lemma {:induction false} OccursAtSlice(s: string, sep: string, i: int)
    requires 0 <= i && i + |sep| <= |s|
    ensures OccursAt(s, sep, i) <==> s[i..i + |sep|] == sep
  {
    OccursAtChars(s, sep, i);
    if s[i..i + |sep|] == sep {
      forall t | 0 <= t < |sep| ensures s[i + t] == sep[t] {
        assert s[i..i + |sep|][t] == s[i + t];
      }
    }
  }

  /** Python's `str.find(sep, i)`: the first occurrence at or after `i`. */
  function FindFrom(s: string, sep: string, i: nat): (r: Option<nat>)
    requires i <= |s|
    ensures r.Some? ==> i <= r.value && OccursAt(s, sep, r.value)
    ensures forall j :: i <= j && (r.None? || j < r.value) ==> !OccursAt(s, sep, j)
    decreases |s| - i
  {
    if OccursAt(s, sep, i) then Some(i)
    else if i == |s| then None
    else FindFrom(s, sep, i + 1)
  }

  /** `find` is determined by where the occurrences are. */
  lemma {:induction false} FindFromFirst(s: string, sep: string, i: nat, k: nat)
    requires i <= k && OccursAt(s, sep, k)
    requires forall j :: i <= j < k ==> !OccursAt(s, sep, j)
    ensures FindFrom(s, sep, i) == Some(k)
  {
  }

  lemma {:induction false} FindFromNone(s: string, sep: string, i: nat)
    requires i <= |s| && forall j :: i <= j ==> !OccursAt(s, sep, j)
    ensures FindFrom(s, sep, i) == None
  {
  }

  /** Python's `sep in s`. */
  predicate Contains(s: string, sep: string) {
    FindFrom(s, sep, 0).Some?
  }

  lemma {:induction false} ContainsIff(s: string, sep: string)
    ensures Contains(s, sep) <==> exists j :: OccursAt(s, sep, j)
  {
  }

  /** The pieces of `s[i..]` that Python's `s.split(sep)` yields: the scan
      finds the leftmost occurrence, cuts, and resumes after it. */
  function SplitFrom(s: string, sep: string, i: nat): (r: seq<string>)
    requires 0 < |sep| && i <= |s|
    ensures |r| >= 1
    decreases |s| - i
  {
    match FindFrom(s, sep, i)
    case None => [s[i..]]
    case Some(k) => [s[i..k]] + SplitFrom(s, sep, k + |sep|)
  }

  /** Python's `s.split(sep)` for a non-empty separator. */
  function Split(s: string, sep: string): (r: seq<string>)
    requires 0 < |sep|
    ensures |r| >= 1
  {
    SplitFrom(s, sep, 0)
  }

  function Last<T>(xs: seq<T>): T
    requires |xs| > 0
  {
    xs[|xs| - 1]
  }

  /** Python's `sep.join(pieces)`. */
  function Join(pieces: seq<string>, sep: string): string
    decreases |pieces|
  {
    if |pieces| == 0 then ""
    else if |pieces| == 1 then pieces[0]
    else pieces[0] + sep + Join(pieces[1..], sep)
  }

  /** One cut of the scan: the piece before the occurrence at `k`, then the
      pieces after it. */
  lemma {:induction false} SplitFromStep(s: string, sep: string, i: nat, k: nat)
    requires 0 < |sep| && i <= |s| && FindFrom(s, sep, i) == Some(k)
    ensures k + |sep| <= |s|
    ensures SplitFrom(s, sep, i) == [s[i..k]] + SplitFrom(s, sep, k + |sep|)
  {
  }

  lemma {:induction false} SplitFromEnd(s: string, sep: string, i: nat)
    requires 0 < |sep| && i <= |s| && FindFrom(s, sep, i) == None
    ensures SplitFrom(s, sep, i) == [s[i..]]
  {
  }

  lemma {:induction false} JoinCons(a: string, rest: seq<string>, sep: string)
    requires |rest| >= 1
    ensures Join([a] + rest, sep) == a + sep + Join(rest, sep)
  {
    assert ([a] + rest)[1..] == rest;
  }

  /** The text from `i` on is the text up to an occurrence, the separator,
      and the text after it. */
  lemma {:induction false} SliceAround(s: string, sep: string, i: nat, k: nat)
    requires i <= k && OccursAt(s, sep, k)
    ensures s[i..] == s[i..k] + sep + s[k + |sep|..]
  {
    OccursAtSlice(s, sep, k);
    assert s[i..] == s[i..k] + s[k..k + |sep|] + s[k + |sep|..];
  }

  lemma {:induction false} SplitFromJoinStep(s: string, sep: string, i: nat, k: nat)
    requires 0 < |sep| && i <= |s| && FindFrom(s, sep, i) == Some(k)
    requires k + |sep| <= |s| && Join(SplitFrom(s, sep, k + |sep|), sep) == s[k + |sep|..]
    ensures Join(SplitFrom(s, sep, i), sep) == s[i..]
  {
    SplitFromStep(s, sep, i, k);
    JoinCons(s[i..k], SplitFrom(s, sep, k + |sep|), sep);
    SliceAround(s, sep, i, k);
  }

  lemma {:induction false} SplitFromJoinEnd(s: string, sep: string, i: nat)
    requires 0 < |sep| && i <= |s| && FindFrom(s, sep, i) == None
    ensures Join(SplitFrom(s, sep, i), sep) == s[i..]
  {
    SplitFromEnd(s, sep, i);
  }

  lemma {:induction false} SplitFromJoin(s: string, sep: string, i: nat)
    requires 0 < |sep| && i <= |s|
    ensures Join(SplitFrom(s, sep, i), sep) == s[i..]
    decreases |s| - i
  {
    var f := FindFrom(s, sep, i);
    if f.None? {
      SplitFromJoinEnd(s, sep, i);
    } else {
      SplitFromJoin(s, sep, f.value + |sep|);
      SplitFromJoinStep(s, sep, i, f.value);
    }
  }

  /** Joining the pieces back with the separator gives the original string. */
  lemma {:induction false} SplitJoin(s: string, sep: string)
    requires 0 < |sep|
    ensures Join(Split(s, sep), sep) == s
  {
    SplitFromJoin(s, sep, 0);
  }

  /** An occurrence inside a slice is an occurrence in the whole string. */
  lemma {:induction false} OccursInSlice(s: string, sep: string, lo: nat, hi: nat, j: int)
    requires lo <= hi <= |s| && OccursAt(s[lo..hi], sep, j)
    ensures OccursAt(s, sep, lo + j)
  {
    OccursAtChars(s[lo..hi], sep, j);
    OccursAtChars(s, sep, lo + j);
    forall t | 0 <= t < |sep| ensures s[lo + j + t] == sep[t] {
      assert s[lo..hi][j + t] == sep[t];
    }
  }

  lemma {:induction false} SplitFromPiecesFree(s: string, sep: string, i: nat)
    requires 0 < |sep| && i <= |s|
    ensures forall n, j :: 0 <= n < |SplitFrom(s, sep, i)| ==> !OccursAt(SplitFrom(s, sep, i)[n], sep, j)
    decreases |s| - i
  {
    var r := SplitFrom(s, sep, i);
    match FindFrom(s, sep, i)
    case None =>
      forall j | OccursAt(s[i..], sep, j) ensures false {
        assert s[i..] == s[i..|s|];
        OccursInSlice(s, sep, i, |s|, j);
      }
    case Some(k) =>
      SplitFromPiecesFree(s, sep, k + |sep|);
      forall j | OccursAt(s[i..k], sep, j) ensures false {
        OccursInSlice(s, sep, i, k, j);
      }
      forall n, j | 0 <= n < |r| ensures !OccursAt(r[n], sep, j) {
        if n > 0 {
          assert r[n] == SplitFrom(s, sep, k + |sep|)[n - 1];
        }
      }
  }

  /** No piece of a split contains the separator. */
  lemma {:induction false} SplitPiecesFree(s: string, sep: string)
    requires 0 < |sep|
    ensures forall n, j :: 0 <= n < |Split(s, sep)| ==> !OccursAt(Split(s, sep)[n], sep, j)
  {
    SplitFromPiecesFree(s, sep, 0);
  }

  /** The first piece is the text before the first occurrence; without an
      occurrence the split is the whole string alone. */
  lemma {:induction false} SplitFirst(s: string, sep: string)
    requires 0 < |sep|
    ensures FindFrom(s, sep, 0).None? ==> Split(s, sep) == [s]
    ensures FindFrom(s, sep, 0).Some? ==>
              |Split(s, sep)| >= 2 && Split(s, sep)[0] == s[..FindFrom(s, sep, 0).value]
              && Split(s, sep)[1..] == SplitFrom(s, sep, FindFrom(s, sep, 0).value + |sep|)
  {
  }

  /** Where the last piece of the scan from `i` starts. */
  function LastCut(s: string, sep: string, i: nat): (m: nat)
    requires 0 < |sep| && i <= |s|
    ensures i <= m <= |s|
    decreases |s| - i
  {
    match FindFrom(s, sep, i)
    case None => i
    case Some(k) => LastCut(s, sep, k + |sep|)
  }

  lemma {:induction false} LastCutStep(s: string, sep: string, i: nat, k: nat)
    requires 0 < |sep| && i <= |s| && FindFrom(s, sep, i) == Some(k)
    ensures k + |sep| <= |s| && LastCut(s, sep, i) == LastCut(s, sep, k + |sep|)
  {
  }

  lemma {:induction false} LastCutEnd(s: string, sep: string, i: nat)
    requires 0 < |sep| && i <= |s| && FindFrom(s, sep, i) == None
    ensures LastCut(s, sep, i) == i
  {
  }

  lemma {:induction false} LastCutSpecStep(s: string, sep: string, i: nat, k: nat, m: nat)
    requires 0 < |sep| && i <= |s| && FindFrom(s, sep, i) == Some(k) && k + |sep| <= |s|
    requires m == LastCut(s, sep, k + |sep|) && k + |sep| <= m
    requires m != k + |sep| ==> OccursAt(s, sep, m - |sep|)
    requires m == k + |sep| ==> FindFrom(s, sep, k + |sep|).None?
    requires forall j :: m <= j ==> !OccursAt(s, sep, j)
    ensures i + |sep| <= m && OccursAt(s, sep, m - |sep|)
  {
  }

  /** The last piece starts at `i` itself exactly when there is no
      occurrence; otherwise just after an occurrence, with none from there on. */
  lemma {:induction false} LastCutSpec(s: string, sep: string, i: nat)
    requires 0 < |sep| && i <= |s|
    ensures var m := LastCut(s, sep, i);
            && (m == i <==> FindFrom(s, sep, i).None?)
            && (m != i ==> i + |sep| <= m && OccursAt(s, sep, m - |sep|))
            && forall j :: m <= j ==> !OccursAt(s, sep, j)
    decreases |s| - i
  {
    var f := FindFrom(s, sep, i);
    if f.None? {
      LastCutEnd(s, sep, i);
    } else {
      var k := f.value;
      LastCutStep(s, sep, i, k);
      LastCutSpec(s, sep, k + |sep|);
      LastCutSpecStep(s, sep, i, k, LastCut(s, sep, k + |sep|));
    }
  }

  lemma {:induction false} SplitFromLastStep(s: string, sep: string, i: nat, k: nat)
    requires 0 < |sep| && i <= |s| && FindFrom(s, sep, i) == Some(k) && k + |sep| <= |s|
    requires Last(SplitFrom(s, sep, k + |sep|)) == s[LastCut(s, sep, k + |sep|)..]
    ensures Last(SplitFrom(s, sep, i)) == s[LastCut(s, sep, i)..]
    ensures |SplitFrom(s, sep, i)| > 1
  {
    SplitFromStep(s, sep, i, k);
    LastCutStep(s, sep, i, k);
  }

  /** The last piece of a split is the text from its last cut on. */
  lemma {:induction false} SplitFromLast(s: string, sep: string, i: nat)
    requires 0 < |sep| && i <= |s|
    ensures Last(SplitFrom(s, sep, i)) == s[LastCut(s, sep, i)..]
    ensures |SplitFrom(s, sep, i)| > 1 <==> FindFrom(s, sep, i).Some?
    decreases |s| - i
  {
    var f := FindFrom(s, sep, i);
    if f.None? {
      SplitFromEnd(s, sep, i);
      LastCutEnd(s, sep, i);
    } else {
      LastCutStep(s, sep, i, f.value);
      SplitFromLast(s, sep, f.value + |sep|);
      SplitFromLastStep(s, sep, i, f.value);
    }
  }

  /** With an occurrence, the last piece of the split is the text after an
      occurrence from which on there is none. */
  lemma {:induction false} LastPieceAfterCut(s: string, sep: string)
    requires 0 < |sep| && Contains(s, sep)
    ensures var m := LastCut(s, sep, 0);
            && |sep| <= m <= |s| && OccursAt(s, sep, m - |sep|)
            && (forall j :: m <= j ==> !OccursAt(s, sep, j))
            && Last(Split(s, sep)) == s[m..]
  {
    LastCutSpec(s, sep, 0);
    SplitFromLast(s, sep, 0);
  }

  lemma {:induction false} LastCutReachesStep(s: string, sep: string, i: nat, k: nat)
    requires 0 < |sep| && i <= k && OccursAt(s, sep, k)
    requires FindFrom(s, sep, i).Some? && FindFrom(s, sep, i).value + |sep| <= k
    requires LastCut(s, sep, FindFrom(s, sep, i).value + |sep|) == LastCut(s, sep, k)
    ensures LastCut(s, sep, i) == LastCut(s, sep, k)
  {
    LastCutStep(s, sep, i, FindFrom(s, sep, i).value);
  }

  lemma {:induction false} LastCutReachesEnd(s: string, sep: string, i: nat, k: nat)
    requires 0 < |sep| && i <= k && OccursAt(s, sep, k)
    requires FindFrom(s, sep, i) == Some(k)
    ensures LastCut(s, sep, i) == LastCut(s, sep, k)
  {
    FindFromFirst(s, sep, k, k);
    LastCutStep(s, sep, i, k);
    LastCutStep(s, sep, k, k);
  }

  /** When the scan from `i` cannot jump over the occurrence at `k` (nothing
      overlaps it from the left), the scan goes through `k` and ends where
      the scan from `k` ends. */
  lemma {:induction false} LastCutReaches(s: string, sep: string, i: nat, k: nat)
    requires 0 < |sep| && i <= k && OccursAt(s, sep, k)
    requires forall j :: k - |sep| < j < k ==> !OccursAt(s, sep, j)
    ensures LastCut(s, sep, i) == LastCut(s, sep, k)
    decreases k - i
  {
    var f := FindFrom(s, sep, i);
    if f.value < k {
      assert f.value + |sep| <= k;
      LastCutReaches(s, sep, f.value + |sep|, k);
      LastCutReachesStep(s, sep, i, k);
    } else {
      LastCutReachesEnd(s, sep, i, k);
    }
  }

  /** An occurrence in the second part of a concatenation, seen from the whole. */
  lemma {:induction false} OccursShift(x: string, y: string, sep: string, j: int)
    requires 0 <= j
    ensures OccursAt(x + y, sep, |x| + j) <==> OccursAt(y, sep, j)
  {
    OccursAtChars(x + y, sep, |x| + j);
    OccursAtChars(y, sep, j);
  }

  lemma {:induction false} FindFromShiftSome(x: string, y: string, sep: string, i: nat, k: nat)
    requires i <= |y| && FindFrom(y, sep, i) == Some(k)
    ensures FindFrom(x + y, sep, |x| + i) == Some(|x| + k)
  {
    forall j | |x| + i <= j < |x| + k ensures !OccursAt(x + y, sep, j) {
      OccursShift(x, y, sep, j - |x|);
    }
    OccursShift(x, y, sep, k);
    FindFromFirst(x + y, sep, |x| + i, |x| + k);
  }

  lemma {:induction false} FindFromShiftNone(x: string, y: string, sep: string, i: nat)
    requires i <= |y| && FindFrom(y, sep, i) == None
    ensures FindFrom(x + y, sep, |x| + i) == None
  {
    forall j | |x| + i <= j ensures !OccursAt(x + y, sep, j) {
      OccursShift(x, y, sep, j - |x|);
    }
    FindFromNone(x + y, sep, |x| + i);
  }

  lemma {:induction false} SplitFromShiftEnd(x: string, y: string, sep: string, i: nat)
    requires 0 < |sep| && i <= |y| && FindFrom(y, sep, i) == None
    ensures SplitFrom(x + y, sep, |x| + i) == SplitFrom(y, sep, i)
  {
    FindFromShiftNone(x, y, sep, i);
    SplitFromEnd(y, sep, i);
    SplitFromEnd(x + y, sep, |x| + i);
    assert (x + y)[|x| + i..] == y[i..];
  }

  lemma {:induction false} SplitFromShiftStep(x: string, y: string, sep: string, i: nat, k: nat)
    requires 0 < |sep| && i <= |y| && FindFrom(y, sep, i) == Some(k) && k + |sep| <= |y|
    requires SplitFrom(x + y, sep, |x| + (k + |sep|)) == SplitFrom(y, sep, k + |sep|)
    ensures SplitFrom(x + y, sep, |x| + i) == SplitFrom(y, sep, i)
  {
    FindFromShiftSome(x, y, sep, i, k);
    SplitFromStep(y, sep, i, k);
    SplitFromStep(x + y, sep, |x| + i, |x| + k);
    assert (x + y)[|x| + i..|x| + k] == y[i..k];
  }

  /** Splitting resumes identically inside the second part of a concatenation. */
  lemma {:induction false} SplitFromShift(x: string, y: string, sep: string, i: nat)
    requires 0 < |sep| && i <= |y|
    ensures SplitFrom(x + y, sep, |x| + i) == SplitFrom(y, sep, i)
    decreases |y| - i
  {
    match FindFrom(y, sep, i)
    case None =>
      SplitFromShiftEnd(x, y, sep, i);
    case Some(k) =>
      SplitFromStep(y, sep, i, k);
      SplitFromShift(x, y, sep, k + |sep|);
      SplitFromShiftStep(x, y, sep, i, k);
  }

  predicate NoChar(s: string, c: char) {
    forall i :: 0 <= i < |s| ==> s[i] != c
  }

  lemma {:induction false} OccursChar(s: string, c: char, j: int)
    ensures OccursAt(s, [c], j) <==> 0 <= j < |s| && s[j] == c
  {
    OccursAtChars(s, [c], j);
    assert [c][0] == c;
  }

  /** Splitting on a character that `x` lacks: the first piece starts with `x`. */
  lemma {:induction false} SplitHeadPrefix(x: string, y: string, c: char)
    requires NoChar(x, c)
    ensures Split(x + y, [c])[0] == x + Split(y, [c])[0]
  {
    var f := FindFrom(y, [c], 0);
    forall j | 0 <= j < |x| ensures !OccursAt(x + y, [c], j) {
      OccursChar(x + y, c, j);
    }
    if f.Some? {
      forall j | |x| <= j < |x| + f.value ensures !OccursAt(x + y, [c], j) {
        OccursShift(x, y, [c], j - |x|);
      }
      FindFromFirst(x + y, [c], 0, |x| + f.value);
      SplitFirst(y, [c]);
      SplitFirst(x + y, [c]);
      assert (x + y)[..|x| + f.value] == x + y[..f.value];
    } else {
      forall j | |x| <= j ensures !OccursAt(x + y, [c], j) {
        OccursShift(x, y, [c], j - |x|);
      }
      FindFromNone(x + y, [c], 0);
      assert x + y == (x + y)[0..];
    }
  }

  /** Splitting on a character at its first occurrence right after `a`. */
  lemma {:induction false} SplitCharHead(a: string, c: char, rest: string)
    requires NoChar(a, c)
    ensures Split(a + [c] + rest, [c])[0] == a
    ensures Split(a + [c] + rest, [c])[1..] == Split(rest, [c])
  {
    var s := a + [c] + rest;
    forall j | 0 <= j < |a| ensures !OccursAt(s, [c], j) {
      OccursChar(s, c, j);
    }
    OccursChar(s, c, |a|);
    FindFromFirst(s, [c], 0, |a|);
    SplitFirst(s, [c]);
    assert s[..|a|] == a;
    assert s == (a + [c]) + rest;
    SplitFromShift(a + [c], rest, [c], 0);
  }

  // ---------------------------------------------------------------------
  // Character replacement
  // ---------------------------------------------------------------------

  /** Python's `s.replace(a, b)` for single characters `a` and `b`. */
  function ReplaceChar(s: string, a: char, b: char): string {
    seq(|s|, i requires 0 <= i < |s| => if s[i] == a then b else s[i])
  }
}
