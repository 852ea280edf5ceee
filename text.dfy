/**
 * String primitives the source borrows from Python: `str.isspace`,
 * `str.strip`, `str.lower`, `str.find`/`in` and `str.split(sep)`.
 * Strings are sequences of Unicode scalar values, as Python's `str` is.
 */
module Text {
  import opened Base

  /** The characters `str.isspace` accepts; `\s` in a `str` pattern matches the same set. */
  const Whitespace: set<char> :=
    {' ', '\t', '\n', '\U{0B}', '\U{0C}', '\r', '\U{1C}', '\U{1D}', '\U{1E}', '\U{1F}', '\U{85}', '\U{A0}',
     '\U{1680}', '\U{2000}', '\U{2001}', '\U{2002}', '\U{2003}', '\U{2004}', '\U{2005}', '\U{2006}',
     '\U{2007}', '\U{2008}', '\U{2009}', '\U{200A}', '\U{2028}', '\U{2029}', '\U{202F}', '\U{205F}', '\U{3000}'}

  predicate IsSpace(c: char) {
    c in Whitespace
  }

  predicate AllSpace(s: string) {
    forall i :: 0 <= i < |s| ==> IsSpace(s[i])
  }

  /** No whitespace at either end: what `str.strip()` always returns. */
  predicate Trimmed(s: string) {
    s == [] || (!IsSpace(s[0]) && !IsSpace(s[|s| - 1]))
  }

  /** `str.lstrip()`: drop the leading whitespace. */
  function StripStart(s: string): string {
    if s != [] && IsSpace(s[0]) then StripStart(s[1..]) else s
  }

  /** `str.rstrip()`: drop the trailing whitespace. */
  function StripEnd(s: string): string {
    if s != [] && IsSpace(s[|s| - 1]) then StripEnd(s[..|s| - 1]) else s
  }

  /** `str.strip()`: the text between the leading and the trailing whitespace. */
  function Strip(s: string): string {
    StripEnd(StripStart(s))
  }

  /** `lstrip` keeps a suffix, drops only whitespace and stops at a non-space. */
  lemma {:induction false} StripStartSpec(s: string)
    ensures |StripStart(s)| <= |s| && StripStart(s) == s[|s| - |StripStart(s)|..]
    ensures forall i :: 0 <= i < |s| - |StripStart(s)| ==> IsSpace(s[i])
    ensures StripStart(s) != [] ==> !IsSpace(StripStart(s)[0])
  {
    if s != [] && IsSpace(s[0]) {
      StripStartSpec(s[1..]);
      forall i | 0 < i < |s| - |StripStart(s)| ensures IsSpace(s[i]) {
        assert s[i] == s[1..][i - 1];
      }
    }
  }

  /** `rstrip` keeps a prefix, drops only whitespace and stops at a non-space. */
  lemma {:induction false} StripEndSpec(s: string)
    ensures |StripEnd(s)| <= |s| && StripEnd(s) == s[..|StripEnd(s)|]
    ensures forall i :: |StripEnd(s)| <= i < |s| ==> IsSpace(s[i])
    ensures StripEnd(s) != [] ==> !IsSpace(StripEnd(s)[|StripEnd(s)| - 1])
  {
    if s != [] && IsSpace(s[|s| - 1]) {
      StripEndSpec(s[..|s| - 1]);
      forall i | |StripEnd(s)| <= i < |s| - 1 ensures IsSpace(s[i]) {
        assert s[i] == s[..|s| - 1][i];
      }
    }
  }

  /** Number of leading whitespace characters. */
  function LeadLen(s: string): (n: nat)
  {
    StripStartSpec(s);
    |s| - |StripStart(s)|
  }

  /** What `str.strip()` returns has no outer whitespace. */
  lemma StripIsTrimmed(s: string)
    ensures Trimmed(Strip(s))
  {
    var t := StripStart(s);
    StripStartSpec(s);
    StripEndSpec(t);
    if StripEnd(t) != [] {
      assert StripEnd(t)[0] == t[0];
    }
  }

  /** Stripping keeps one contiguous piece of `s` and drops only whitespace around it. */
  lemma StripIsSlice(s: string)
    ensures LeadLen(s) + |Strip(s)| <= |s|
    ensures Strip(s) == s[LeadLen(s)..LeadLen(s) + |Strip(s)|]
    ensures forall i :: 0 <= i < LeadLen(s) ==> IsSpace(s[i])
    ensures forall i :: LeadLen(s) + |Strip(s)| <= i < |s| ==> IsSpace(s[i])
  {
    var t := StripStart(s);
    StripStartSpec(s);
    StripEndSpec(t);
    var a := LeadLen(s);
    forall i | a + |Strip(s)| <= i < |s| ensures IsSpace(s[i]) {
      assert s[i] == t[i - a];
    }
  }

  /** Stripping leaves nothing exactly when the text is all whitespace (`not s.strip()`). */
  lemma StripEmptyIffBlank(s: string)
    ensures Strip(s) == [] <==> AllSpace(s)
  {
    var t := StripStart(s);
    StripStartSpec(s);
    StripEndSpec(t);
    if t != [] {
      assert !IsSpace(t[0]);
      assert s[|s| - |t|] == t[0];
    }
  }

  /** Stripping text that has no outer whitespace changes nothing. */
  lemma StripTrimmed(s: string)
    requires Trimmed(s)
    ensures Strip(s) == s
  {
  }

  /** ASCII `str.lower()` on one character. */
  function Lower(c: char): char {
    if 'A' <= c <= 'Z' then (c as int + 32) as char else c
  }

  /** ASCII `str.lower()`. */
  function LowerAll(s: string): (r: string)
    ensures |r| == |s|
    ensures forall i :: 0 <= i < |s| ==> r[i] == Lower(s[i])
  {
    seq(|s|, i requires 0 <= i < |s| => Lower(s[i]))
  }

  /** `\w` for ASCII text: letters, digits and `_`. */
  predicate IsWordChar(c: char) {
    ('a' <= c <= 'z') || ('A' <= c <= 'Z') || ('0' <= c <= '9') || c == '_'
  }

  /** Two characters are equal, or equal up to case when `fold` (`re.IGNORECASE`). */
  predicate CharMatch(a: char, b: char, fold: bool) {
    if fold then Lower(a) == Lower(b) else a == b
  }

  /** The characters of `p` match `s` from index `i` on. */
  predicate MatchFrom(s: string, p: string, i: nat, fold: bool)
    requires i + |p| <= |s|
    decreases |p|
  {
    p == [] || (CharMatch(s[i], p[0], fold) && MatchFrom(s, p[1..], i + 1, fold))
  }

  /** `p` occurs in `s` at index `i`; with `fold`, letters compare case-insensitively. */
  predicate StartsAt(s: string, p: string, i: nat, fold: bool) {
    i + |p| <= |s| && MatchFrom(s, p, i, fold)
  }

  /** An exact occurrence is an equal slice. */
  lemma {:induction false} StartsAtIsSlice(s: string, p: string, i: nat)
    requires i + |p| <= |s|
    ensures StartsAt(s, p, i, false) <==> s[i..i + |p|] == p
    decreases |p|
  {
    if p != [] {
      StartsAtIsSlice(s, p[1..], i + 1);
      assert s[i..i + |p|] == [s[i]] + s[i + 1..i + 1 + |p[1..]|];
      assert p == [p[0]] + p[1..];
    }
  }

  /** No occurrence of `p` starts in `[from, to)`. */
  ghost predicate NoneBetween(s: string, p: string, from: nat, to: nat, fold: bool) {
    forall j: nat :: from <= j < to ==> !StartsAt(s, p, j, fold)
  }

  /** No occurrence of `p` starts at or after `from`. */
  ghost predicate NoneFrom(s: string, p: string, from: nat, fold: bool) {
    forall j: nat :: from <= j ==> !StartsAt(s, p, j, fold)
  }

  /** `i` is the first occurrence of `p` at or after `from`. */
  ghost predicate FirstFrom(s: string, p: string, from: nat, i: nat, fold: bool) {
    from <= i && StartsAt(s, p, i, fold) && NoneBetween(s, p, from, i, fold)
  }

  /** The least index at or after `from` where `p` occurs (`str.find(p, from)`). */
  function Find(s: string, p: string, from: nat, fold: bool): (r: Option<nat>)
    ensures r.Some? ==> FirstFrom(s, p, from, r.value, fold)
    ensures r.None? ==> NoneFrom(s, p, from, fold)
    decreases |s| - from
  {
    if from + |p| > |s| then None
    else if StartsAt(s, p, from, fold) then Some(from)
    else Find(s, p, from + 1, fold)
  }

  /** An occurrence `Find` reports lies inside `s`. */
  lemma FindBounds(s: string, p: string, from: nat, fold: bool)
    requires Find(s, p, from, fold).Some?
    ensures from <= Find(s, p, from, fold).value
    ensures Find(s, p, from, fold).value + |p| <= |s|
  {
  }

  /** No copy of `c` lies between `from` and the first one `Find` reports. */
  lemma FindCharFirst(s: string, c: char, from: nat)
    requires Find(s, [c], from, false).Some?
    ensures forall t :: from <= t < Find(s, [c], from, false).value ==> s[t] != c
  {
    forall t | from <= t < Find(s, [c], from, false).value ensures s[t] != c {
      StartsAtChar(s, c, t);
    }
  }

  /** The first occurrence from `from` on is the one `Find` reports. */
  lemma {:induction false} FindFirst(s: string, p: string, from: nat, i: nat, fold: bool)
    requires FirstFrom(s, p, from, i, fold)
    ensures Find(s, p, from, fold) == Some(i)
    decreases i - from
  {
    if from < i {
      FindFirst(s, p, from + 1, i, fold);
    }
  }

  /** Python's `p in s`. */
  predicate Contains(s: string, p: string) {
    Find(s, p, 0, false).Some?
  }

  /** A one-character pattern occurs where that character is. */
  lemma StartsAtChar(s: string, c: char, j: nat)
    ensures StartsAt(s, [c], j, false) <==> j < |s| && s[j] == c
  {
    if j < |s| {
      assert MatchFrom(s, [c][1..], j + 1, false);
    }
  }

  lemma ContainsAt(s: string, p: string, i: nat)
    requires StartsAt(s, p, i, false)
    ensures Contains(s, p)
  {
  }

  /** A pattern with a character that never occurs in `s` is not in `s`. */
  lemma NotContainsChar(s: string, p: string, k: nat)
    requires k < |p| && p[k] !in s
    ensures !Contains(s, p)
  {
    forall j: nat | j + |p| <= |s| ensures !StartsAt(s, p, j, false) {
      StartsAtIsSlice(s, p, j);
      assert s[j..j + |p|][k] == s[j + k];
    }
  }

  /** What is found in either part is found in the whole. */
  lemma ContainsInAppend(a: string, b: string, p: string)
    requires Contains(a, p) || Contains(b, p)
    ensures Contains(a + b, p)
  {
    var s := a + b;
    if Contains(a, p) {
      assert s[0..|a|] == a;
      ContainsInSlice(s, 0, |a|, p);
    } else {
      assert s[|a|..|s|] == b;
      ContainsInSlice(s, |a|, |s|, p);
    }
  }

  /** A pattern placed between two texts is found. */
  lemma ContainsMiddle(a: string, p: string, b: string)
    ensures Contains(a + p + b, p)
  {
    var s := a + p + b;
    StartsAtIsSlice(s, p, |a|);
    assert s[|a|..|a| + |p|] == p;
  }

  /** An occurrence inside a slice of `s` is an occurrence in `s`. */
  lemma ContainsInSlice(s: string, a: nat, b: nat, p: string)
    requires a <= b <= |s| && Contains(s[a..b], p)
    ensures Contains(s, p)
  {
    var t := s[a..b];
    var i := Find(t, p, 0, false).value;
    StartsAtIsSlice(t, p, i);
    StartsAtIsSlice(s, p, a + i);
    var u, v := s[a + i..a + i + |p|], t[i..i + |p|];
    assert forall k :: 0 <= k < |p| ==> u[k] == v[k];
    assert u == v;
    ContainsAt(s, p, a + i);
  }

  /** `r` is a contiguous piece of `s`. */
  ghost predicate IsSubstring(r: string, s: string) {
    exists a: nat, b: nat :: a <= b <= |s| && s[a..b] == r
  }

  /** Python's `s.split(sep)` with an explicit one-character separator. */
  function Split(s: string, sep: char): (r: seq<string>)
    ensures |r| >= 1
    decreases |s|
  {
    match Find(s, [sep], 0, false)
    case None => [s]
    case Some(i) => [s[..i]] + Split(s[i + 1..], sep)
  }

  lemma {:induction false} SplitNoSep(s: string, sep: char)
    requires sep !in s
    ensures Split(s, sep) == [s]
  {
    NotContainsChar(s, [sep], 0);
  }

  /** The first separator of `a + [sep] + b` is the first one of `a`, or the added one. */
  lemma FirstSepOfAppend(a: string, b: string, sep: char)
    ensures Find(a + [sep] + b, [sep], 0, false)
         == if Find(a, [sep], 0, false).Some? then Find(a, [sep], 0, false) else Some(|a|)
  {
    var s := a + [sep] + b;
    var fa := Find(a, [sep], 0, false);
    var n := if fa.Some? then fa.value else |a|;
    forall j: nat | j < n ensures !StartsAt(s, [sep], j, false) {
      assert !StartsAt(a, [sep], j, false);
      StartsAtChar(a, sep, j);
      StartsAtChar(s, sep, j);
    }
    if fa.Some? {
      StartsAtChar(a, sep, n);
    }
    StartsAtChar(s, sep, n);
  }

  /** A suffix of `a + b` that starts inside `a`. */
  lemma SliceOfAppend(a: string, b: string, n: nat)
    requires n <= |a|
    ensures (a + b)[n..] == a[n..] + b
  {
  }

  /** An occurrence in a suffix of `s` is an occurrence in `s`, shifted by where the suffix starts. */
  lemma StartsAtShift(s: string, p: string, n: nat, j: nat)
    requires n <= |s|
    ensures StartsAt(s[n..], p, j, false) <==> StartsAt(s, p, n + j, false)
  {
    if n + j + |p| <= |s| {
      StartsAtIsSlice(s[n..], p, j);
      StartsAtIsSlice(s, p, n + j);
      assert s[n..][j..j + |p|] == s[n + j..n + j + |p|];
    }
  }

  /** An occurrence that ends inside `a` is an occurrence in `a + b`, and back. */
  lemma StartsAtPrefix(a: string, b: string, p: string, j: nat)
    requires j + |p| <= |a|
    ensures StartsAt(a + b, p, j, false) <==> StartsAt(a, p, j, false)
  {
    StartsAtIsSlice(a + b, p, j);
    StartsAtIsSlice(a, p, j);
    assert (a + b)[j..j + |p|] == a[j..j + |p|];
  }

  /** Splitting at a separator splits the two sides independently. */
  lemma {:induction false} SplitAppend(a: string, b: string, sep: char)
    ensures Split(a + [sep] + b, sep) == Split(a, sep) + Split(b, sep)
    decreases |a|
  {
    var s := a + [sep] + b;
    FirstSepOfAppend(a, b, sep);
    match Find(a, [sep], 0, false)
    case None =>
      assert s[..|a|] == a;
      assert s[|a| + 1..] == b;
    case Some(i) =>
      assert s[..i] == a[..i];
      assert s[i + 1..] == a[i + 1..] + [sep] + b;
      SplitAppend(a[i + 1..], b, sep);
  }

  /** A separator-free stretch between two separators is one of the pieces. */
  lemma SplitLineBetween(a: string, l: string, b: string, sep: char)
    requires sep !in l
    ensures l in Split(a + [sep] + l + [sep] + b, sep)
  {
    var r := l + [sep] + b;
    assert a + [sep] + l + [sep] + b == a + [sep] + r;
    SplitAppend(a, r, sep);
    SplitAppend(l, b, sep);
    SplitNoSep(l, sep);
  }

  /** Every piece of `Split(s, sep)` is a slice of `s`. */
  lemma {:induction false} SplitPieceIsSlice(s: string, sep: char, k: nat)
    requires k < |Split(s, sep)|
    ensures exists a: nat, b: nat :: a <= b <= |s| && Split(s, sep)[k] == s[a..b]
    decreases |s|
  {
    match Find(s, [sep], 0, false)
    case None =>
      assert Split(s, sep)[k] == s[0..|s|];
    case Some(i) =>
      if k == 0 {
        assert Split(s, sep)[k] == s[0..i];
      } else {
        var t := s[i + 1..];
        assert Split(s, sep)[k] == Split(t, sep)[k - 1];
        SplitPieceIsSlice(t, sep, k - 1);
        var a: nat, b: nat :| a <= b <= |t| && Split(t, sep)[k - 1] == t[a..b];
        assert t[a..b] == s[i + 1 + a..i + 1 + b];
      }
  }

  /** Anything found in one line of `s` is found in `s`. */
  lemma ContainsInPiece(s: string, sep: char, k: nat, p: string)
    requires k < |Split(s, sep)| && Contains(Split(s, sep)[k], p)
    ensures Contains(s, p)
  {
    SplitPieceIsSlice(s, sep, k);
    var a: nat, b: nat :| a <= b <= |s| && Split(s, sep)[k] == s[a..b];
    ContainsInSlice(s, a, b, p);
  }

  /** `s.replace(old, new)` for single characters. */
  function ReplaceChar(s: string, a: char, b: char): (r: string)
    ensures |r| == |s|
    ensures forall i :: 0 <= i < |s| ==> r[i] == if s[i] == a then b else s[i]
  {
    seq(|s|, i requires 0 <= i < |s| => if s[i] == a then b else s[i])
  }
}
