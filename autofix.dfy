/**
 * The "append a call to an uncalled function" repair of `execute_with_retry`
 * (Core_Pipeline_Files/mainV3.py, lines 80-91). The pattern
 * `def\s+(\w+)\s*\(([^)]*)\)` is written out as a direct string predicate.
 */
module AutoFix {
  import opened Base
  import opened Text

  const DefKeyword: string := "def"
  const DefSpace: string := DefKeyword + " "
  const PathWords: seq<string> := ["filename", "file", "path"]

  /** What `code.split(f"def {name}")[1]` raises when there is no such piece. */
  const IndexErrorMessage: string := "list index out of range"

  /** The length of the run of whitespace that starts at `i`. */
  function SpaceSpan(s: string, i: nat): (n: nat)
    requires i <= |s|
    ensures i + n <= |s|
    decreases |s| - i
  {
    if i < |s| && IsSpace(s[i]) then 1 + SpaceSpan(s, i + 1) else 0
  }

  /** The length of the run of word characters that starts at `i`. */
  function WordSpan(s: string, i: nat): (n: nat)
    requires i <= |s|
    ensures i + n <= |s|
    decreases |s| - i
  {
    if i < |s| && IsWordChar(s[i]) then 1 + WordSpan(s, i + 1) else 0
  }

  /** The word run is maximal: word characters up to its end, and none right after. */
  lemma {:induction false} WordSpanSpec(s: string, i: nat)
    requires i <= |s|
    ensures forall k :: i <= k < i + WordSpan(s, i) ==> IsWordChar(s[k])
    ensures i + WordSpan(s, i) == |s| || !IsWordChar(s[i + WordSpan(s, i)])
    decreases |s| - i
  {
    if i < |s| && IsWordChar(s[i]) {
      WordSpanSpec(s, i + 1);
    }
  }

  /** A match of the `def` pattern: where it starts, group 1 and group 2. */
  datatype DefMatch = DefMatch(start: nat, name: string, params: string)

  /**
   * The match of `def\s+(\w+)\s*\(([^)]*)\)` that starts at `i`, if any.
   * Backtracking cannot help any of the runs: `\s` and `\w` exclude each
   * other and `(`, so each run is taken whole, and `[^)]*` stops at the
   * first `)`.
   */
  function DefAt(code: string, i: nat): (r: Option<DefMatch>)
    requires i <= |code|
    ensures r.Some? ==> r.value.start == i
  {
    if !StartsAt(code, DefKeyword, i, false) then None
    else
      var j := i + |DefKeyword|;
      var k := j + SpaceSpan(code, j);
      var m := k + WordSpan(code, k);
      var p := m + SpaceSpan(code, m);
      if k == j || m == k || p == |code| || code[p] != '(' then None
      else match Find(code, ")", p + 1, false)
        case None => None
        case Some(q) => Some(DefMatch(i, code[k..m], code[p + 1..q]))
  }

  /** A match begins with `def`, names a function by a run of word characters, and has no `)` in its parameters. */
  lemma DefAtShape(code: string, i: nat)
    requires i <= |code| && DefAt(code, i).Some?
    ensures StartsAt(code, DefKeyword, i, false)
    ensures DefAt(code, i).value.name != []
    ensures forall k :: 0 <= k < |DefAt(code, i).value.name| ==> IsWordChar(DefAt(code, i).value.name[k])
    ensures ')' !in DefAt(code, i).value.params
  {
    var j := i + |DefKeyword|;
    var k := j + SpaceSpan(code, j);
    var m := k + WordSpan(code, k);
    var p := m + SpaceSpan(code, m);
    var q := Find(code, ")", p + 1, false).value;
    assert DefAt(code, i).value == DefMatch(i, code[k..m], code[p + 1..q]);
    WordSpanSpec(code, k);
    FindCharFirst(code, ')', p + 1);
  }

  /** `\w` and `\s` never overlap. */
  lemma WordCharNotSpace(c: char)
    requires IsWordChar(c)
    ensures !IsSpace(c)
  {
  }

  /** A run of `n` word characters that ends before a non-word character has span `n`. */
  lemma {:induction false} WordSpanOf(s: string, i: nat, n: nat)
    requires i + n <= |s|
    requires forall k :: i <= k < i + n ==> IsWordChar(s[k])
    requires i + n == |s| || !IsWordChar(s[i + n])
    ensures WordSpan(s, i) == n
    decreases n
  {
    if n > 0 {
      WordSpanOf(s, i + 1, n - 1);
    }
  }

  /** `s.find(")", from)` when the first `)` from `from` on is at `q`. */
  lemma FindCloseParen(s: string, from: nat, q: nat)
    requires from <= q < |s| && s[q] == ')' && ')' !in s[from..q]
    ensures Find(s, ")", from, false) == Some(q)
  {
    forall j | from <= j < q ensures !StartsAt(s, ")", j, false) {
      assert s[j] == s[from..q][j - from];
      StartsAtChar(s, ')', j);
    }
    StartsAtChar(s, ')', q);
    FindFirst(s, ")", from, q, false);
  }

  /** The pattern matches at `i` when `def`, one space, a name, `(`, parameters and `)` stand there. */
  lemma DefAtPositions(code: string, i: nat, name: string, params: string)
    requires name != [] && forall k :: 0 <= k < |name| ==> IsWordChar(name[k])
    requires i + 4 + |name| + 1 + |params| < |code|
    requires code[i..i + 3] == DefKeyword && code[i + 3] == ' '
    requires code[i + 4..i + 4 + |name|] == name && code[i + 4 + |name|] == '('
    requires code[i + 5 + |name|..i + 5 + |name| + |params|] == params && ')' !in params
    requires code[i + 5 + |name| + |params|] == ')'
    ensures DefAt(code, i) == Some(DefMatch(i, name, params))
  {
    var k := i + 4;
    var m := k + |name|;
    StartsAtIsSlice(code, DefKeyword, i);
    assert code[k] == name[0];
    WordCharNotSpace(code[k]);
    assert SpaceSpan(code, i + 3) == 1;
    forall t | k <= t < m ensures IsWordChar(code[t]) {
      assert code[t] == code[k..m][t - k];
    }
    WordSpanOf(code, k, |name|);
    assert SpaceSpan(code, m) == 0;
    FindCloseParen(code, m + 1, m + 1 + |params|);
  }

  /** A definition written `def name(params)` is matched, with its name and parameters as the groups. */
  lemma PlainDefMatches(pre: string, name: string, params: string, post: string)
    requires name != [] && forall k :: 0 <= k < |name| ==> IsWordChar(name[k])
    requires ')' !in params
    ensures DefAt(pre + DefSpace + name + "(" + params + ")" + post, |pre|)
         == Some(DefMatch(|pre|, name, params))
  {
    var code := pre + DefSpace + name + "(" + params + ")" + post;
    var i := |pre|;
    var m := i + 4 + |name|;
    assert code[i..i + 3] == DefKeyword;
    assert code[i + 3] == ' ';
    assert code[i + 4..m] == name;
    assert code[m] == '(';
    assert code[m + 1..m + 1 + |params|] == params;
    assert code[m + 1 + |params|] == ')';
    DefAtPositions(code, i, name, params);
  }

  /** No position in `[from, to)` starts a match. */
  ghost predicate NoDefBetween(code: string, from: nat, to: nat) {
    forall j: nat | from <= j < to && j <= |code| :: DefAt(code, j).None?
  }

  /** `re.search`: the leftmost match at or after `from`. */
  function SearchDef(code: string, from: nat): (r: Option<DefMatch>)
    requires from <= |code|
    ensures r.Some? ==> from <= r.value.start <= |code| && DefAt(code, r.value.start) == r
    decreases |code| - from
  {
    match DefAt(code, from)
    case Some(d) => Some(d)
    case None => if from == |code| then None else SearchDef(code, from + 1)
  }

  /** `re.search` skips only positions where no match starts. */
  lemma {:induction false} SearchDefLeftmost(code: string, from: nat)
    requires from <= |code|
    ensures SearchDef(code, from).Some? ==> NoDefBetween(code, from, SearchDef(code, from).value.start)
    ensures SearchDef(code, from).None? ==> NoDefBetween(code, from, |code| + 1)
    decreases |code| - from
  {
    if DefAt(code, from).None? && from < |code| {
      SearchDefLeftmost(code, from + 1);
    }
  }

  /** A match with no earlier match is the one `re.search` finds. */
  lemma {:induction false} SearchDefFirst(code: string, from: nat, i: nat)
    requires from <= i <= |code| && DefAt(code, i).Some? && NoDefBetween(code, from, i)
    ensures SearchDef(code, from) == DefAt(code, i)
    decreases i - from
  {
    if from < i {
      SearchDefFirst(code, from + 1, i);
    }
  }

  /** `s.split(sep)[1]`: the text between the first and the second `sep`, or `None` for an `IndexError`. */
  function SecondPiece(s: string, sep: string): (r: Option<string>)
    ensures r.Some? <==> Contains(s, sep)
  {
    match Find(s, sep, 0, false)
    case None => None
    case Some(a) =>
      var rest := s[a + |sep|..];
      match Find(rest, sep, 0, false)
      case None => Some(rest)
      case Some(b) => Some(rest[..b])
  }

  /** With no `sep` in the `k` characters after the first one, `split(sep)[1]` starts with those characters. */
  lemma SecondPieceStarts(s: string, sep: string, a: nat, k: nat)
    requires Find(s, sep, 0, false) == Some(a) && a + |sep| + k <= |s|
    requires NoneBetween(s[a + |sep|..], sep, 0, k, false)
    ensures SecondPiece(s, sep).Some?
    ensures |SecondPiece(s, sep).value| >= k && SecondPiece(s, sep).value[..k] == s[a + |sep|..a + |sep| + k]
  {
    var rest := s[a + |sep|..];
    match Find(rest, sep, 0, false)
    case None =>
      assert SecondPiece(s, sep) == Some(rest);
    case Some(b) =>
      assert SecondPiece(s, sep) == Some(rest[..b]);
  }

  /** `params and any(p in params.lower() for p in ['filename', 'file', 'path'])` on the stripped group 2. */
  predicate WantsPath(params: string) {
    var p := Strip(params);
    p != [] && exists w | w in PathWords :: Contains(LowerAll(p), w)
  }

  /** The call line the repair appends. */
  function CallLine(d: DefMatch, target: string): string {
    if WantsPath(d.params) then "\n" + d.name + "('" + target + "')\n" else "\n" + d.name + "()\n"
  }

  /**
   * Lines 81-91: when the first `def` match names a function that is not
   * called after its definition, append a call; `Err` is the `IndexError`
   * of `split(...)[1]`.
   */
  function AddMissingCall(code: string, target: string): (r: Result<string, string>)
    ensures r.Ok? ==> code <= r.value
    ensures !Contains(code, DefSpace) ==> r == Ok(code)
  {
    if !Contains(code, DefSpace) then Ok(code)
    else match SearchDef(code, 0)
      case None => Ok(code)
      case Some(d) =>
        match SecondPiece(code, DefSpace + d.name)
        case None => Err(IndexErrorMessage)
        case Some(body) =>
          if Contains(body, d.name + "(") then Ok(code) else Ok(code + CallLine(d, target))
  }

  /**
   * The repair either leaves the code alone or appends the call line of
   * the first match; it raises exactly when the first match is not
   * spelled `def name` with a single space anywhere in the code.
   */
  lemma AddMissingCallCases(code: string, target: string)
    ensures AddMissingCall(code, target).Ok? ==>
      AddMissingCall(code, target).value == code ||
      (SearchDef(code, 0).Some? && AddMissingCall(code, target).value == code + CallLine(SearchDef(code, 0).value, target))
    ensures AddMissingCall(code, target).Err? <==>
      Contains(code, DefSpace) && SearchDef(code, 0).Some? && !Contains(code, DefSpace + SearchDef(code, 0).value.name)
  {
  }

  /** The appended line calls the function it names. */
  lemma CallLineCalls(d: DefMatch, target: string)
    ensures Contains(CallLine(d, target), d.name + "(")
  {
    if WantsPath(d.params) {
      ContainsMiddle("\n", d.name + "(", "'" + target + "')\n");
      assert CallLine(d, target) == "\n" + (d.name + "(") + ("'" + target + "')\n");
    } else {
      ContainsMiddle("\n", d.name + "(", ")\n");
      assert CallLine(d, target) == "\n" + (d.name + "(") + ")\n";
    }
  }

  /**
   * Once the call line is appended (see `AddMissingCallCases`), the text that
   * follows the first `def name` calls `name`.
   */
  lemma RepairCallsFunction(code: string, target: string, d: DefMatch)
    requires Find(code, DefSpace + d.name, 0, false).Some?
    ensures Find(code, DefSpace + d.name, 0, false).value + |DefSpace + d.name| <= |code|
    ensures Contains((code + CallLine(d, target))[Find(code, DefSpace + d.name, 0, false).value + |DefSpace + d.name|..], d.name + "(")
  {
    var head := DefSpace + d.name;
    FindBounds(code, head, 0, false);
    var n := Find(code, head, 0, false).value + |head|;
    var line := CallLine(d, target);
    SliceOfAppend(code, line, n);
    CallLineCalls(d, target);
    ContainsInAppend(code[n..], line, d.name + "(");
  }

  /** The call line opens with a newline, the function's name and `(`. */
  lemma CallLineOpens(d: DefMatch, target: string)
    ensures |CallLine(d, target)| >= |d.name| + 2
    ensures CallLine(d, target)[..|d.name| + 2] == "\n" + d.name + "("
  {
  }

  /**
   * No `def name` overlaps the newline that opens the call line or starts
   * before its `(`: the newline, the word characters of the name and the
   * `(` leave no room for the letters and the space of `def `.
   */
  lemma NoDefNameNearCall(rest: string, m: nat, name: string, j: nat)
    requires name != [] && forall k :: 0 <= k < |name| ==> IsWordChar(name[k])
    requires m + |name| + 2 <= |rest| && rest[m..m + |name| + 2] == "\n" + name + "("
    requires m < j + |DefSpace + name| && j < m + |name| + 2
    ensures !StartsAt(rest, DefSpace + name, j, false)
  {
    var head := DefSpace + name;
    if j + |head| <= |rest| {
      var t := if j <= m then m else if j + 3 <= m + |name| then j + 3 else m + |name| + 1;
      assert j <= t < j + |head|;
      if t - j < 4 {
        assert head[t - j] == DefSpace[t - j];
      } else {
        assert head[t - j] == name[t - j - 4];
      }
      if j <= m {
        assert rest[t] == '\n';
      } else if j + 3 <= m + |name| {
        assert rest[t] == name[t - m - 1];
      } else {
        assert rest[t] == '(';
      }
      StartsAtIsSlice(rest, head, j);
      assert rest[j..j + |head|][t - j] != head[t - j];
    }
  }

  /** Text appended after the first occurrence of `p` does not move it. */
  lemma FindFirstOfAppend(a: string, b: string, p: string)
    requires Find(a, p, 0, false).Some?
    ensures Find(a + b, p, 0, false) == Find(a, p, 0, false)
  {
    var i := Find(a, p, 0, false).value;
    FindBounds(a, p, 0, false);
    forall j: nat | j <= i ensures StartsAt(a + b, p, j, false) <==> StartsAt(a, p, j, false) {
      StartsAtPrefix(a, b, p, j);
    }
    FindFirst(a + b, p, 0, i, false);
  }

  /**
   * After the only `def name` of `code`, the text `code[n..] + line` holds
   * no `def name` before the `(` that follows the name in `line`.
   */
  lemma NoDefNameBeforeCall(code: string, line: string, name: string, n: nat)
    requires name != [] && forall k :: 0 <= k < |name| ==> IsWordChar(name[k])
    requires n <= |code| && NoneFrom(code, DefSpace + name, n, false)
    requires |line| >= |name| + 2 && line[..|name| + 2] == "\n" + name + "("
    ensures NoneBetween(code[n..] + line, DefSpace + name, 0, |code| - n + |name| + 2, false)
  {
    var head := DefSpace + name;
    var rest := code[n..] + line;
    var m := |code| - n;
    assert rest[m..m + |name| + 2] == line[..|name| + 2];
    forall j: nat | 0 <= j < m + |name| + 2 ensures !StartsAt(rest, head, j, false) {
      if j + |head| <= m {
        StartsAtPrefix(code[n..], line, head, j);
        StartsAtShift(code, head, n, j);
      } else {
        NoDefNameNearCall(rest, m, name, j);
      }
    }
  }

  /**
   * When `def name` occurs only once in the code, the piece that line 85
   * reads from the repaired code, `split(f"def {name}")[1]`, runs into the
   * appended call line, so it contains `name(` and a second repair would
   * leave the code alone.
   */
  lemma RepairedPieceCalls(code: string, target: string, d: DefMatch)
    requires SearchDef(code, 0) == Some(d)
    requires Contains(code, DefSpace + d.name)
    requires Find(code, DefSpace + d.name, Find(code, DefSpace + d.name, 0, false).value + 1, false).None?
    ensures SecondPiece(code + CallLine(d, target), DefSpace + d.name).Some?
    ensures Contains(SecondPiece(code + CallLine(d, target), DefSpace + d.name).value, d.name + "(")
  {
    DefAtShape(code, d.start);
    CallLineOpens(d, target);
    PieceRunsIntoCall(code, CallLine(d, target), d.name);
  }

  /** The body of `RepairedPieceCalls`, over any appended line that opens with the call. */
  lemma PieceRunsIntoCall(code: string, line: string, name: string)
    requires name != [] && forall k :: 0 <= k < |name| ==> IsWordChar(name[k])
    requires Contains(code, DefSpace + name)
    requires Find(code, DefSpace + name, Find(code, DefSpace + name, 0, false).value + 1, false).None?
    requires |line| >= |name| + 2 && line[..|name| + 2] == "\n" + name + "("
    ensures SecondPiece(code + line, DefSpace + name).Some?
    ensures Contains(SecondPiece(code + line, DefSpace + name).value, name + "(")
  {
    var head := DefSpace + name;
    var a := Find(code, head, 0, false).value;
    FindBounds(code, head, 0, false);
    NoDefNameBeforeCall(code, line, name, a + |head|);
    SecondPieceOfAppend(code, line, head, a, |name| + 2);
    PrefixHoldsCall(SecondPiece(code + line, head).value, code[a + |head|..], line, name);
  }

  /**
   * When the first `sep` of `code` is at `a` and `code[a + |sep|..] + line`
   * holds no `sep` in its first `|code| - a - |sep| + t` characters,
   * `split(sep)[1]` of `code + line` begins with those characters.
   */
  lemma SecondPieceOfAppend(code: string, line: string, sep: string, a: nat, t: nat)
    requires Find(code, sep, 0, false) == Some(a) && a + |sep| <= |code| && t <= |line|
    requires NoneBetween(code[a + |sep|..] + line, sep, 0, |code| - a - |sep| + t, false)
    ensures SecondPiece(code + line, sep).Some?
    ensures |SecondPiece(code + line, sep).value| >= |code| - a - |sep| + t
    ensures SecondPiece(code + line, sep).value[..|code| - a - |sep| + t]
         == (code[a + |sep|..] + line)[..|code| - a - |sep| + t]
  {
    var s := code + line;
    var n := a + |sep|;
    FindFirstOfAppend(code, line, sep);
    SliceOfAppend(code, line, n);
    SecondPieceStarts(s, sep, a, |code| - n + t);
  }

  /** A text that begins like `pre + line`, up to the `(` of the call line, contains `name(`. */
  lemma PrefixHoldsCall(piece: string, pre: string, line: string, name: string)
    requires |line| >= |name| + 2 && line[..|name| + 2] == "\n" + name + "("
    requires |piece| >= |pre| + |name| + 2 && |pre + line| >= |pre| + |name| + 2
    requires piece[..|pre| + |name| + 2] == (pre + line)[..|pre| + |name| + 2]
    ensures Contains(piece, name + "(")
  {
    var i := |pre| + 1;
    var k := |pre| + |name| + 2;
    calc {
      piece[i..i + |name + "("|];
      piece[..k][i..k];
      (pre + line)[..k][i..k];
      line[..|name| + 2][1..];
      ("\n" + name + "(")[1..];
      name + "(";
    }
    StartsAtIsSlice(piece, name + "(", i);
    ContainsAt(piece, name + "(", i);
  }

  /** A parameter list that mentions a file gets the target path as its argument. */
  lemma FileParamGetsTarget(d: DefMatch, target: string, w: string)
    requires w in PathWords && Contains(LowerAll(Strip(d.params)), w)
    ensures CallLine(d, target) == "\n" + d.name + "('" + target + "')\n"
  {
    var s := LowerAll(Strip(d.params));
    assert |w| > 0;
    var i := Find(s, w, 0, false).value;
    assert StartsAt(s, w, i, false);
    assert |Strip(d.params)| == |s| >= |w|;
  }

  /** A definition spelled with two spaces after `def`. */
  const TwoSpaceDef: string := "def  f()"

  /** The runs of the pattern in `TwoSpaceDef`. */
  lemma TwoSpaceSpans()
    ensures SpaceSpan(TwoSpaceDef, 3) == 2 && WordSpan(TwoSpaceDef, 5) == 1 && SpaceSpan(TwoSpaceDef, 6) == 0
  {
    var code := TwoSpaceDef;
    assert SpaceSpan(code, 5) == 0;
    assert SpaceSpan(code, 4) == 1;
    assert WordSpan(code, 6) == 0;
  }

  /** The pattern matches `TwoSpaceDef` at its start, naming `f`. */
  lemma TwoSpaceMatch()
    ensures DefAt(TwoSpaceDef, 0) == Some(DefMatch(0, "f", ""))
  {
    var code := TwoSpaceDef;
    TwoSpaceSpans();
    assert StartsAt(code, DefKeyword, 0, false);
    assert StartsAt(code, ")", 7, false);
    assert Find(code, ")", 7, false) == Some(7);
    assert code[5..6] == "f" && code[7..7] == "";
  }

  /** `"def " in code` holds for `TwoSpaceDef`. */
  lemma TwoSpaceHasDefSpace()
    ensures Contains(TwoSpaceDef, DefSpace)
  {
    StartsAtIsSlice(TwoSpaceDef, DefSpace, 0);
    assert TwoSpaceDef[0..4] == DefSpace;
  }

  /** `def f` with one space does not occur in `TwoSpaceDef`. */
  lemma TwoSpaceNoSingleSpaceDef()
    ensures !Contains(TwoSpaceDef, DefSpace + "f")
  {
    assert DefSpace + "f" == "def f";
    assert !Contains(TwoSpaceDef, "def f");
  }

  /** The repair raises `IndexError` on `TwoSpaceDef`, whatever the target. */
  lemma TwoSpaceDefRaises(target: string)
    ensures AddMissingCall(TwoSpaceDef, target) == Err(IndexErrorMessage)
  {
    TwoSpaceMatch();
    TwoSpaceHasDefSpace();
    TwoSpaceNoSingleSpaceDef();
    assert SearchDef(TwoSpaceDef, 0) == Some(DefMatch(0, "f", ""));
  }
}
