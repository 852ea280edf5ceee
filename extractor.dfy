/**
 * The code extractor of Core_Pipeline_Files/Utilities/re.py.
 *
 * Every pattern there has the shape `open\s*(.*?)\s*close` with DOTALL, so a
 * search succeeds exactly when some opening is followed by a closing; the
 * match starts at the first opening, ends at the first closing after it, and
 * the captured group with `.strip()` applied is the stripped text between
 * them (`\s` and `str.strip` agree on what whitespace is).
 */
module Extractor {
  import opened Base
  import opened Text

  const PythonFence: string := "```python"
  const Fence: string := "```"
  const SingleQuotes: string := "'''"
  const DoubleQuotes: string := "\"\"\""
  const Keywords: seq<string> := ["import", "from", "def", "class"]

  /** Some opening `open` (case-insensitive when `fold`) is followed by a `close`. */
  ghost predicate HasBlock(text: string, open: string, close: string, fold: bool) {
    exists i: nat, q: nat ::
      StartsAt(text, open, i, fold) && i + |open| <= q && StartsAt(text, close, q, false)
  }

  /** `i` is the first opening in `text` and `q` the first closing after it. */
  ghost predicate FirstBlock(text: string, open: string, close: string, fold: bool, i: nat, q: nat) {
    FirstFrom(text, open, 0, i, fold) && FirstFrom(text, close, i + |open|, q, false)
  }

  lemma SliceIsSubstring(s: string, a: nat, b: nat)
    requires a <= b <= |s|
    ensures IsSubstring(s[a..b], s)
  {
  }

  lemma StripOfSliceIsSubstring(s: string, a: nat, b: nat)
    requires a <= b <= |s|
    ensures IsSubstring(Strip(s[a..b]), s)
  {
    var t := s[a..b];
    StripIsSlice(t);
    var l := LeadLen(t);
    var e := l + |Strip(t)|;
    var u, v := t[l..e], s[a + l..a + e];
    assert forall k :: 0 <= k < |u| ==> u[k] == v[k];
    assert u == v;
    SliceIsSubstring(s, a + l, a + e);
  }

  /**
   * One `re.search(open + r"\s*(.*?)\s*" + close, text, re.DOTALL)` followed by
   * `.group(1).strip()`; `None` when the search finds nothing.
   */
  function Delimited(text: string, open: string, close: string, fold: bool): Option<string>
  {
    match Find(text, open, 0, fold)
    case None => None
    case Some(i) =>
      match Find(text, close, i + |open|, false)
      case None => None
      case Some(q) => Some(Strip(text[i + |open|..q]))
  }

  /** The search finds something only when some opening is followed by a closing. */
  lemma DelimitedHasBlock(text: string, open: string, close: string, fold: bool)
    ensures Delimited(text, open, close, fold).Some? ==> HasBlock(text, open, close, fold)
  {
    if Delimited(text, open, close, fold).Some? {
      var i := Find(text, open, 0, fold).value;
      var q := Find(text, close, i + |open|, false).value;
      assert StartsAt(text, open, i, fold) && i + |open| <= q && StartsAt(text, close, q, false);
    }
  }

  /** What the search reports is a piece of the text, stripped. */
  lemma DelimitedIsSubstring(text: string, open: string, close: string, fold: bool)
    requires Delimited(text, open, close, fold).Some?
    ensures Trimmed(Delimited(text, open, close, fold).value)
    ensures IsSubstring(Delimited(text, open, close, fold).value, text)
  {
    var i := Find(text, open, 0, fold).value;
    var q := Find(text, close, i + |open|, false).value;
    StripOfSliceIsSubstring(text, i + |open|, q);
    StripIsTrimmed(text[i + |open|..q]);
  }

  /** Whatever comes after the first block, the search reports that block. */
  lemma DelimitedFirstBlock(text: string, open: string, close: string, fold: bool, i: nat, q: nat)
    requires FirstBlock(text, open, close, fold, i, q)
    ensures Delimited(text, open, close, fold) == Some(Strip(text[i + |open|..q]))
  {
    FindFirst(text, open, 0, i, fold);
    FindFirst(text, close, i + |open|, q, false);
  }

  /** A keyword of `Keywords` starts at `k` and is followed by whitespace. */
  predicate KeywordAt(text: string, k: nat) {
    exists w | w in Keywords :: StartsAt(text, w, k, false) && k + |w| < |text| && IsSpace(text[k + |w|])
  }

  /** `re.search(r'^\s*(import|from|def|class)\s+', text, re.MULTILINE)` succeeds. */
  predicate RawCodeLine(text: string) {
    exists j: nat, k: nat | j <= k <= |text| ::
      (j == 0 || text[j - 1] == '\n') && AllSpace(text[j..k]) && KeywordAt(text, k)
  }

  /** `extract_python_code`: five rules in priority order, the first that applies wins. */
  function ExtractPythonCode(text: string): string
  {
    if text == [] then []
    else
      var tagged := Delimited(text, PythonFence, Fence, true);
      var generic := Delimited(text, Fence, Fence, false);
      var single := Delimited(text, SingleQuotes, SingleQuotes, false);
      var double := Delimited(text, DoubleQuotes, DoubleQuotes, false);
      if tagged.Some? then tagged.value
      else if generic.Some? then generic.value
      else if single.Some? then single.value
      else if double.Some? then double.value
      else if RawCodeLine(text) then Strip(text)
      else []
  }

  /**
   * Empty input gives the empty string; any result is stripped, and a
   * non-empty one is a piece of the input.
   */
  lemma ExtractedIsSubstring(text: string)
    ensures text == [] ==> ExtractPythonCode(text) == []
    ensures Trimmed(ExtractPythonCode(text))
    ensures ExtractPythonCode(text) != [] ==> IsSubstring(ExtractPythonCode(text), text)
  {
    if text != [] {
      if Delimited(text, PythonFence, Fence, true).Some? {
        DelimitedIsSubstring(text, PythonFence, Fence, true);
      } else if Delimited(text, Fence, Fence, false).Some? {
        DelimitedIsSubstring(text, Fence, Fence, false);
      } else if Delimited(text, SingleQuotes, SingleQuotes, false).Some? {
        DelimitedIsSubstring(text, SingleQuotes, SingleQuotes, false);
      } else if Delimited(text, DoubleQuotes, DoubleQuotes, false).Some? {
        DelimitedIsSubstring(text, DoubleQuotes, DoubleQuotes, false);
      } else if RawCodeLine(text) {
        StripOfSliceIsSubstring(text, 0, |text|);
        assert text[0..|text|] == text;
        StripIsTrimmed(text);
      }
    }
  }

  /** Rule 1: a ```python fence (any case) wins whatever follows it. */
  lemma PythonFenceWins(text: string, i: nat, q: nat)
    requires FirstBlock(text, PythonFence, Fence, true, i, q)
    ensures ExtractPythonCode(text) == Strip(text[i + |PythonFence|..q])
  {
    DelimitedFirstBlock(text, PythonFence, Fence, true, i, q);
  }

  /** An empty ```python block hides every later block: the result is empty. */
  lemma EmptyPythonFenceHidesLaterCode(text: string, i: nat, q: nat)
    requires FirstBlock(text, PythonFence, Fence, true, i, q)
    requires AllSpace(text[i + |PythonFence|..q])
    ensures ExtractPythonCode(text) == []
  {
    PythonFenceWins(text, i, q);
    StripEmptyIffBlank(text[i + |PythonFence|..q]);
  }

  /** Rule 2: a generic fence is used only when no ```python fence is closed. */
  lemma GenericFenceSecond(text: string, i: nat, q: nat)
    requires !HasBlock(text, PythonFence, Fence, true)
    requires FirstBlock(text, Fence, Fence, false, i, q)
    ensures ExtractPythonCode(text) == Strip(text[i + |Fence|..q])
  {
    DelimitedHasBlock(text, PythonFence, Fence, true);
    DelimitedFirstBlock(text, Fence, Fence, false, i, q);
  }

  /** Rule 3: a ''' block is used only when no fence of either kind is closed. */
  lemma SingleQuotesThird(text: string, i: nat, q: nat)
    requires !HasBlock(text, PythonFence, Fence, true)
    requires !HasBlock(text, Fence, Fence, false)
    requires FirstBlock(text, SingleQuotes, SingleQuotes, false, i, q)
    ensures ExtractPythonCode(text) == Strip(text[i + |SingleQuotes|..q])
  {
    DelimitedHasBlock(text, PythonFence, Fence, true);
    DelimitedHasBlock(text, Fence, Fence, false);
    DelimitedFirstBlock(text, SingleQuotes, SingleQuotes, false, i, q);
  }

  /** Rule 4: a """ block is used only when every earlier rule found nothing. */
  lemma DoubleQuotesFourth(text: string, i: nat, q: nat)
    requires !HasBlock(text, PythonFence, Fence, true)
    requires !HasBlock(text, Fence, Fence, false)
    requires !HasBlock(text, SingleQuotes, SingleQuotes, false)
    requires FirstBlock(text, DoubleQuotes, DoubleQuotes, false, i, q)
    ensures ExtractPythonCode(text) == Strip(text[i + |DoubleQuotes|..q])
  {
    DelimitedHasBlock(text, PythonFence, Fence, true);
    DelimitedHasBlock(text, Fence, Fence, false);
    DelimitedHasBlock(text, SingleQuotes, SingleQuotes, false);
    DelimitedFirstBlock(text, DoubleQuotes, DoubleQuotes, false, i, q);
  }

  /** No delimited block at all. */
  ghost predicate NoDelimiters(text: string) {
    && !HasBlock(text, PythonFence, Fence, true)
    && !HasBlock(text, Fence, Fence, false)
    && !HasBlock(text, SingleQuotes, SingleQuotes, false)
    && !HasBlock(text, DoubleQuotes, DoubleQuotes, false)
  }

  /** Rule 5: undelimited text with a keyword line is returned whole, stripped. */
  lemma RawCodeFallback(text: string)
    requires NoDelimiters(text) && RawCodeLine(text)
    ensures ExtractPythonCode(text) == Strip(text)
  {
    DelimitedHasBlock(text, PythonFence, Fence, true);
    DelimitedHasBlock(text, Fence, Fence, false);
    DelimitedHasBlock(text, SingleQuotes, SingleQuotes, false);
    DelimitedHasBlock(text, DoubleQuotes, DoubleQuotes, false);
  }

  /** Rule 6: undelimited text without a keyword line yields nothing. */
  lemma PlainProseYieldsNothing(text: string)
    requires NoDelimiters(text) && !RawCodeLine(text)
    ensures ExtractPythonCode(text) == []
  {
    DelimitedHasBlock(text, PythonFence, Fence, true);
    DelimitedHasBlock(text, Fence, Fence, false);
    DelimitedHasBlock(text, SingleQuotes, SingleQuotes, false);
    DelimitedHasBlock(text, DoubleQuotes, DoubleQuotes, false);
  }

  // ---------------------------------------------------------------------
  // extract_code_blocks

  /** Length of the opening delimiter for tagged (```python) and generic (```) blocks. */
  function OpenLen(tagged: bool): nat {
    if tagged then |PythonFence| else |Fence|
  }

  /**
   * Where a `re.findall` match may start: "```python" in any case for tagged
   * blocks; "```" not followed by "python" in any case (`(?!python)`) for
   * generic ones.
   */
  predicate OpensAt(text: string, i: nat, tagged: bool) {
    if tagged then StartsAt(text, PythonFence, i, true)
    else StartsAt(text, Fence, i, false) && !StartsAt(text, "python", i + |Fence|, true)
  }

  /** The first opening at or after `from`. */
  function NextOpening(text: string, from: nat, tagged: bool): (r: Option<nat>)
    ensures r.Some? ==> from <= r.value
    decreases |text| - from
  {
    if from + OpenLen(tagged) > |text| then None
    else if OpensAt(text, from, tagged) then Some(from)
    else NextOpening(text, from + 1, tagged)
  }

  /** `i` is the first opening at or after `from`. */
  ghost predicate FirstOpening(text: string, from: nat, i: nat, tagged: bool) {
    from <= i && OpensAt(text, i, tagged) && forall j: nat :: from <= j < i ==> !OpensAt(text, j, tagged)
  }

  /** No opening at or after `from`. */
  ghost predicate NoOpeningFrom(text: string, from: nat, tagged: bool) {
    forall j: nat :: from <= j ==> !OpensAt(text, j, tagged)
  }

  /** The first opening from `from` on is the one `NextOpening` reports. */
  lemma {:induction false} NextOpeningFirst(text: string, from: nat, i: nat, tagged: bool)
    requires FirstOpening(text, from, i, tagged)
    ensures NextOpening(text, from, tagged) == Some(i)
    decreases i - from
  {
    if from < i {
      NextOpeningFirst(text, from + 1, i, tagged);
    }
  }

  /** Without an opening from `from` on, `NextOpening` reports none. */
  lemma {:induction false} NextOpeningNone(text: string, from: nat, tagged: bool)
    requires NoOpeningFrom(text, from, tagged)
    ensures NextOpening(text, from, tagged) == None
    decreases |text| - from
  {
    if from + OpenLen(tagged) <= |text| {
      NextOpeningNone(text, from + 1, tagged);
    }
  }

  /**
   * `re.findall` from `from` on: the text between each opening and the first
   * closing fence after it; the scan resumes right after that fence. (The
   * pattern's own `\s*` trimming is left to the `.strip()` applied to every
   * match afterwards, which gives the same final text.)
   */
  function FindAll(text: string, from: nat, tagged: bool): seq<string>
    decreases |text| - from, 1
  {
    match NextOpening(text, from, tagged)
    case None => []
    case Some(i) => BlocksFrom(text, i, tagged)
  }

  /** The matches from the opening at `i` on: its block, when a fence closes it, and the matches after that fence. */
  function BlocksFrom(text: string, i: nat, tagged: bool): seq<string>
    decreases |text| - i, 0
  {
    match Find(text, Fence, i + OpenLen(tagged), false)
    case None => []
    case Some(q) => [text[i + OpenLen(tagged)..q]] + FindAll(text, q + |Fence|, tagged)
  }

  /**
   * The first opening `i` from `from` on, closed first at `q`, is the first
   * match, and the scan resumes right after that closing fence.
   */
  lemma FindAllStep(text: string, from: nat, tagged: bool, i: nat, q: nat)
    requires FirstOpening(text, from, i, tagged) && FirstFrom(text, Fence, i + OpenLen(tagged), q, false)
    ensures FindAll(text, from, tagged) == [text[i + OpenLen(tagged)..q]] + FindAll(text, q + |Fence|, tagged)
  {
    NextOpeningFirst(text, from, i, tagged);
    FindFirst(text, Fence, i + OpenLen(tagged), q, false);
    FindAllUnfold(text, from, tagged, i, q);
  }

  lemma FindAllUnfold(text: string, from: nat, tagged: bool, i: nat, q: nat)
    requires NextOpening(text, from, tagged) == Some(i)
    requires Find(text, Fence, i + OpenLen(tagged), false) == Some(q)
    ensures FindAll(text, from, tagged) == [text[i + OpenLen(tagged)..q]] + FindAll(text, q + |Fence|, tagged)
  {
  }

  /** The scan stops at the first opening that is never closed. */
  lemma FindAllUnclosed(text: string, from: nat, tagged: bool, i: nat)
    requires FirstOpening(text, from, i, tagged) && NoneFrom(text, Fence, i + OpenLen(tagged), false)
    ensures FindAll(text, from, tagged) == []
  {
    NextOpeningFirst(text, from, i, tagged);
  }

  /** Without an opening from `from` on there is no match. */
  lemma FindAllNoOpening(text: string, from: nat, tagged: bool)
    requires NoOpeningFrom(text, from, tagged)
    ensures FindAll(text, from, tagged) == []
  {
    NextOpeningNone(text, from, tagged);
  }

  /** Every entry of `blocks` is a piece of `text`. */
  ghost predicate Pieces(text: string, blocks: seq<string>) {
    forall k :: 0 <= k < |blocks| ==> IsSubstring(blocks[k], text)
  }

  /** Every entry of `blocks` is trimmed and a piece of `text`. */
  ghost predicate TrimmedPieces(text: string, blocks: seq<string>) {
    forall k :: 0 <= k < |blocks| ==> Trimmed(blocks[k]) && IsSubstring(blocks[k], text)
  }

  lemma PiecesAppend(text: string, a: seq<string>, b: seq<string>)
    requires Pieces(text, a) && Pieces(text, b)
    ensures Pieces(text, a + b)
  {
    forall k | 0 <= k < |a + b| ensures IsSubstring((a + b)[k], text) {
      if k >= |a| {
        assert (a + b)[k] == b[k - |a|];
      }
    }
  }

  /** A slice of `text` put in front of pieces of `text` gives pieces of `text`. */
  lemma PiecesCons(text: string, lo: nat, hi: nat, rest: seq<string>)
    requires lo <= hi <= |text| && Pieces(text, rest)
    ensures Pieces(text, [text[lo..hi]] + rest)
  {
    var r := [text[lo..hi]] + rest;
    forall k | 0 <= k < |r| ensures IsSubstring(r[k], text) {
      if k == 0 {
        SliceIsSubstring(text, lo, hi);
      } else {
        assert r[k] == rest[k - 1];
      }
    }
  }

  /** Every match of `re.findall` is a piece of the text. */
  lemma {:induction false} FindAllPieces(text: string, from: nat, tagged: bool)
    ensures Pieces(text, FindAll(text, from, tagged))
    decreases |text| - from
  {
    var next := NextOpening(text, from, tagged);
    if next.Some? {
      var lo := next.value + OpenLen(tagged);
      var close := Find(text, Fence, lo, false);
      if close.Some? {
        FindBounds(text, Fence, lo, false);
        FindAllPieces(text, close.value + |Fence|, tagged);
        PiecesCons(text, lo, close.value, FindAll(text, close.value + |Fence|, tagged));
      }
    }
  }

  /** Stripping a piece of `text` leaves a piece of `text`. */
  lemma StripOfPiece(s: string, text: string)
    requires IsSubstring(s, text)
    ensures IsSubstring(Strip(s), text)
  {
    var a: nat, b: nat :| a <= b <= |text| && text[a..b] == s;
    StripOfSliceIsSubstring(text, a, b);
  }

  /** `[block.strip() for block in blocks if block.strip()]`. */
  function KeepNonEmpty(blocks: seq<string>): (r: seq<string>)
    ensures forall k :: 0 <= k < |r| ==> r[k] != []
    ensures |r| <= |blocks|
  {
    if blocks == [] then []
    else if Strip(blocks[0]) != [] then [Strip(blocks[0])] + KeepNonEmpty(blocks[1..])
    else KeepNonEmpty(blocks[1..])
  }

  lemma {:induction false} KeepNonEmptyAppend(a: seq<string>, b: seq<string>)
    ensures KeepNonEmpty(a + b) == KeepNonEmpty(a) + KeepNonEmpty(b)
  {
    if a == [] {
      assert a + b == b;
    } else {
      assert (a + b)[1..] == a[1..] + b;
      KeepNonEmptyAppend(a[1..], b);
    }
  }

  /** What survives the filter is a stripped, hence trimmed, piece of the text. */
  lemma {:induction false} KeepNonEmptyOfPieces(text: string, blocks: seq<string>)
    requires Pieces(text, blocks)
    ensures TrimmedPieces(text, KeepNonEmpty(blocks))
  {
    if blocks != [] {
      var rest := blocks[1..];
      assert Pieces(text, rest) by {
        forall k | 0 <= k < |rest| ensures IsSubstring(rest[k], text) {
          assert rest[k] == blocks[k + 1];
        }
      }
      KeepNonEmptyOfPieces(text, rest);
      var b := Strip(blocks[0]);
      if b != [] {
        StripIsTrimmed(blocks[0]);
        StripOfPiece(blocks[0], text);
        var r := KeepNonEmpty(blocks);
        assert r == [b] + KeepNonEmpty(rest);
        forall k | 0 <= k < |r| ensures Trimmed(r[k]) && IsSubstring(r[k], text) {
          if k > 0 {
            assert r[k] == KeepNonEmpty(rest)[k - 1];
          }
        }
      }
    }
  }

  /** `extract_code_blocks`: every ```python block, then every generic block, stripped, empties dropped. */
  function ExtractCodeBlocks(text: string): (r: seq<string>)
    ensures forall k :: 0 <= k < |r| ==> r[k] != []
  {
    KeepNonEmpty(FindAll(text, 0, true) + FindAll(text, 0, false))
  }

  /** Every extracted block is a non-empty, trimmed piece of the response. */
  lemma CodeBlocksArePieces(text: string)
    ensures TrimmedPieces(text, ExtractCodeBlocks(text))
  {
    FindAllPieces(text, 0, true);
    FindAllPieces(text, 0, false);
    PiecesAppend(text, FindAll(text, 0, true), FindAll(text, 0, false));
    KeepNonEmptyOfPieces(text, FindAll(text, 0, true) + FindAll(text, 0, false));
  }

  /** A response without any ``` has no code blocks. */
  lemma NoFenceNoBlocks(text: string)
    requires !Contains(text, Fence)
    ensures ExtractCodeBlocks(text) == []
  {
    forall j: nat ensures !OpensAt(text, j, true) && !OpensAt(text, j, false) {
      assert !StartsAt(text, Fence, j, false);
      if StartsAt(text, PythonFence, j, true) {
        // "```python" begins with "```", and a backquote folds only to itself
        assert StartsAt(text, Fence, j, false);
      }
    }
    FindAllNoOpening(text, 0, true);
    FindAllNoOpening(text, 0, false);
  }

  /** The first ```python block is the first tagged match. */
  lemma FirstTaggedMatch(text: string, i: nat, q: nat)
    requires FirstBlock(text, PythonFence, Fence, true, i, q)
    ensures FindAll(text, 0, true) == [text[i + |PythonFence|..q]] + FindAll(text, q + |Fence|, true)
  {
    assert FirstOpening(text, 0, i, true);
    FindAllStep(text, 0, true, i, q);
  }

  /** A block that is not blank survives the filter, stripped, in front. */
  lemma KeepNonEmptyHead(b: string, rest: seq<string>)
    requires Strip(b) != []
    ensures KeepNonEmpty([b] + rest) == [Strip(b)] + KeepNonEmpty(rest)
  {
    assert ([b] + rest)[1..] == rest;
  }

  /** When the first ```python block is not empty, it is also the first entry of `extract_code_blocks`. */
  lemma FirstCodeBlockIsExtracted(text: string, i: nat, q: nat)
    requires FirstBlock(text, PythonFence, Fence, true, i, q)
    requires !AllSpace(text[i + |PythonFence|..q])
    ensures |ExtractCodeBlocks(text)| > 0 && ExtractCodeBlocks(text)[0] == ExtractPythonCode(text)
  {
    var raw := text[i + |PythonFence|..q];
    PythonFenceWins(text, i, q);
    StripEmptyIffBlank(raw);
    FirstTaggedMatch(text, i, q);
    KeepNonEmptyAppend(FindAll(text, 0, true), FindAll(text, 0, false));
    KeepNonEmptyHead(raw, FindAll(text, q + |Fence|, true));
  }
}
