/**
 * String primitives the three programs rely on, as the Rust standard library
 * and the regex crate define them: leftmost non-overlapping pattern search,
 * `str::replace`, splitting into lines, and `BufRead::lines`.
 */
module Text {

  /** `p` occurs in `s` starting at character position `i`. */
  predicate MatchAt(s: string, p: string, i: nat)
  {
    i + |p| <= |s| && s[i..i + |p|] == p
  }

  /** `p` occurs nowhere in `s`. */
  predicate Free(s: string, p: string)
  {
    forall i: nat :: i < |s| ==> !MatchAt(s, p, i)
  }

  /** A match one position further into `s` is a match in `s` without its first character. */
  lemma ShiftMatch(s: string, p: string, j: nat)
    requires |s| > 0
    ensures MatchAt(s[1..], p, j) <==> MatchAt(s, p, j + 1)
  {
    if j + 1 + |p| <= |s| {
      assert s[1..][j..j + |p|] == s[j + 1..j + 1 + |p|];
    }
  }

  /** Position of the leftmost occurrence of `p` in `s`, or `|s|` when there is none. */
  function Find(s: string, p: string): (i: nat)
    requires |p| > 0
    ensures i <= |s|
    ensures i < |s| ==> MatchAt(s, p, i)
    ensures forall j: nat :: j < i ==> !MatchAt(s, p, j)
    decreases |s|
  {
    if |s| < |p| then |s|
    else if s[..|p|] == p then 0
    else
      var k := Find(s[1..], p);
      assert forall j: nat :: j < 1 + k ==> !MatchAt(s, p, j) by {
        forall j: nat | j < 1 + k ensures !MatchAt(s, p, j) {
          if j > 0 {
            ShiftMatch(s, p, j - 1);
          }
        }
      }
      assert k < |s[1..]| ==> MatchAt(s, p, 1 + k) by {
        if k < |s[1..]| {
          ShiftMatch(s, p, k);
        }
      }
      1 + k
  }

  /** The pieces of `s` between the non-overlapping occurrences of `p`, found left to right. */
  function SplitOn(s: string, p: string): (parts: seq<string>)
    requires |p| > 0
    ensures |parts| >= 1
    decreases |s|
  {
    var i := Find(s, p);
    if i == |s| then [s] else [s[..i]] + SplitOn(s[i + |p|..], p)
  }

  /** The parts separated by `sep`, as Rust's `[S]::join`. */
  function Join(parts: seq<string>, sep: string): string
    requires |parts| >= 1
  {
    if |parts| == 1 then parts[0] else parts[0] + sep + Join(parts[1..], sep)
  }

  /**
   * Rust's `str::replace`: copy the text up to each leftmost match, emit the
   * replacement, and resume after the match.
   */
  function ReplaceAll(s: string, p: string, r: string): (out: string)
    requires |p| > 0
    ensures Free(s, p) ==> out == s
    decreases |s|
  {
    var i := Find(s, p);
    if i == |s| then s else s[..i] + r + ReplaceAll(s[i + |p|..], p, r)
  }

  /** Reference definition of replacement: scan one character at a time. */
  function ReplaceScan(s: string, p: string, r: string): string
    requires |p| > 0
    decreases |s|
  {
    if |s| < |p| then s
    else if s[..|p|] == p then r + ReplaceScan(s[|p|..], p, r)
    else [s[0]] + ReplaceScan(s[1..], p, r)
  }

  /** A text is what precedes a match, the match, and what follows it. */
  lemma Around(s: string, p: string, i: nat)
    requires MatchAt(s, p, i)
    ensures s == s[..i] + p + s[i + |p|..]
  {
    assert s == s[..i] + s[i..i + |p|] + s[i + |p|..];
  }

  /** Joining the pieces with the pattern they were split on gives the text back. */
  lemma {:induction false} JoinSplit(s: string, p: string)
    requires |p| > 0
    ensures Join(SplitOn(s, p), p) == s
    decreases |s|
  {
    var i := Find(s, p);
    if i < |s| {
      var rest := s[i + |p|..];
      JoinSplit(rest, p);
      Around(s, p, i);
      var parts := SplitOn(rest, p);
      assert ([s[..i]] + parts)[1..] == parts;
    }
  }

  /** Replacing is splitting on the pattern and joining with the replacement. */
  lemma {:induction false} ReplaceIsSplitJoin(s: string, p: string, r: string)
    requires |p| > 0
    ensures ReplaceAll(s, p, r) == Join(SplitOn(s, p), r)
    decreases |s|
  {
    var i := Find(s, p);
    if i < |s| {
      ReplaceIsSplitJoin(s[i + |p|..], p, r);
    }
  }

  /** When no match starts before `i`, the first `i` characters are copied verbatim. */
  lemma {:induction false} ScanCopiesPrefix(s: string, p: string, r: string, i: nat)
    requires |p| > 0 && i <= |s|
    requires forall j: nat :: j < i ==> !MatchAt(s, p, j)
    ensures ReplaceScan(s, p, r) == s[..i] + ReplaceScan(s[i..], p, r)
    decreases i
  {
    if i > 0 {
      ScanStep(s, p, r);
      forall j: nat | j < i - 1 ensures !MatchAt(s[1..], p, j) {
        ShiftMatch(s, p, j);
      }
      ScanCopiesPrefix(s[1..], p, r, i - 1);
      assert s[1..][i - 1..] == s[i..];
      assert s[..i] == [s[0]] + s[1..][..i - 1];
    }
  }

  /** Where no match starts, the scan copies one character and moves on. */
  lemma ScanStep(s: string, p: string, r: string)
    requires |p| > 0 && |s| > 0 && !MatchAt(s, p, 0)
    ensures ReplaceScan(s, p, r) == [s[0]] + ReplaceScan(s[1..], p, r)
  {
    if |s| < |p| {
      assert ReplaceScan(s[1..], p, r) == s[1..];
      assert s == [s[0]] + s[1..];
    } else {
      assert s[..|p|] == s[0..|p|];
    }
  }

  /** The search-based replacement agrees with the character scan on every input. */
  lemma {:induction false} ReplaceMatchesScan(s: string, p: string, r: string)
    requires |p| > 0
    ensures ReplaceAll(s, p, r) == ReplaceScan(s, p, r)
    decreases |s|
  {
    var i := Find(s, p);
    ScanCopiesPrefix(s, p, r, i);
    if i < |s| {
      var t := s[i..];
      assert t[..|p|] == p;
      assert t[|p|..] == s[i + |p|..];
      ReplaceMatchesScan(s[i + |p|..], p, r);
    } else {
      assert s[i..] == [];
      assert s[..i] == s;
    }
  }

  /** Replacing a pattern by itself changes nothing. */
  lemma ReplaceWithItself(s: string, p: string)
    requires |p| > 0
    ensures ReplaceAll(s, p, p) == s
  {
    ReplaceIsSplitJoin(s, p, p);
    JoinSplit(s, p);
  }

  /** A text that is exactly the pattern becomes exactly the replacement. */
  lemma ReplaceWhole(p: string, r: string)
    requires |p| > 0
    ensures ReplaceAll(p, p, r) == r
  {
    assert p[..|p|] == p;
    assert Find(p, p) == 0;
    assert p[|p|..] == [];
  }

  /** No piece produced by `SplitOn` contains the pattern it was split on. */
  lemma {:induction false} SplitPiecesFree(s: string, p: string)
    requires |p| > 0
    ensures forall k :: 0 <= k < |SplitOn(s, p)| ==> Free(SplitOn(s, p)[k], p)
    decreases |s|
  {
    var i := Find(s, p);
    assert Free(s[..i], p) by {
      forall j: nat | j < i ensures !MatchAt(s[..i], p, j) {
        if j + |p| <= i {
          assert s[..i][j..j + |p|] == s[j..j + |p|];
          assert !MatchAt(s, p, j);
        }
      }
    }
    if i < |s| {
      var rest := SplitOn(s[i + |p|..], p);
      SplitPiecesFree(s[i + |p|..], p);
      assert SplitOn(s, p) == [s[..i]] + rest;
      assert forall k :: 1 <= k < |SplitOn(s, p)| ==> SplitOn(s, p)[k] == rest[k - 1];
    } else {
      assert s[..i] == s;
    }
  }

  // ---------------------------------------------------------------------------
  // Lines

  /** `x` holds no line feed. */
  predicate NoNewline(x: string)
  {
    forall k :: 0 <= k < |x| ==> x[k] != '\n'
  }

  /** `x` ends with a carriage return. */
  predicate EndsWithCr(x: string)
  {
    |x| > 0 && x[|x| - 1] == '\r'
  }

  /** A match of the one-character pattern "\n" is a line feed. */
  lemma NewlineMatch(s: string, j: nat)
    ensures MatchAt(s, "\n", j) <==> j < |s| && s[j] == '\n'
  {
    if j < |s| {
      assert s[j..j + 1] == [s[j]];
    }
  }

  /** The leftmost line feed: nothing before it is one. */
  lemma FindNewline(s: string)
    ensures var i := Find(s, "\n"); NoNewline(s[..i]) && (i < |s| ==> s[i] == '\n')
  {
    var i := Find(s, "\n");
    forall k | 0 <= k < i ensures s[..i][k] != '\n' {
      NewlineMatch(s, k);
    }
    NewlineMatch(s, i);
  }

  /** A line feed at `i` with none before it is the one `Find` reports. */
  lemma FindNewlineAt(s: string, i: nat)
    requires i < |s| && s[i] == '\n' && NoNewline(s[..i])
    ensures Find(s, "\n") == i
  {
    var f := Find(s, "\n");
    NewlineMatch(s, i);
    NewlineMatch(s, f);
  }

  /**
   * The lines of a text as a multi-line regular expression sees them (`^` after
   * a line feed or at the start, `$` before a line feed or at the end): the
   * pieces between line feeds. A trailing line feed leaves an empty last line.
   */
  function Lines(text: string): (lines: seq<string>)
    ensures |lines| >= 1
  {
    SplitOn(text, "\n")
  }

  /** Joining the lines with line feeds gives the text back: no character is lost or added. */
  lemma LinesJoin(text: string)
    ensures Join(Lines(text), "\n") == text
  {
    JoinSplit(text, "\n");
  }

  /** `text[p..q]` is one whole line: it starts a line, ends one, and holds no line feed. */
  predicate LineSpan(text: string, p: nat, q: nat)
  {
    && p <= q <= |text|
    && (p == 0 || text[p - 1] == '\n')
    && (q == |text| || text[q] == '\n')
    && NoNewline(text[p..q])
  }

  /** The first line runs up to the first line feed; the rest are the lines after it. */
  lemma LinesStep(text: string)
    ensures Find(text, "\n") == |text| ==> Lines(text) == [text]
    ensures Find(text, "\n") < |text| ==>
      Lines(text) == [text[..Find(text, "\n")]] + Lines(text[Find(text, "\n") + 1..])
  {
  }

  /** Every line is a whole-line span of the text; `p` and `q` locate it. */
  lemma {:induction false} LineHasSpan(text: string, l: string) returns (p: nat, q: nat)
    requires l in Lines(text)
    ensures LineSpan(text, p, q) && text[p..q] == l
    decreases |text|
  {
    var i := Find(text, "\n");
    FindNewline(text);
    LinesStep(text);
    if i == |text| {
      assert text[..i] == text;
      p, q := 0, |text|;
    } else {
      var rest := text[i + 1..];
      if l == text[..i] {
        p, q := 0, i;
      } else {
        var p', q' := LineHasSpan(rest, l);
        p, q := p' + i + 1, q' + i + 1;
        SuffixSpan(text, i + 1, p', q');
      }
    }
  }

  /** A span without line feeds has none at any index inside it. */
  lemma NoNewlineIn(s: string, p: nat, q: nat, k: int)
    requires p <= q <= |s| && NoNewline(s[p..q])
    ensures p <= k < q ==> s[k] != '\n'
  {
    if p <= k < q {
      assert s[p..q][k - p] == s[k];
    }
  }

  /** A span of a suffix is a span of the whole text, shifted. */
  lemma SuffixSpan(s: string, d: nat, p: nat, q: nat)
    requires d <= |s| && p <= q <= |s| - d
    ensures s[d..][p..q] == s[d + p..d + q]
    ensures p > 0 ==> s[d..][p - 1] == s[d + p - 1]
    ensures q < |s| - d ==> s[d..][q] == s[d + q]
  {
  }

  /** A whole-line span starting the text ends at the first line feed. */
  lemma FirstLineSpan(text: string, q: nat)
    requires LineSpan(text, 0, q)
    ensures q == Find(text, "\n")
  {
    var i := Find(text, "\n");
    FindNewline(text);
    NoNewlineIn(text, 0, i, q);
    NoNewlineIn(text, 0, q, i);
  }

  /** A whole-line span that does not start the text lies past the first line feed. */
  lemma LaterLineSpan(text: string, p: nat, q: nat)
    requires LineSpan(text, p, q) && p > 0
    ensures Find(text, "\n") < p
    ensures LineSpan(text[Find(text, "\n") + 1..], p - Find(text, "\n") - 1, q - Find(text, "\n") - 1)
    ensures text[Find(text, "\n") + 1..][p - Find(text, "\n") - 1..q - Find(text, "\n") - 1] == text[p..q]
  {
    var i := Find(text, "\n");
    FindNewline(text);
    NoNewlineIn(text, 0, i, p - 1);
    SuffixSpan(text, i + 1, p - i - 1, q - i - 1);
  }

  /** Every whole-line span of the text is one of its lines. */
  lemma {:induction false} SpanIsLine(text: string, p: nat, q: nat)
    requires LineSpan(text, p, q)
    ensures text[p..q] in Lines(text)
    decreases |text|
  {
    var i := Find(text, "\n");
    if p == 0 {
      FirstLineSpan(text, q);
      assert text[p..q] == text[..i];
      if i == |text| {
        assert text[..i] == text;
        assert Lines(text) == [text];
      } else {
        assert Lines(text) == [text[..i]] + Lines(text[i + 1..]);
      }
    } else {
      LaterLineSpan(text, p, q);
      var rest := text[i + 1..];
      assert Lines(text) == [text[..i]] + Lines(rest);
      SpanIsLine(rest, p - i - 1, q - i - 1);
    }
  }

  /** The lines are exactly the whole-line spans of the text. */
  lemma LinesAt(text: string, l: string)
    ensures l in Lines(text) <==> exists p: nat, q: nat :: LineSpan(text, p, q) && text[p..q] == l
  {
    if l in Lines(text) {
      var p, q := LineHasSpan(text, l);
    }
    forall p: nat, q: nat | LineSpan(text, p, q) && text[p..q] == l ensures l in Lines(text) {
      SpanIsLine(text, p, q);
    }
  }

  /** `x` without one trailing carriage return, as `BufRead::lines` trims "\r\n". */
  function DropCr(x: string): (y: string)
  {
    if EndsWithCr(x) then x[..|x| - 1] else x
  }

  /**
   * The lines `BufRead::lines` yields: each ends at a line feed, which is
   * dropped together with a carriage return just before it; an empty text has
   * no lines and a final line feed does not start another one.
   */
  function ReadLines(s: string): (lines: seq<string>)
    ensures forall k :: 0 <= k < |lines| ==> NoNewline(lines[k])
    decreases |s|
  {
    if |s| == 0 then []
    else
      var i := Find(s, "\n");
      FindNewline(s);
      if i == |s| then
        assert s[..i] == s;
        [s]
      else
        [DropCr(s[..i])] + ReadLines(s[i + 1..])
  }

  /** Every entry followed by a line feed, concatenated in order. */
  function Terminated(entries: seq<string>): string
  {
    if |entries| == 0 then "" else entries[0] + "\n" + Terminated(entries[1..])
  }

  /** Appending an entry appends its line. */
  lemma {:induction false} TerminatedAppend(entries: seq<string>, e: string)
    ensures Terminated(entries + [e]) == Terminated(entries) + e + "\n"
    decreases |entries|
  {
    if |entries| > 0 {
      assert (entries + [e])[1..] == entries[1..] + [e];
      TerminatedAppend(entries[1..], e);
    } else {
      assert entries + [e] == [e];
    }
  }

  /** The terminated text is empty exactly when there are no entries, and otherwise ends with a line feed. */
  lemma TerminatedShape(entries: seq<string>)
    ensures Terminated(entries) == "" <==> |entries| == 0
    ensures |entries| > 0 ==> Terminated(entries)[|Terminated(entries)| - 1] == '\n'
  {
    if |entries| > 0 {
      var t := Terminated(entries[1..]);
      if |t| == 0 {
        assert Terminated(entries) == entries[0] + "\n";
      }
    }
  }

  /** An entry without line feeds followed by one is read back as the first line. */
  lemma ReadStep(e: string, tail: string)
    requires NoNewline(e)
    ensures ReadLines(e + "\n" + tail) == [DropCr(e)] + ReadLines(tail)
  {
    var s := e + "\n" + tail;
    assert s[..|e|] == e;
    FindNewlineAt(s, |e|);
    assert s[|e| + 1..] == tail;
  }

  /** Reading back the lines of a terminated text gives the entries, provided none holds a line feed or ends in a carriage return. */
  lemma {:induction false} ReadTerminated(entries: seq<string>)
    requires forall k :: 0 <= k < |entries| ==> NoNewline(entries[k]) && !EndsWithCr(entries[k])
    ensures ReadLines(Terminated(entries)) == entries
    decreases |entries|
  {
    if |entries| > 0 {
      var e := entries[0];
      var s := Terminated(entries);
      var tail := Terminated(entries[1..]);
      assert s == e + "\n" + tail;
      ReadStep(e, tail);
      ReadTerminated(entries[1..]);
    }
  }

  /** No line holds a line feed. */
  lemma LinesHaveNoNewline(text: string)
    ensures forall l :: l in Lines(text) ==> NoNewline(l)
  {
    SplitPiecesFree(text, "\n");
    forall l | l in Lines(text) ensures NoNewline(l) {
      forall k | 0 <= k < |l| ensures l[k] != '\n' {
        NewlineMatch(l, k);
      }
    }
  }
}
