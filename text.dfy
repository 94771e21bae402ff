/**
 * String handling of the Banco de Galicia import: splitting the raw export
 * into lines and dropping the bank's metadata preamble (`csv_rows`), and the
 * whitespace cleaning applied to the `Movimiento` description.
 */
module Text {

  /** Number of metadata lines the bank writes before the CSV header. */
  const PreambleLines: nat := 5

  // ---------------------------------------------------------------------
  // Lines, as Ruby's `String#lines` with the default separator "\n"
  // ---------------------------------------------------------------------

  /** Length of the first line of `s`, its terminating newline included. */
  function LineEnd(s: string): (n: nat)
    ensures n <= |s|
    ensures s != [] ==> 0 < n
    ensures forall i :: 0 <= i < n - 1 ==> s[i] != '\n'
    ensures s != [] && n < |s| ==> s[n - 1] == '\n'
  {
    if s == [] then 0
    else if s[0] == '\n' then 1
    else 1 + LineEnd(s[1..])
  }

  /** The lines of `s`; every one but possibly the last ends with its newline. */
  function Lines(s: string): seq<string>
    decreases |s|
  {
    if s == [] then [] else [s[..LineEnd(s)]] + Lines(s[LineEnd(s)..])
  }

  /** Ruby's `Array#join` with no separator. */
  function Concat(ls: seq<string>): string
  {
    if ls == [] then [] else ls[0] + Concat(ls[1..])
  }

  /** Ruby's `Array#drop(k)`: nothing is left when `k` exceeds the length. */
  function Drop<T>(xs: seq<T>, k: nat): (r: seq<T>)
    ensures k <= |xs| ==> r == xs[k..]
    ensures |xs| <= k ==> r == []
  {
    if k <= |xs| then xs[k..] else []
  }

  /** `s.lines.drop(k).join`. */
  function DropLines(s: string, k: nat): string
  {
    Concat(Drop(Lines(s), k))
  }

  /** What `csv_rows` hands to the CSV parser: the export without its preamble. */
  function StripPreamble(raw: string): string
  {
    DropLines(raw, PreambleLines)
  }

  /**
   * An independent, character-by-character reference: skip `k` newline
   * characters (everything up to and including the k-th "\n").
   */
  function SkipLines(s: string, k: nat): string
  {
    if k == 0 || s == [] then s
    else if s[0] == '\n' then SkipLines(s[1..], k - 1)
    else SkipLines(s[1..], k)
  }

  /** A well-formed line: non-empty, with a newline only as its last character. */
  predicate IsLine(l: string)
  {
    l != [] && forall i :: 0 <= i < |l| - 1 ==> l[i] != '\n'
  }

  /** The splitting loses nothing: re-joining the lines gives back `s`. */
  lemma {:induction false} ConcatLines(s: string)
    ensures Concat(Lines(s)) == s
    decreases |s|
  {
    if s != [] {
      var n := LineEnd(s);
      ConcatLines(s[n..]);
      assert s == s[..n] + s[n..];
    }
  }

  /** Every piece is a line, and every piece but the last ends with "\n". */
  lemma {:induction false} LinesShape(s: string)
    ensures forall i :: 0 <= i < |Lines(s)| ==>
      IsLine(Lines(s)[i]) && (i < |Lines(s)| - 1 ==> Lines(s)[i][|Lines(s)[i]| - 1] == '\n')
    decreases |s|
  {
    if s != [] {
      var n := LineEnd(s);
      LinesShape(s[n..]);
      var ls := Lines(s);
      assert ls == [s[..n]] + Lines(s[n..]);
      forall i | 0 <= i < |ls|
        ensures IsLine(ls[i]) && (i < |ls| - 1 ==> ls[i][|ls[i]| - 1] == '\n')
      {
        if i == 0 {
          if 1 < |ls| { assert s[n..] != [] by { assert Lines(s[n..]) != []; } }
        } else {
          assert ls[i] == Lines(s[n..])[i - 1];
        }
      }
    }
  }

  /** Skipping `k > 0` lines is skipping the first line, then `k - 1` more. */
  lemma {:induction false} SkipFirstLine(s: string, k: nat)
    requires s != [] && 0 < k
    ensures SkipLines(s, k) == SkipLines(s[LineEnd(s)..], k - 1)
    decreases |s|
  {
    if s[0] != '\n' {
      if s[1..] == [] {
        assert SkipLines(s[1..], k) == [];
      } else {
        SkipFirstLine(s[1..], k);
        assert s[1..][LineEnd(s[1..])..] == s[LineEnd(s)..];
      }
    }
  }

  /** Dropping `k` lines and re-joining is the same as skipping `k` newlines. */
  lemma {:induction false} DropLinesIsSkipLines(s: string, k: nat)
    ensures DropLines(s, k) == SkipLines(s, k)
    decreases |s|
  {
    if s == [] {
    } else if k == 0 {
      ConcatLines(s);
    } else {
      var n := LineEnd(s);
      assert Lines(s) == [s[..n]] + Lines(s[n..]);
      assert Drop(Lines(s), k) == Drop(Lines(s[n..]), k - 1);
      DropLinesIsSkipLines(s[n..], k - 1);
      SkipFirstLine(s, k);
    }
  }

  lemma {:induction false} LinesOfSkipLines(s: string, k: nat)
    ensures Lines(SkipLines(s, k)) == Drop(Lines(s), k)
    decreases |s|
  {
    if s != [] && k != 0 {
      var n := LineEnd(s);
      assert Lines(s) == [s[..n]] + Lines(s[n..]);
      assert Drop(Lines(s), k) == Drop(Lines(s[n..]), k - 1);
      SkipFirstLine(s, k);
      LinesOfSkipLines(s[n..], k - 1);
    }
  }

  /** The remaining text splits into exactly the lines that were kept. */
  lemma LinesOfDropLines(s: string, k: nat)
    ensures Lines(DropLines(s, k)) == Drop(Lines(s), k)
  {
    DropLinesIsSkipLines(s, k);
    LinesOfSkipLines(s, k);
  }

  /** `s` is the first `min(k, #lines)` lines followed by what `DropLines` keeps. */
  lemma {:induction false} DropLinesSplit(s: string, k: nat)
    ensures s == Concat(Lines(s)[..if k <= |Lines(s)| then k else |Lines(s)|]) + DropLines(s, k)
    decreases |s|
  {
    if s == [] {
    } else if k == 0 {
      ConcatLines(s);
    } else {
      var n := LineEnd(s);
      var head, rest := s[..n], s[n..];
      var tail := Lines(rest);
      assert Lines(s) == [head] + tail;
      DropLinesSplit(rest, k - 1);
      var m := if k <= |Lines(s)| then k else |Lines(s)|;
      ConcatTakeCons(head, tail, m);
      DropCons(head, tail, k);
      assert s == head + rest;
    }
  }

  lemma ConcatTakeCons(x: string, rest: seq<string>, m: nat)
    requires 1 <= m <= |rest| + 1
    ensures Concat(([x] + rest)[..m]) == x + Concat(rest[..m - 1])
  {
    assert ([x] + rest)[..m] == [x] + rest[..m - 1];
  }

  lemma DropCons<T>(x: T, rest: seq<T>, k: nat)
    requires 1 <= k
    ensures Drop([x] + rest, k) == Drop(rest, k - 1)
  {
    if k <= |rest| + 1 {
      assert ([x] + rest)[k..] == rest[k - 1..];
    }
  }

  /** Concat of non-empty pieces is empty exactly when there are none. */
  lemma {:induction false} ConcatLinesEmpty(ls: seq<string>)
    requires forall i :: 0 <= i < |ls| ==> IsLine(ls[i])
    ensures Concat(ls) == [] <==> ls == []
  {
    if ls != [] {
      assert IsLine(ls[0]);
      assert |Concat(ls)| >= |ls[0]|;
    }
  }

  /** Nothing is left exactly when there are at most `k` lines. */
  lemma DropLinesEmpty(s: string, k: nat)
    ensures DropLines(s, k) == [] <==> |Lines(s)| <= k
  {
    LinesShape(s);
    var kept := Drop(Lines(s), k);
    forall i | 0 <= i < |kept|
      ensures IsLine(kept[i])
    {
      assert kept[i] == Lines(s)[k + i];
    }
    ConcatLinesEmpty(kept);
  }

  /** What `DropLines` keeps is a suffix of the text. */
  lemma DropLinesSuffix(s: string, k: nat)
    ensures |DropLines(s, k)| <= |s| && DropLines(s, k) == s[|s| - |DropLines(s, k)|..]
  {
    DropLinesSplit(s, k);
    var m := if k <= |Lines(s)| then k else |Lines(s)|;
    var prefix := Concat(Lines(s)[..m]);
    assert s[|prefix|..] == DropLines(s, k);
  }

  /**
   * What the parser receives is a suffix of the raw text, with exactly the first
   * `min(5, #lines)` lines removed, split into exactly the remaining lines; it
   * is empty exactly when the raw text has at most five lines.
   */
  lemma PreambleDropped(raw: string)
    ensures var rest := StripPreamble(raw);
      var m := if PreambleLines <= |Lines(raw)| then PreambleLines else |Lines(raw)|;
      && raw == Concat(Lines(raw)[..m]) + rest
      && rest == raw[|raw| - |rest|..]
      && Lines(rest) == Drop(Lines(raw), PreambleLines)
      && (rest == [] <==> |Lines(raw)| <= PreambleLines)
      && rest == SkipLines(raw, PreambleLines)
  {
    DropLinesSplit(raw, PreambleLines);
    DropLinesSuffix(raw, PreambleLines);
    LinesOfDropLines(raw, PreambleLines);
    DropLinesIsSkipLines(raw, PreambleLines);
    DropLinesEmpty(raw, PreambleLines);
  }

  // ---------------------------------------------------------------------
  // Whitespace: `gsub(/\s+/, " ")`, `strip`, and Rails' `blank?`
  // ---------------------------------------------------------------------

  /** Ruby's regular-expression `\s`: ASCII space, tab, LF, VT, FF and CR. */
  predicate IsRegexSpace(c: char)
  {
    c == ' ' || c == '\t' || c == '\n' || c == '\U{0B}' || c == '\U{0C}' || c == '\r'
  }

  /** What `String#strip` removes from either end: `\s` and NUL. */
  predicate IsStripSpace(c: char)
  {
    IsRegexSpace(c) || c == '\0'
  }

  /** Unicode White_Space, which Rails' `blank?` tests with `[[:space:]]`. */
  predicate IsUnicodeSpace(c: char)
  {
    ('\t' <= c <= '\r') || c == ' ' || c == '\U{85}' || c == '\U{A0}' || c == '\U{1680}'
    || ('\U{2000}' <= c <= '\U{200A}') || c == '\U{2028}' || c == '\U{2029}'
    || c == '\U{202F}' || c == '\U{205F}' || c == '\U{3000}'
  }

  /** Rails' `String#blank?`: empty or only whitespace. */
  predicate IsBlank(s: string)
  {
    forall i :: 0 <= i < |s| ==> IsUnicodeSpace(s[i])
  }

  /** Every `\s` is a single plain space, never followed by another `\s`. */
  predicate SingleSpaced(s: string)
  {
    forall i :: 0 <= i < |s| && IsRegexSpace(s[i]) ==>
      s[i] == ' ' && (i + 1 < |s| ==> !IsRegexSpace(s[i + 1]))
  }

  /** `s` without its leading run of `\s`. */
  function SkipSpaces(s: string): (r: string)
    ensures |r| <= |s| && r == s[|s| - |r|..]
    ensures r != [] ==> !IsRegexSpace(r[0])
    ensures forall i :: 0 <= i < |s| - |r| ==> IsRegexSpace(s[i])
  {
    if s != [] && IsRegexSpace(s[0]) then
      var r := SkipSpaces(s[1..]);
      assert s[1..][|s[1..]| - |r|..] == s[|s| - |r|..];
      assert forall i :: 1 <= i < |s| - |r| ==> s[i] == s[1..][i - 1];
      r
    else s
  }

  /** `gsub(/\s+/, " ")`: every maximal run of `\s` becomes one space. */
  function CollapseSpaces(s: string): (r: string)
    ensures SingleSpaced(r)
    ensures s == [] <==> r == []
    ensures s != [] ==> (if IsRegexSpace(s[0]) then r[0] == ' ' else r[0] == s[0])
    decreases |s|
  {
    if s == [] then []
    else if IsRegexSpace(s[0]) then
      var t := SkipSpaces(s[1..]);
      var c := CollapseSpaces(t);
      var r := [' '] + c;
      assert c != [] ==> c[0] == t[0] && !IsRegexSpace(c[0]);
      assert forall i :: 1 <= i < |r| ==> r[i] == c[i - 1];
      r
    else
      var c := CollapseSpaces(s[1..]);
      var r := [s[0]] + c;
      assert forall i :: 1 <= i < |r| ==> r[i] == c[i - 1];
      r
  }

  /** `lstrip`. */
  function StripLeft(s: string): (r: string)
    ensures |r| <= |s| && r == s[|s| - |r|..]
    ensures r != [] ==> !IsStripSpace(r[0])
    ensures forall i :: 0 <= i < |s| - |r| ==> IsStripSpace(s[i])
  {
    if s != [] && IsStripSpace(s[0]) then
      var r := StripLeft(s[1..]);
      assert s[1..][|s[1..]| - |r|..] == s[|s| - |r|..];
      assert forall i :: 1 <= i < |s| - |r| ==> s[i] == s[1..][i - 1];
      r
    else s
  }

  /** `rstrip`. */
  function StripRight(s: string): (r: string)
    ensures |r| <= |s| && r == s[..|r|]
    ensures r != [] ==> !IsStripSpace(r[|r| - 1])
    ensures forall i :: |r| <= i < |s| ==> IsStripSpace(s[i])
  {
    if s != [] && IsStripSpace(s[|s| - 1]) then
      var r := StripRight(s[..|s| - 1]);
      assert s[..|s| - 1][..|r|] == s[..|r|];
      assert forall i :: |r| <= i < |s| - 1 ==> s[i] == s[..|s| - 1][i];
      r
    else s
  }

  function Strip(s: string): string
  {
    StripRight(StripLeft(s))
  }

  /** The description cleaning of `generate_rows_from_csv`: `gsub(/\s+/, " ").strip`. */
  function Clean(s: string): string
  {
    Strip(CollapseSpaces(s))
  }

  /** The characters `strip` would never remove, in order. */
  function Visible(s: string): string
  {
    if s == [] then []
    else if IsStripSpace(s[0]) then Visible(s[1..])
    else [s[0]] + Visible(s[1..])
  }

  lemma {:induction false} VisibleAppend(a: string, b: string)
    ensures Visible(a + b) == Visible(a) + Visible(b)
  {
    if a != [] {
      assert (a + b)[0] == a[0];
      assert (a + b)[1..] == a[1..] + b;
      VisibleAppend(a[1..], b);
      if !IsStripSpace(a[0]) {
        calc {
          Visible(a + b);
          [a[0]] + Visible(a[1..] + b);
          [a[0]] + (Visible(a[1..]) + Visible(b));
          ([a[0]] + Visible(a[1..])) + Visible(b);
        }
      }
    } else {
      assert a + b == b;
    }
  }

  lemma {:induction false} VisibleOfSpaces(s: string)
    requires forall i :: 0 <= i < |s| ==> IsStripSpace(s[i])
    ensures Visible(s) == []
  {
    if s != [] { VisibleOfSpaces(s[1..]); }
  }

  /** Collapsing keeps every character `strip` would keep, in order. */
  lemma VisibleCollapse(s: string)
    ensures Visible(CollapseSpaces(s)) == Visible(s)
  {
    CollapseIsSqueeze(s);
    VisibleSqueeze(s, false);
  }

  lemma {:induction false} VisibleSqueeze(s: string, afterSpace: bool)
    ensures Visible(Squeeze(s, afterSpace)) == Visible(s)
  {
    if s != [] {
      var next := IsRegexSpace(s[0]);
      var e := Emit(s[0], afterSpace);
      VisibleSqueeze(s[1..], next);
      VisibleAppend(e, Squeeze(s[1..], next));
      if e != [] {
        assert e[1..] == [];
      }
      assert Visible(e) == if IsStripSpace(s[0]) then [] else [s[0]];
    }
  }

  lemma {:induction false} VisibleStripLeft(s: string)
    ensures Visible(StripLeft(s)) == Visible(s)
  {
    if s != [] && IsStripSpace(s[0]) {
      VisibleStripLeft(s[1..]);
    }
  }

  lemma VisibleStripRight(s: string)
    ensures Visible(StripRight(s)) == Visible(s)
  {
    var r := StripRight(s);
    assert s == r + s[|r|..];
    VisibleAppend(r, s[|r|..]);
    VisibleOfSpaces(s[|r|..]);
  }

  lemma VisibleStrip(s: string)
    ensures Visible(Strip(s)) == Visible(s)
  {
    VisibleStripLeft(s);
    VisibleStripRight(StripLeft(s));
  }

  lemma SingleSpacedSlice(s: string, a: nat, b: nat)
    requires a <= b <= |s| && SingleSpaced(s)
    ensures SingleSpaced(s[a..b])
  {
    var t := s[a..b];
    forall i | 0 <= i < |t| && IsRegexSpace(t[i])
      ensures t[i] == ' ' && (i + 1 < |t| ==> !IsRegexSpace(t[i + 1]))
    {
      assert t[i] == s[a + i];
      if i + 1 < |t| { assert t[i + 1] == s[a + i + 1]; }
    }
  }

  /** A single-spaced string holds no line break. */
  lemma SingleSpacedNoLineBreak(s: string)
    requires SingleSpaced(s)
    ensures forall i :: 0 <= i < |s| ==> s[i] != '\n' && s[i] != '\r'
  {
    forall i | 0 <= i < |s|
      ensures s[i] != '\n' && s[i] != '\r'
    {
      if IsRegexSpace(s[i]) { assert s[i] == ' '; }
    }
  }

  lemma CleanSingleSpaced(s: string)
    ensures SingleSpaced(Clean(s))
  {
    var c := CollapseSpaces(s);
    var l := StripLeft(c);
    SingleSpacedSlice(c, |c| - |l|, |c|);
    SingleSpacedSlice(l, 0, |StripRight(l)|);
  }

  lemma CleanEdges(s: string)
    ensures var r := Clean(s); r != [] ==> !IsStripSpace(r[0]) && !IsStripSpace(r[|r| - 1])
  {
    var l := StripLeft(CollapseSpaces(s));
    var r := StripRight(l);
    if r != [] {
      assert r[0] == l[0];
    }
  }

  /**
   * The cleaned description is a single line without doubled or edge
   * whitespace, and it keeps every visible character of the input, in order.
   */
  lemma CleanShape(s: string)
    ensures var r := Clean(s);
      && SingleSpaced(r)
      && (forall i :: 0 <= i < |r| ==> r[i] != '\n' && r[i] != '\r')
      && (r != [] ==> !IsStripSpace(r[0]) && !IsStripSpace(r[|r| - 1]))
      && Visible(r) == Visible(s)
      && r == Strip(Squeeze(s, false))
  {
    CollapseIsSqueeze(s);
    CleanSingleSpaced(s);
    SingleSpacedNoLineBreak(Clean(s));
    CleanEdges(s);
    VisibleCollapse(s);
    VisibleStrip(CollapseSpaces(s));
  }

  /** The cleaned description is empty exactly when the input had only whitespace and NULs. */
  lemma CleanEmpty(s: string)
    ensures Clean(s) == [] <==> Visible(s) == []
  {
    CleanShape(s);
    var r := Clean(s);
    if r != [] {
      assert Visible(r) == [r[0]] + Visible(r[1..]);
    }
  }

  lemma {:induction false} CollapseFixpoint(s: string)
    requires SingleSpaced(s)
    ensures CollapseSpaces(s) == s
    decreases |s|
  {
    if s != [] {
      SingleSpacedSlice(s, 1, |s|);
      CollapseFixpoint(s[1..]);
      if IsRegexSpace(s[0]) {
        assert s[1..] != [] ==> !IsRegexSpace(s[1..][0]);
      }
    }
  }

  /** Cleaning twice is cleaning once. */
  lemma CleanIdempotent(s: string)
    ensures Clean(Clean(s)) == Clean(s)
  {
    var r := Clean(s);
    CleanShape(s);
    CollapseFixpoint(r);
    assert StripLeft(r) == r;
    assert StripRight(r) == r;
  }

  // ---------------------------------------------------------------------
  // `gsub(/\s+/, " ")` read one character at a time
  // ---------------------------------------------------------------------

  /**
   * What one input character contributes to `gsub(/\s+/, " ")`, given whether
   * the character before it was a `\s`: a non-`\s` is kept, the first `\s` of
   * a run becomes a space, and every further `\s` of the run is dropped.
   */
  function Emit(c: char, afterSpace: bool): string
  {
    if !IsRegexSpace(c) then [c] else if afterSpace then [] else [' ']
  }

  /**
   * An independent reading of `gsub(/\s+/, " ")`: position `i` contributes
   * `Emit(s[i], s[i-1] is \s)`; `afterSpace` is the state before `s[0]`.
   */
  function Squeeze(s: string, afterSpace: bool): string
  {
    if s == [] then [] else Emit(s[0], afterSpace) + Squeeze(s[1..], IsRegexSpace(s[0]))
  }

  /** The state after reading `a` from state `afterSpace`. */
  function EndsAfterSpace(a: string, afterSpace: bool): bool
  {
    if a == [] then afterSpace else IsRegexSpace(a[|a| - 1])
  }

  lemma {:induction false} SqueezeAppend(a: string, b: string, afterSpace: bool)
    ensures Squeeze(a + b, afterSpace) == Squeeze(a, afterSpace) + Squeeze(b, EndsAfterSpace(a, afterSpace))
  {
    if a == [] {
      assert a + b == b;
    } else {
      assert (a + b)[0] == a[0];
      assert (a + b)[1..] == a[1..] + b;
      var next := IsRegexSpace(a[0]);
      SqueezeAppend(a[1..], b, next);
      if a[1..] != [] {
        assert a[1..][|a[1..]| - 1] == a[|a| - 1];
      }
      assert EndsAfterSpace(a[1..], next) == EndsAfterSpace(a, afterSpace);
      calc {
        Squeeze(a + b, afterSpace);
        Emit(a[0], afterSpace) + Squeeze(a[1..] + b, next);
        Emit(a[0], afterSpace) + (Squeeze(a[1..], next) + Squeeze(b, EndsAfterSpace(a, afterSpace)));
        (Emit(a[0], afterSpace) + Squeeze(a[1..], next)) + Squeeze(b, EndsAfterSpace(a, afterSpace));
      }
    }
  }

  /** Right after a `\s`, the rest of a run contributes nothing. */
  lemma {:induction false} SqueezeSkip(t: string)
    ensures Squeeze(t, true) == Squeeze(SkipSpaces(t), true)
  {
    if t != [] && IsRegexSpace(t[0]) {
      SqueezeSkip(t[1..]);
    }
  }

  lemma SqueezeStart(u: string)
    requires u == [] || !IsRegexSpace(u[0])
    ensures Squeeze(u, true) == Squeeze(u, false)
  {
  }

  /** `CollapseSpaces` agrees with the character-by-character reading on every input. */
  lemma {:induction false} CollapseIsSqueeze(s: string)
    ensures CollapseSpaces(s) == Squeeze(s, false)
    decreases |s|
  {
    if s != [] {
      if IsRegexSpace(s[0]) {
        var t := SkipSpaces(s[1..]);
        CollapseIsSqueeze(t);
        SqueezeStart(t);
        SqueezeSkip(s[1..]);
      } else {
        CollapseIsSqueeze(s[1..]);
      }
    }
  }

  /** A non-empty run of `\s` gives one space, or nothing right after a `\s`. */
  lemma {:induction false} SqueezeRun(w: string, afterSpace: bool)
    requires w != [] && forall i :: 0 <= i < |w| ==> IsRegexSpace(w[i])
    ensures Squeeze(w, afterSpace) == if afterSpace then [] else " "
  {
    if w[1..] != [] {
      SqueezeRun(w[1..], true);
    }
  }

  /** Text without `\s` goes through unchanged. */
  lemma {:induction false} SqueezeNoSpace(s: string, afterSpace: bool)
    requires forall i :: 0 <= i < |s| ==> !IsRegexSpace(s[i])
    ensures Squeeze(s, afterSpace) == s
  {
    if s != [] {
      SqueezeNoSpace(s[1..], false);
    }
  }

  /** A whole run of `\s` in front of `b` contributes exactly one space. */
  lemma SqueezeRunThen(w: string, b: string)
    requires w != [] && forall i :: 0 <= i < |w| ==> IsRegexSpace(w[i])
    requires b == [] || !IsRegexSpace(b[0])
    ensures Squeeze(w + b, false) == " " + Squeeze(b, false)
  {
    SqueezeAppend(w, b, false);
    assert EndsAfterSpace(w, false);
    SqueezeRun(w, false);
    SqueezeStart(b);
  }

  /**
   * Each maximal run of `\s` becomes exactly one space in the same place:
   * collapsing `a + w + b`, with `w` a whole run, is collapsing `a`, one
   * space, and collapsing `b`.
   */
  lemma CollapseRun(a: string, w: string, b: string)
    requires a == [] || !IsRegexSpace(a[|a| - 1])
    requires w != [] && forall i :: 0 <= i < |w| ==> IsRegexSpace(w[i])
    requires b == [] || !IsRegexSpace(b[0])
    ensures CollapseSpaces(a + w + b) == CollapseSpaces(a) + " " + CollapseSpaces(b)
  {
    var wb := w + b;
    assert a + w + b == a + wb;
    SqueezeRunThen(w, b);
    SqueezeSplit(a, wb);
    CollapseIsSqueeze(a + wb);
    CollapseIsSqueeze(a);
    CollapseIsSqueeze(b);
    JoinAroundSpace(CollapseSpaces(a + wb), Squeeze(a + wb, false), Squeeze(wb, false),
                    CollapseSpaces(a), CollapseSpaces(b));
  }

  /** From `whole == left + tail` and `tail == " " + right`, `whole` is `left`, a space and `right`. */
  lemma JoinAroundSpace(whole: string, squeezed: string, tail: string, left: string, right: string)
    requires whole == squeezed && squeezed == left + tail && tail == " " + right
    ensures whole == left + " " + right
  {
  }

  /** After a non-`\s` (or at the start), reading goes on as from the start. */
  lemma SqueezeSplit(a: string, rest: string)
    requires a == [] || !IsRegexSpace(a[|a| - 1])
    ensures Squeeze(a + rest, false) == Squeeze(a, false) + Squeeze(rest, false)
  {
    SqueezeAppend(a, rest, false);
  }

  /** Text without `\s` is left as it is by collapsing. */
  lemma CollapseNoSpace(s: string)
    requires forall i :: 0 <= i < |s| ==> !IsRegexSpace(s[i])
    ensures CollapseSpaces(s) == s
  {
    CollapseIsSqueeze(s);
    SqueezeNoSpace(s, false);
  }

  /** `strip` leaves a text alone whose first and last characters are kept. */
  lemma StripKeeps(c: string)
    requires c != [] && !IsStripSpace(c[0]) && !IsStripSpace(c[|c| - 1])
    ensures Strip(c) == c
  {
    assert StripLeft(c) == c;
  }

  /**
   * Two words separated by any run of `\s` (a line break and indentation, say)
   * clean to the two words joined by one space.
   */
  lemma CleanJoinsWords(a: string, w: string, b: string)
    requires a != [] && forall i :: 0 <= i < |a| ==> !IsStripSpace(a[i])
    requires w != [] && forall i :: 0 <= i < |w| ==> IsRegexSpace(w[i])
    requires b != [] && forall i :: 0 <= i < |b| ==> !IsStripSpace(b[i])
    ensures Clean(a + w + b) == a + " " + b
  {
    CollapseNoSpace(a);
    CollapseNoSpace(b);
    CollapseRun(a, w, b);
    var c := a + " " + b;
    assert c[0] == a[0];
    assert c[|c| - 1] == b[|b| - 1];
    StripKeeps(c);
  }
}
