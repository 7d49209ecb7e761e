/** Code spans and code fences, and how a CommonMark reader takes them apart
    again. sanitize is what the terminal will make of a text; nothing is assumed
    of it. */
module CodeSpans {
  import opened Basics
  import opened Text

  const TICK: char := '`'

  // ---------- runs of backticks ----------

  /** How many backticks stand at i. */
  function Run(s: string, i: nat): (n: nat)
    requires i <= |s|
    ensures i + n <= |s|
    ensures forall k :: i <= k < i + n ==> s[k] == TICK
    ensures i + n < |s| ==> s[i + n] != TICK
    decreases |s| - i
  {
    if i < |s| && s[i] == TICK then 1 + Run(s, i + 1) else 0
  }

  function Trailing(s: string): (n: nat)
    ensures n <= |s|
    ensures forall k :: |s| - n <= k < |s| ==> s[k] == TICK
    ensures n < |s| ==> s[|s| - n - 1] != TICK
  {
    if s != [] && s[|s| - 1] == TICK then 1 + Trailing(s[..|s| - 1]) else 0
  }

  function Max(a: nat, b: nat): nat {
    if a < b then b else a
  }

  function Longest(s: string): nat {
    if s == [] then 0 else Max(Longest(s[..|s| - 1]), Trailing(s))
  }

  method LongestRun(s: string) returns (longest: nat)
    ensures longest == Longest(s)
  {
    longest := 0;
    var run := 0;
    for i := 0 to |s|
      invariant longest == Longest(s[..i]) && run == Trailing(s[..i]) && run <= longest
    {
      assert s[..i + 1][..i] == s[..i];
      if s[i] == TICK {
        run := run + 1;
        if run > longest {
          longest := run;
        }
      } else {
        run := 0;
      }
    }
    assert s[..|s|] == s;
  }

  predicate AllTicks(s: string, lo: nat, hi: nat) {
    lo <= hi <= |s| && forall k :: lo <= k < hi ==> s[k] == TICK
  }

  lemma {:induction false} TrailingCovers(s: string, lo: nat)
    requires AllTicks(s, lo, |s|)
    ensures |s| - lo <= Trailing(s)
  {
  }

  /** No stretch of backticks anywhere is longer, and one is as long. */
  lemma {:induction false} LongestIsLongest(s: string, lo: nat, hi: nat)
    requires AllTicks(s, lo, hi)
    ensures hi - lo <= Longest(s)
  {
    if hi < |s| {
      LongestIsLongest(s[..|s| - 1], lo, hi);
    } else {
      TrailingCovers(s, lo);
    }
  }

  lemma {:induction false} LongestIsThere(s: string) returns (lo: nat)
    ensures AllTicks(s, lo, lo + Longest(s))
  {
    if s == [] {
      lo := 0;
    } else if Longest(s) == Trailing(s) {
      lo := |s| - Trailing(s);
    } else {
      lo := LongestIsThere(s[..|s| - 1]);
      assert forall k :: lo <= k < lo + Longest(s) ==> s[k] == s[..|s| - 1][k];
    }
  }

  lemma {:induction false} RunIsWithin(s: string, i: nat)
    requires i <= |s|
    ensures Run(s, i) <= Longest(s)
  {
    LongestIsLongest(s, i, i + Run(s, i));
  }

  function Ticks(n: nat): (s: string)
    ensures |s| == n && forall k :: 0 <= k < n ==> s[k] == TICK
  {
    seq(n, k => TICK)
  }

  function BacktickRun(sanitize: string -> string, s: string): nat {
    Max(Longest(s), Longest(sanitize(s)))
  }

  // ---------- code spans ----------

  predicate NeedsPadding(s: string) {
    s != [] && (s[0] == TICK || s[|s| - 1] == TICK || (s[0] == ' ' && s[|s| - 1] == ' '))
  }

  predicate IsControl(c: char) {
    var o := c as int;
    o < 0x20 || o == 0x7F || 0x80 <= o <= 0x9F
  }

  /** The content on one line: line endings become spaces, other controls but the
      tab go. */
  function Normal(raw: string): string {
    if raw == [] then []
    else if |raw| >= 2 && raw[0] == '\r' && raw[1] == '\n' then " " + Normal(raw[2..])
    else NormalChar(raw[0]) + Normal(raw[1..])
  }

  function NormalChar(c: char): string {
    if c == '\n' || c == '\r' then " "
    else if IsControl(c) && c != '\t' then ""
    else [c]
  }

  /** A character that stays as it is: the tab, and every one that is no control. */
  predicate Stays(c: char) {
    var o := c as int;
    o == 0x09 || (0x20 <= o && o != 0x7F && !(0x80 <= o <= 0x9F))
  }

  /** What is neither a control nor a line ending is kept, in order. */
  lemma {:induction false} NormalKeeps(raw: string)
    requires forall c :: c in raw ==> Stays(c)
    ensures Normal(raw) == raw
  {
    if raw != "" {
      NormalKeeps(raw[1..]);
      assert raw == [raw[0]] + raw[1..];
      assert raw[0] in raw;
    }
  }

  /** A line ending is one space, and a control that ends no line is nothing. */
  lemma {:induction false} NormalOfOne(c: char)
    ensures Normal("\r\n") == " " && Normal("\n") == " " && Normal("\r") == " "
    ensures !Stays(c) && c != '\r' && c != '\n' ==> Normal([c]) == ""
  {
    assert "\r\n"[2..] == "" && "\n"[1..] == "" && "\r"[1..] == "" && [c][1..] == "";
  }

  predicate StartsCRLF(raw: string) {
    |raw| >= 2 && raw[0] == '\r' && raw[1] == '\n'
  }

  /** Read from the front, a line ending or a character at a time. */
  predicate FromTheFront(f: string -> string, raw: string) {
    if raw == "" then f(raw) == ""
    else f(raw) == if StartsCRLF(raw) then " " + f(raw[2..]) else NormalChar(raw[0]) + f(raw[1..])
  }

  lemma {:induction false} NormalFromTheFront(raw: string)
    ensures FromTheFront(Normal, raw)
  {
  }

  /** No line ending is cut in two. */
  predicate NotCut(a: string, b: string) {
    a == "" || b == "" || a[|a| - 1] != '\r' || b[0] != '\n'
  }

  lemma {:induction false} FrontOfBoth(a: string, b: string)
    requires a != "" && NotCut(a, b)
    ensures StartsCRLF(a + b) <==> StartsCRLF(a)
    ensures var n := if StartsCRLF(a) then 2 else 1; (a + b)[n..] == a[n..] + b && NotCut(a[n..], b)
  {
  }

  lemma {:induction false} Regrouped(x: string, y: string, z: string)
    ensures x + (y + z) == x + y + z
  {
  }

  lemma {:induction false} StretchByStretch(f: string -> string, a: string, b: string)
    requires NotCut(a, b) && forall raw :: FromTheFront(f, raw)
    ensures f(a + b) == f(a) + f(b)
    decreases |a|
  {
    assert FromTheFront(f, a) && FromTheFront(f, a + b);
    if a == "" {
      assert a + b == b && f(a) + f(b) == f(b);
    } else {
      var n := if StartsCRLF(a) then 2 else 1;
      FrontOfBoth(a, b);
      StretchByStretch(f, a[n..], b);
      Regrouped(if StartsCRLF(a) then " " else NormalChar(a[0]), f(a[n..]), f(b));
    }
  }

  /** Stretch by stretch, unless a line ending is cut in two. */
  lemma {:induction false} NormalOfBoth(a: string, b: string)
    requires NotCut(a, b)
    ensures Normal(a + b) == Normal(a) + Normal(b)
  {
    forall raw ensures FromTheFront(Normal, raw) {
      NormalFromTheFront(raw);
    }
    StretchByStretch(Normal, a, b);
  }

  lemma {:induction false} NormalHasNoLineEnding(raw: string)
    ensures forall k :: 0 <= k < |Normal(raw)| ==> Normal(raw)[k] != '\n' && Normal(raw)[k] != '\r'
  {
    if raw != [] {
      NormalHasNoLineEnding(raw[1..]);
      if |raw| >= 2 {
        NormalHasNoLineEnding(raw[2..]);
      }
    }
  }

  function Padded(sanitize: string -> string, s: string): string {
    if NeedsPadding(s) || NeedsPadding(sanitize(s)) then " " + s + " " else s
  }

  function SpanOf(sanitize: string -> string, s: string): string {
    if Blank(s) then ""
    else
      var delimiter := Ticks(BacktickRun(sanitize, s) + 1);
      delimiter + Padded(sanitize, s) + delimiter
  }

  function CodeSpan(sanitize: string -> string, raw: string): string {
    SpanOf(sanitize, Normal(raw))
  }

  /** Where the next backtick string of exactly n backticks is, from i on. */
  function FindClose(s: string, i: nat, n: nat): (at: Option<nat>)
    requires i <= |s|
    ensures at.Some? ==> i <= at.value && at.value + n <= |s|
    decreases |s| - i
  {
    if i == |s| then None
    else if s[i] != TICK then FindClose(s, i + 1, n)
    else if Run(s, i) == n then Some(i)
    else FindClose(s, i + Run(s, i), n)
  }

  predicate AllSpaces(s: string) {
    forall k :: 0 <= k < |s| ==> s[k] == ' '
  }

  /** Section 6.1 of CommonMark 0.31.2: a space is taken off each end when there is
      one at both and something else between. */
  function StripSpace(s: string): string {
    if |s| >= 2 && s[0] == ' ' && s[|s| - 1] == ' ' && !AllSpaces(s) then s[1..|s| - 1] else s
  }

  datatype Span = Span(content: string, rest: string)

  /** Section 6.1: a backtick string, up to the next one of the same length. */
  function ReadSpan(s: string): Option<Span> {
    var n := Run(s, 0);
    if n == 0 then None
    else
      var close := FindClose(s, n, n);
      if close.None? then None else Some(Span(StripSpace(s[n..close.value]), s[close.value + n..]))
  }

  lemma {:induction false} RunIsAll(s: string, i: nat, n: nat)
    requires AllTicks(s, i, i + n)
    requires i + n < |s| ==> s[i + n] != TICK
    ensures Run(s, i) == n
    decreases n
  {
  }

  ghost predicate ShortRuns(s: string, from: nat, end: nat, n: nat) {
    forall lo: nat, hi: nat :: from <= lo && hi <= end && AllTicks(s, lo, hi) ==> hi - lo < n
  }

  /** The scan for the closing delimiter passes over the content. */
  lemma {:induction false} ScanPasses(s: string, i: nat, end: nat, n: nat)
    requires i <= end && n > 0 && AllTicks(s, end, end + n)
    requires end + n < |s| ==> s[end + n] != TICK
    requires end > 0 && s[end - 1] != TICK
    requires ShortRuns(s, i, end, n)
    ensures FindClose(s, i, n) == Some(end)
    decreases end - i
  {
    if i == end {
      RunIsAll(s, end, n);
    } else if s[i] != TICK {
      ScanPasses(s, i + 1, end, n);
    } else {
      RunEndsBefore(s, i, end);
      assert AllTicks(s, i, i + Run(s, i));
      ScanPasses(s, i + Run(s, i), end, n);
    }
  }

  lemma {:induction false} RunEndsBefore(s: string, i: nat, end: nat)
    requires i < end <= |s| && s[end - 1] != TICK
    ensures i + Run(s, i) < end
  {
  }

  lemma {:induction false} PaddingHidesTicks(sanitize: string -> string, s: string)
    requires !Blank(s)
    ensures var p := Padded(sanitize, s);
            p != [] && p[0] != TICK && p[|p| - 1] != TICK && StripSpace(p) == s
  {
    var p := Padded(sanitize, s);
    var k :| 0 <= k < |s| && !IsSpace(s[k]);
    if p != s {
      assert p[k + 1] == s[k];
      assert p[1..|p| - 1] == s;
    }
  }

  lemma {:induction false} PaddedRuns(sanitize: string -> string, s: string, lo: nat, hi: nat)
    requires var p := Padded(sanitize, s);
             AllTicks(p, lo, hi)
    ensures hi - lo <= Longest(s)
  {
    var p := Padded(sanitize, s);
    if lo < hi {
      if p != s {
        assert p[lo] == TICK && p[hi - 1] == TICK;
        assert 1 <= lo && hi <= |p| - 1;
        assert forall k :: lo - 1 <= k < hi - 1 ==> s[k] == p[k + 1];
        LongestIsLongest(s, lo - 1, hi - 1);
      } else {
        LongestIsLongest(s, lo, hi);
      }
    }
  }

  /** Whatever non-blank content is written as a code span, backticks and spaces
      at the ends included, is read back as it was on one line, and the reader goes
      on with what follows. */
  lemma {:induction false} SpanReadsBack(sanitize: string -> string, raw: string, rest: string)
    requires !Blank(Normal(raw)) && (rest != [] ==> rest[0] != TICK)
    ensures ReadSpan(CodeSpan(sanitize, raw) + rest) == Some(Span(Normal(raw), rest))
  {
    PaddedReadsBack(sanitize, Normal(raw), rest);
  }

  lemma {:induction false} PaddedReadsBack(sanitize: string -> string, s: string, rest: string)
    requires !Blank(s) && (rest != [] ==> rest[0] != TICK)
    ensures ReadSpan(SpanOf(sanitize, s) + rest) == Some(Span(s, rest))
  {
    PaddedFits(sanitize, s);
    DelimitedReadsBack(Padded(sanitize, s), BacktickRun(sanitize, s) + 1, rest);
    assert StripSpace(Padded(sanitize, s)) == s by { PaddingHidesTicks(sanitize, s); }
  }

  /** Content with no run as long as its delimiters, and none at its ends. */
  ghost predicate Fits(p: string, n: nat) {
    && n > 0 && p != [] && p[0] != TICK && p[|p| - 1] != TICK
    && forall lo: nat, hi: nat :: AllTicks(p, lo, hi) ==> hi - lo < n
  }

  lemma {:induction false} PaddedFits(sanitize: string -> string, s: string)
    requires !Blank(s)
    ensures Fits(Padded(sanitize, s), BacktickRun(sanitize, s) + 1)
  {
    PaddingHidesTicks(sanitize, s);
    forall lo: nat, hi: nat | AllTicks(Padded(sanitize, s), lo, hi) ensures hi - lo < BacktickRun(sanitize, s) + 1 {
      PaddedRuns(sanitize, s, lo, hi);
    }
  }

  /** Between its delimiters the content has no run as long as they are. */
  lemma {:induction false} ShortWithin(p: string, n: nat, rest: string)
    requires Fits(p, n)
    ensures ShortRuns(Ticks(n) + p + Ticks(n) + rest, n, n + |p|, n)
  {
    var whole, end := Ticks(n) + p + Ticks(n) + rest, n + |p|;
    forall lo: nat, hi: nat | n <= lo && hi <= end && AllTicks(whole, lo, hi) ensures hi - lo < n {
      forall k | lo - n <= k < hi - n ensures p[k] == TICK {
        assert whole[k + n] == p[k];
      }
      assert AllTicks(p, lo - n, hi - n);
    }
  }

  lemma {:induction false} DelimitersAre(p: string, n: nat, rest: string)
    ensures var whole, end := Ticks(n) + p + Ticks(n) + rest, n + |p|;
            AllTicks(whole, 0, n) && AllTicks(whole, end, end + n) && whole[n..end] == p && whole[end + n..] == rest
  {
  }

  lemma {:induction false} ScanReadsSpan(whole: string, n: nat, end: nat)
    requires 0 < n < end && end + n <= |whole| && AllTicks(whole, 0, n) && AllTicks(whole, end, end + n)
    requires whole[n] != TICK && whole[end - 1] != TICK && (end + n < |whole| ==> whole[end + n] != TICK)
    requires ShortRuns(whole, n, end, n)
    ensures ReadSpan(whole) == Some(Span(StripSpace(whole[n..end]), whole[end + n..]))
  {
    RunIsAll(whole, 0, n);
    ScanPasses(whole, n, end, n);
  }

  lemma {:induction false} DelimitedReadsBack(p: string, n: nat, rest: string)
    requires Fits(p, n) && (rest != [] ==> rest[0] != TICK)
    ensures ReadSpan(Ticks(n) + p + Ticks(n) + rest) == Some(Span(StripSpace(p), rest))
  {
    var whole, end := Ticks(n) + p + Ticks(n) + rest, n + |p|;
    DelimitersAre(p, n, rest);
    ShortWithin(p, n, rest);
    assert whole[n] == p[0] && whole[end - 1] == p[|p| - 1];
    ScanReadsSpan(whole, n, end);
  }

  // ---------- fences ----------

  function FenceLength(sanitize: string -> string, content: string): nat {
    Max(3, BacktickRun(sanitize, content) + 1)
  }

  /** Section 4.5: at most three spaces, then at least as many backticks as the
      opening fence has, and nothing after but spaces and tabs. */
  ghost predicate Closes(line: string, n: nat) {
    exists indent: nat :: indent <= 3 && indent <= |line| && AllSpaces(line[..indent]) &&
      Run(line, indent) >= n && forall k :: indent + Run(line, indent) <= k < |line| ==> line[k] in {' ', '\t'}
  }

  /** The lines of a text, as splitting at its newlines makes them. */
  function Lines(s: string): (lines: seq<string>)
    ensures lines != []
  {
    if s == [] then [""]
    else
      var before := Lines(s[..|s| - 1]);
      if s[|s| - 1] == '\n' then before + [""]
      else before[|before| - 1 := before[|before| - 1] + [s[|s| - 1]]]
  }

  /** The lines up to the first one that closes the fence. */
  ghost function ReadBlock(lines: seq<string>, n: nat): Option<seq<string>> {
    if lines == [] then None
    else if Closes(lines[0], n) then Some([])
    else
      var rest := ReadBlock(lines[1..], n);
      if rest.None? then None else Some([lines[0]] + rest.value)
  }

  lemma {:induction false} LongestGrows(s: string, c: char)
    ensures Longest(s) <= Longest(s + [c])
    ensures Trailing(s + [c]) <= Longest(s + [c])
    ensures c == TICK ==> Trailing(s + [c]) == Trailing(s) + 1
    ensures c != TICK ==> Trailing(s + [c]) == 0
    ensures Longest(s + [c]) == Max(Longest(s), Trailing(s + [c]))
  {
  }

  /** No line has a longer run than the text, and the last ends in no longer one. */
  ghost predicate RunsWithin(lines: seq<string>, longest: nat, trailing: nat) {
    && lines != [] && Trailing(lines[|lines| - 1]) <= trailing
    && forall i :: 0 <= i < |lines| ==> Longest(lines[i]) <= longest
  }

  lemma {:induction false} LineGrows(line: string, s: string, c: char)
    requires Trailing(line) <= Trailing(s) && Longest(line) <= Longest(s)
    ensures Trailing(line + [c]) <= Trailing(s + [c]) && Longest(line + [c]) <= Longest(s + [c])
    ensures Longest(s) <= Longest(s + [c])
  {
  }

  lemma {:induction false} LastLineGrows(lines: seq<string>, longer: string, longest: nat, now: nat, trailing: nat)
    requires lines != [] && forall i :: 0 <= i < |lines| ==> Longest(lines[i]) <= longest
    requires longest <= now && Longest(longer) <= now && Trailing(longer) <= trailing
    ensures RunsWithin(lines[|lines| - 1 := longer], now, trailing)
  {
  }

  lemma {:induction false} EmptyLineAdded(lines: seq<string>, longest: nat, now: nat, trailing: nat)
    requires longest <= now && forall i :: 0 <= i < |lines| ==> Longest(lines[i]) <= longest
    ensures RunsWithin(lines + [""], now, trailing)
  {
  }

  lemma {:induction false} LinesGrow(s: string, c: char)
    requires RunsWithin(Lines(s), Longest(s), Trailing(s))
    ensures RunsWithin(Lines(s + [c]), Longest(s + [c]), Trailing(s + [c]))
  {
    var lines := Lines(s);
    assert (s + [c])[..|s|] == s;
    if c == '\n' {
      LongestGrows(s, c);
      EmptyLineAdded(lines, Longest(s), Longest(s + [c]), Trailing(s + [c]));
    } else {
      LineGrows(lines[|lines| - 1], s, c);
      LastLineGrows(lines, lines[|lines| - 1] + [c], Longest(s), Longest(s + [c]), Trailing(s + [c]));
    }
  }

  lemma {:induction false} LinesHaveNoLongerRun(s: string)
    ensures RunsWithin(Lines(s), Longest(s), Trailing(s))
  {
    if s != [] {
      LinesHaveNoLongerRun(s[..|s| - 1]);
      LinesGrow(s[..|s| - 1], s[|s| - 1]);
      assert s[..|s| - 1] + [s[|s| - 1]] == s;
    }
  }

  lemma {:induction false} NoLineCloses(sanitize: string -> string, content: string, i: nat)
    requires i < |Lines(content)|
    ensures !Closes(Lines(content)[i], FenceLength(sanitize, content))
  {
    var line := Lines(content)[i];
    LinesHaveNoLongerRun(content);
    forall indent: nat | indent <= |line| ensures Run(line, indent) < FenceLength(sanitize, content) {
      RunIsWithin(line, indent);
    }
  }

  lemma {:induction false} FenceCloses(n: nat)
    requires n > 0
    ensures Closes(Ticks(n), n)
  {
    RunIsAll(Ticks(n), 0, n);
    assert Ticks(n)[..0] == [];
  }

  lemma {:induction false} ReadsUpToFence(lines: seq<string>, n: nat, after: seq<string>)
    requires n > 0 && forall i :: 0 <= i < |lines| ==> !Closes(lines[i], n)
    ensures ReadBlock(lines + [Ticks(n)] + after, n) == Some(lines)
  {
    var all := lines + [Ticks(n)] + after;
    if lines == [] {
      FenceCloses(n);
    } else {
      assert all[1..] == lines[1..] + [Ticks(n)] + after;
      ReadsUpToFence(lines[1..], n, after);
      assert [lines[0]] + lines[1..] == lines;
    }
  }

  /** A code block is read back line for line, and ends where it was ended: none of
      its own lines closes the fence chosen for it. */
  lemma {:induction false} BlockReadsBack(sanitize: string -> string, content: string, after: seq<string>)
    ensures ReadBlock(Lines(content) + [Ticks(FenceLength(sanitize, content))] + after, FenceLength(sanitize, content))
         == Some(Lines(content))
  {
    forall i | 0 <= i < |Lines(content)| ensures !Closes(Lines(content)[i], FenceLength(sanitize, content)) {
      NoLineCloses(sanitize, content, i);
    }
    ReadsUpToFence(Lines(content), FenceLength(sanitize, content), after);
  }
}
