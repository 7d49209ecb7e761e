/** Prose escaped for Markdown, and what a CommonMark reader makes of it. The text
    is as the terminal's sanitiser left it; line is what the line it is added to
    already holds. */
module EscapedText {
  import opened Basics
  import opened Text

  const INLINE_META: set<char> := {'\\', '`', '*', '_', '~', '[', ']', '<', '>', '|'}
  const LINE_START_META: set<char> := {'#', '>', '+', '-', '='}

  predicate AllDigits(s: string) {
    s != "" && forall k :: 0 <= k < |s| ==> IsDigit(s[k])
  }

  /** Whether a '.' or ')' after so many characters, the last ones being run, would
      end the number of an ordered list item. */
  predicate ClosesOrderedMarker(before: nat, run: string) {
    before <= 9 && AllDigits(run)
  }

  predicate IsEscaped(s: string, i: nat, line: string)
    requires i < |s|
  {
    || s[i] in INLINE_META
    || (line == "" && i == 0 && s[i] in LINE_START_META)
    || ((s[i] == '.' || s[i] == ')') && ClosesOrderedMarker(|line| + i, s[..i]))
  }

  function EscapeOne(s: string, i: nat, line: string): string
    requires i < |s|
  {
    if s[i] == '&' then "&amp;" else if IsEscaped(s, i, line) then ['\\', s[i]] else [s[i]]
  }

  /** The text from its character i on. */
  function EscapeFrom(s: string, i: nat, line: string): string
    requires i <= |s|
    decreases |s| - i
  {
    if i == |s| then "" else EscapeOne(s, i, line) + EscapeFrom(s, i + 1, line)
  }

  function Escape(s: string, line: string): string {
    EscapeFrom(s, 0, line)
  }

  method EscapeText(s: string, line: string) returns (out: string)
    ensures out == Escape(s, line)
  {
    out := "";
    for i := 0 to |s|
      invariant out + EscapeFrom(s, i, line) == Escape(s, line)
    {
      ghost var was := out;
      var one := EscapeChar(s, i, line);
      out := out + one;
      assert was + (one + EscapeFrom(s, i + 1, line)) == out + EscapeFrom(s, i + 1, line);
    }
    assert out + "" == out;
  }

  method EscapeChar(s: string, i: nat, line: string) returns (one: string)
    requires i < |s|
    ensures one == EscapeOne(s, i, line)
  {
    if s[i] == '&' {
      return "&amp;";
    }
    var escaped := s[i] in INLINE_META || (line == "" && i == 0 && s[i] in LINE_START_META);
    if !escaped && (s[i] == '.' || s[i] == ')') {
      var digits := DigitsOnly(s[..i]);
      escaped := |line| + i <= 9 && digits;
    }
    return if escaped then ['\\', s[i]] else [s[i]];
  }

  method DigitsOnly(s: string) returns (ok: bool)
    ensures ok <==> AllDigits(s)
  {
    if s == "" {
      return false;
    }
    for i := 0 to |s|
      invariant forall k :: 0 <= k < i ==> IsDigit(s[k])
    {
      if s[i] < '0' || s[i] > '9' {
        return false;
      }
    }
    return true;
  }

  // ---------- reading ----------

  /** The ASCII punctuation a backslash can escape, section 2.4 of CommonMark. */
  predicate IsPunctuation(c: char) {
    '!' <= c <= '/' || ':' <= c <= '@' || '[' <= c <= '`' || '{' <= c <= '~'
  }

  /** A character as read, and whether it stood there bare, where it could mean
      something. */
  datatype Read = Read(c: char, bare: bool)

  const AMP: string := "&amp;"

  function ReadText(t: string): seq<Read> {
    if t == "" then []
    else if |t| >= 2 && t[0] == '\\' && IsPunctuation(t[1]) then [Read(t[1], false)] + ReadText(t[2..])
    else if t[0] == '&' && |t| >= 5 && t[..5] == AMP then [Read('&', false)] + ReadText(t[5..])
    else [Read(t[0], true)] + ReadText(t[1..])
  }

  function Plain(r: seq<Read>): string {
    seq(|r|, i requires 0 <= i < |r| => r[i].c)
  }

  /** What the reader makes of a character of the text: it, no longer bare if it was
      escaped. */
  function ReadAt(s: string, i: nat, line: string): Read
    requires i < |s|
  {
    Read(s[i], s[i] != '&' && !IsEscaped(s, i, line))
  }

  function ReadsAs(s: string, i: nat, line: string): seq<Read>
    requires i <= |s|
  {
    seq(|s| - i, k requires 0 <= k < |s| - i => ReadAt(s, i + k, line))
  }

  lemma {:induction false} ReadsOne(s: string, i: nat, line: string, rest: string)
    requires i < |s|
    ensures ReadText(EscapeOne(s, i, line) + rest) == [ReadAt(s, i, line)] + ReadText(rest)
  {
  }

  lemma {:induction false} ReadsAsNext(s: string, i: nat, line: string)
    requires i < |s|
    ensures ReadsAs(s, i, line) == [ReadAt(s, i, line)] + ReadsAs(s, i + 1, line)
  {
  }

  lemma {:induction false} ReadsFrom(s: string, i: nat, line: string)
    requires i <= |s|
    ensures ReadText(EscapeFrom(s, i, line)) == ReadsAs(s, i, line)
    decreases |s| - i
  {
    if i < |s| {
      ReadsFrom(s, i + 1, line);
      ReadsOne(s, i, line, EscapeFrom(s, i + 1, line));
      ReadsAsNext(s, i, line);
    }
  }

  /** A reader who takes the escapes off again has exactly the text, for every text
      and whatever the line holds; and nothing that could open or close inline
      markup, and no ampersand, was left bare. */
  lemma {:induction false} EscapedTextReadsBack(s: string, line: string)
    ensures var read := ReadText(Escape(s, line));
            Plain(read) == s &&
            forall k :: 0 <= k < |read| && read[k].bare ==> read[k].c !in INLINE_META && read[k].c != '&'
  {
    ReadsFrom(s, 0, line);
    assert Plain(ReadsAs(s, 0, line)) == s;
  }

  /** A character that opens or closes something within a line: section 2.4 and 2.5 of
      CommonMark for escapes and references, 6.1 to 6.6 for code, emphasis, links,
      images, autolinks and HTML, and the strikethrough and the table cell of GFM. */
  predicate MeansSomething(c: char) {
    || c == '\\' || c == '&'
    || c == '`'
    || c == '*' || c == '_'
    || c == '[' || c == ']'
    || c == '<' || c == '>'
    || c == '~' || c == '|'
  }

  /** None of them is read as what it means: whatever a reader makes of the characters
      that stand bare, it finds no mark of any of these. */
  lemma {:induction false} NothingIsMeant(s: string, line: string)
    ensures forall k :: 0 <= k < |ReadText(Escape(s, line))| && MeansSomething(ReadText(Escape(s, line))[k].c) ==>
              !ReadText(Escape(s, line))[k].bare
  {
    EscapedTextReadsBack(s, line);
  }

  // ---------- the start of a line ----------

  /** One to nine digits and a '.' or ')': what an ordered list item starts with,
      section 5.2. */
  ghost predicate OrderedMarker(t: string) {
    exists n :: 1 <= n <= 9 && n < |t| && AllDigits(t[..n]) && (t[n] == '.' || t[n] == ')')
  }

  lemma {:induction false} DigitStays(s: string, i: nat, line: string)
    requires i < |s| && IsDigit(s[i])
    ensures EscapeOne(s, i, line) == [s[i]]
  {
  }

  lemma {:induction false} EscapeKeepsDigits(s: string, n: nat, line: string)
    requires n <= |s| && forall k :: 0 <= k < n ==> IsDigit(s[k])
    ensures Escape(s, line) == s[..n] + EscapeFrom(s, n, line)
  {
    if n > 0 {
      EscapeKeepsDigits(s, n - 1, line);
      DigitStays(s, n - 1, line);
      assert s[..n] + EscapeFrom(s, n, line) == s[..n - 1] + ([s[n - 1]] + EscapeFrom(s, n, line));
    }
  }

  /** The length of the digits a text starts with. */
  function Digits(t: string): (n: nat)
    ensures n <= |t| && forall k :: 0 <= k < n ==> IsDigit(t[k])
    ensures n < |t| ==> !IsDigit(t[n])
  {
    if t == "" || !IsDigit(t[0]) then 0 else 1 + Digits(t[1..])
  }

  lemma {:induction false} MarkerIsAfterDigits(t: string)
    ensures var n := Digits(t);
            OrderedMarker(t) <==> 1 <= n <= 9 && n < |t| && (t[n] == '.' || t[n] == ')')
  {
  }

  lemma {:induction false} DigitsOf(t: string, n: nat)
    requires n <= |t| && (forall k :: 0 <= k < n ==> IsDigit(t[k])) && (n < |t| ==> !IsDigit(t[n]))
    ensures Digits(t) == n
  {
  }

  /** What follows the digits at the start of an escaped text is never a digit, and
      is a bare '.' or ')' only where that was not escaped. */
  lemma {:induction false} AfterDigits(s: string, d: nat, line: string)
    requires d <= |s| && (d < |s| ==> !IsDigit(s[d]))
    ensures var tail := EscapeFrom(s, d, line);
            && (tail != "" <==> d < |s|)
            && (tail != "" ==> !IsDigit(tail[0]))
            && (tail != "" && (tail[0] == '.' || tail[0] == ')') <==>
                d < |s| && (s[d] == '.' || s[d] == ')') && !ClosesOrderedMarker(|line| + d, s[..d]))
  {
  }

  lemma {:induction false} DigitsThenTail(line: string, digits: string, tail: string)
    requires (forall k :: 0 <= k < |line| ==> IsDigit(line[k])) && (forall k :: 0 <= k < |digits| ==> IsDigit(digits[k]))
    requires tail != "" ==> !IsDigit(tail[0])
    ensures OrderedMarker(line + (digits + tail)) <==>
              1 <= |line| + |digits| <= 9 && tail != "" && (tail[0] == '.' || tail[0] == ')')
  {
    var whole := line + (digits + tail);
    DigitsOf(whole, |line| + |digits|);
    MarkerIsAfterDigits(whole);
  }

  lemma {:induction false} MarkerIsTheLines(line: string, more: string)
    requires Digits(line) < |line|
    ensures OrderedMarker(line + more) <==> OrderedMarker(line)
  {
    DigitsOf(line + more, Digits(line));
    MarkerIsAfterDigits(line);
    MarkerIsAfterDigits(line + more);
  }

  /** Text added to a line that does not start a list item yet. The text's own
      digits are never left to make it one. But the marker is looked for in the
      text alone, so a line that is nothing but digits, written before, followed by
      a '.' or ')' becomes an ordered list item; and that is the only way. */
  lemma {:induction false} ListMarkerSlipsInIff(s: string, line: string)
    requires !OrderedMarker(line)
    ensures OrderedMarker(line + Escape(s, line)) <==>
              AllDigits(line) && |line| <= 9 && s != "" && (s[0] == '.' || s[0] == ')')
  {
    if Digits(line) < |line| {
      MarkerIsTheLines(line, Escape(s, line));
    } else {
      var d := Digits(s);
      EscapeKeepsDigits(s, d, line);
      AfterDigits(s, d, line);
      DigitsThenTail(line, s[..d], EscapeFrom(s, d, line));
      assert AllDigits(s[..d]) <==> d > 0;
    }
  }

  /** On a fresh line, no text starts a heading, a quotation or a list. */
  lemma {:induction false} FreshLineStartsNothing(s: string)
    ensures var e := Escape(s, "");
            !OrderedMarker(e) && (e != "" ==> e[0] != '#' && e[0] != '>' && e[0] != '+' && e[0] != '-' && e[0] != '=' && e[0] != '*')
  {
    MarkerIsAfterDigits("");
    ListMarkerSlipsInIff(s, "");
    assert "" + Escape(s, "") == Escape(s, "");
  }
}
