/** Markdown's blocks as the compose view reads them, quotations and callouts
    holding blocks of their own. A block is a stretch of lines; what it says is
    those lines. */
module MarkdownBlocks {
  import opened Basics
  import opened Text

  // ---------- what a line is ----------

  predicate IsFence(line: string) {
    "```" <= line
  }

  function Hashes(line: string): (n: nat)
    ensures n <= |line|
  {
    if line != "" && line[0] == '#' then 1 + Hashes(line[1..]) else 0
  }

  /** One to six hashes, a space and a title. */
  predicate IsHeading(line: string) {
    var n := Hashes(line);
    1 <= n <= 6 && n + 1 < |line| && line[n] == ' '
  }

  /** `[!note]`, `[!tip]` or `[!warning]` in any case, then nothing or a space and a
      title. */
  function MarkerOf(line: string): Option<string> {
    var t := Trim(line);
    if Marks(t, "[!note]") then Some("note")
    else if Marks(t, "[!tip]") then Some("tip")
    else if Marks(t, "[!warning]") then Some("warning")
    else None
  }

  predicate Marks(t: string, marker: string) {
    |marker| <= |t| && SameFold(t[..|marker|], marker) &&
    (|t| == |marker| || t[|marker|] in {' ', '\t', '\n', '\r'} || t[|marker|] as int == 12)
  }

  predicate IsMarker(line: string) {
    MarkerOf(line).Some?
  }

  predicate IsQuote(line: string) {
    "> " <= line
  }

  predicate IsBullet(line: string) {
    |line| >= 2 && (line[0] == '-' || line[0] == '*') && line[1] == ' '
  }

  function LeadingDigits(line: string): (n: nat)
    ensures n <= |line|
  {
    if line != "" && IsDigit(line[0]) then 1 + LeadingDigits(line[1..]) else 0
  }

  predicate IsNumbered(line: string) {
    var n := LeadingDigits(line);
    n >= 1 && n + 1 < |line| && line[n] == '.' && line[n + 1] == ' '
  }

  predicate StartsBlock(line: string) {
    IsFence(line) || IsHeading(line) || IsQuote(line) || IsMarker(line) || IsBullet(line) || IsNumbered(line)
  }

  // ---------- and how it is written ----------

  const HASHES: seq<string> := ["#", "##", "###", "####", "#####", "######"]

  predicate IsHeadingOf(line: string, hashes: string, title: string) {
    hashes in HASHES && title != "" && line == hashes + " " + title
  }

  predicate IsItemOf(line: string, digits: string, item: string) {
    digits != "" && (forall k :: 0 <= k < |digits| ==> '0' <= digits[k] <= '9') && line == digits + ". " + item
  }

  /** The marker stands alone, or before white space. */
  predicate IsMarkerOf(t: string, mark: string, title: string) {
    && t == mark + title
    && (title == "" || title[0] == ' ' || title[0] == '\t' || title[0] == '\n' || title[0] == '\r' || title[0] == '\U{000C}')
  }

  ghost predicate IsMarked(t: string, marker: string) {
    exists mark, title :: SameFold(mark, marker) && IsMarkerOf(t, mark, title)
  }

  lemma {:induction false} HashesAre(line: string, n: nat)
    requires n <= |line| && (forall k :: 0 <= k < n ==> line[k] == '#') && (n < |line| ==> line[n] != '#')
    ensures Hashes(line) == n
  {
    if n > 0 {
      HashesAre(line[1..], n - 1);
    }
  }

  lemma {:induction false} HashesEnd(line: string)
    ensures forall k :: 0 <= k < Hashes(line) ==> line[k] == '#'
  {
    if line != "" && line[0] == '#' {
      HashesEnd(line[1..]);
    }
  }

  /** A heading is one to six hashes, a space and a title. */
  lemma {:induction false} HeadingIff(line: string)
    ensures IsHeading(line) <==> exists hashes, title :: IsHeadingOf(line, hashes, title)
  {
    var n := Hashes(line);
    HashesEnd(line);
    if IsHeading(line) {
      assert line[..n] == HASHES[n - 1];
      assert line == line[..n] + " " + line[n + 1..];
      assert IsHeadingOf(line, line[..n], line[n + 1..]);
    }
    if hashes, title :| IsHeadingOf(line, hashes, title) {
      assert forall k :: 0 <= k < |hashes| ==> line[k] == hashes[k];
      assert line[|hashes|] == ' ';
      HashesAre(line, |hashes|);
    }
  }

  lemma {:induction false} DigitsAre(line: string, n: nat)
    requires n <= |line| && (forall k :: 0 <= k < n ==> IsDigit(line[k])) && (n < |line| ==> !IsDigit(line[n]))
    ensures LeadingDigits(line) == n
  {
    if n > 0 {
      DigitsAre(line[1..], n - 1);
    }
  }

  lemma {:induction false} DigitsEnd(line: string)
    ensures forall k :: 0 <= k < LeadingDigits(line) ==> IsDigit(line[k])
  {
    if line != "" && IsDigit(line[0]) {
      DigitsEnd(line[1..]);
    }
  }

  /** A numbered item is digits, a full stop and a space before it. */
  lemma {:induction false} NumberedIff(line: string)
    ensures IsNumbered(line) <==> exists digits, item :: IsItemOf(line, digits, item)
  {
    var n := LeadingDigits(line);
    DigitsEnd(line);
    if IsNumbered(line) {
      assert line == line[..n] + ". " + line[n + 2..];
      assert IsItemOf(line, line[..n], line[n + 2..]);
    }
    if digits, item :| IsItemOf(line, digits, item) {
      assert forall k :: 0 <= k < |digits| ==> line[k] == digits[k];
      assert line[|digits|] == '.';
      DigitsAre(line, |digits|);
    }
  }

  /** A callout's first line is `[!note]`, `[!tip]` or `[!warning]`, case apart, and
      perhaps a title after white space. */
  lemma {:induction false} MarkerIff(line: string, kind: string)
    ensures MarkerOf(line) == Some(kind) <==>
            kind in ["note", "tip", "warning"] && IsMarked(Trim(line), "[!" + kind + "]")
  {
    var t := Trim(line);
    MarksIff(t, "[!note]");
    MarksIff(t, "[!tip]");
    MarksIff(t, "[!warning]");
    OneMark(t);
    assert "[!" + "note" + "]" == "[!note]" && "[!" + "tip" + "]" == "[!tip]" && "[!" + "warning" + "]" == "[!warning]";
  }

  lemma {:induction false} MarksIff(t: string, marker: string)
    ensures Marks(t, marker) <==> IsMarked(t, marker)
  {
    if Marks(t, marker) {
      assert IsMarkerOf(t, t[..|marker|], t[|marker|..]);
    }
    if mark, title :| SameFold(mark, marker) && IsMarkerOf(t, mark, title) {
      assert t[..|mark|] == mark && t[|mark|..] == title;
    }
  }

  lemma {:induction false} OneMark(t: string)
    ensures !(Marks(t, "[!note]") && Marks(t, "[!tip]"))
    ensures !(Marks(t, "[!note]") && Marks(t, "[!warning]"))
    ensures !(Marks(t, "[!tip]") && Marks(t, "[!warning]"))
  {
  }

  /** The rest: a fence, a quotation, an item. */
  lemma {:induction false} LineIff(line: string)
    ensures IsFence(line) <==> |line| >= 3 && line[0] == '`' && line[1] == '`' && line[2] == '`'
    ensures IsQuote(line) <==> exists text :: line == "> " + text
    ensures IsBullet(line) <==> exists item :: line == "- " + item || line == "* " + item
  {
    if |line| >= 2 {
      assert line == [line[0], line[1]] + line[2..];
    }
  }

  // ---------- the blocks ----------

  datatype Content =
    | Code
    | Heading
    | Callout(kind: string, body: seq<Block>)
    | Quote(body: seq<Block>)
    | Bullets
    | Numbers
    | Paragraph

  /** The lines from (included) to (excluded). */
  datatype Block = Block(from: nat, end: nat, content: Content)

  type Lines = seq<string>

  /** The first line from i on that stops, or the end. */
  function Until(lines: Lines, i: nat, stops: string -> bool): (j: nat)
    requires i <= |lines|
    ensures i <= j <= |lines|
    ensures forall k :: i <= k < j ==> !stops(lines[k])
    ensures j < |lines| ==> stops(lines[j])
    decreases |lines| - i
  {
    if i == |lines| || stops(lines[i]) then i else Until(lines, i + 1, stops)
  }

  /** What the recursion into quotations and callouts gets smaller by. */
  function Size(lines: Lines): nat {
    if lines == [] then 0 else Size(lines[..|lines| - 1]) + |lines[|lines| - 1]| + 1
  }

  lemma {:induction false} SizeOfBoth(a: Lines, b: Lines)
    ensures Size(a + b) == Size(a) + Size(b)
  {
    if b == [] {
      assert a + b == a;
    } else {
      SizeOfBoth(a, b[..|b| - 1]);
      assert (a + b)[..|a + b| - 1] == a + b[..|b| - 1];
    }
  }

  lemma {:induction false} SizeOfPart(lines: Lines, i: nat, j: nat)
    requires i <= j <= |lines|
    ensures Size(lines[i..j]) + i + |lines| - j <= Size(lines)
  {
    SizeOfBoth(lines[..i], lines[i..j]);
    SizeOfBoth(lines[..j], lines[j..]);
    AtLeastTheLines(lines[..i]);
    AtLeastTheLines(lines[j..]);
    assert lines[..i] + lines[i..j] == lines[..j] && lines[..j] + lines[j..] == lines;
  }

  lemma {:induction false} AtLeastTheLines(lines: Lines)
    ensures |lines| <= Size(lines)
  {
    if lines != [] {
      AtLeastTheLines(lines[..|lines| - 1]);
    }
  }

  /** The text of a quotation: its lines without the mark. */
  function Unquoted(lines: Lines): (inner: Lines)
    requires forall k :: 0 <= k < |lines| ==> IsQuote(lines[k])
    ensures |inner| == |lines| && Size(inner) + 2 * |lines| == Size(lines)
  {
    if lines == [] then []
    else
      assert IsQuote(lines[|lines| - 1]);
      Unquoted(lines[..|lines| - 1]) + [lines[|lines| - 1][2..]]
  }

  /** The lines a quotation or a callout hands down are fewer, or shorter. */
  function Quoted(lines: Lines, i: nat): (inner: Lines)
    requires i < |lines| && IsQuote(lines[i])
    ensures |inner| > 0 && Size(inner) < Size(lines)
  {
    var end := Until(lines, i, line => !IsQuote(line));
    SizeOfPart(lines, i, end);
    Unquoted(lines[i..end])
  }

  function CalloutBody(lines: Lines, i: nat): (inner: Lines)
    requires i < |lines|
    ensures Size(inner) < Size(lines)
  {
    var end := Until(lines, i + 1, line => Blank(line) || IsMarker(line));
    SizeOfPart(lines, i + 1, end);
    lines[i + 1..end]
  }

  function BlocksFrom(lines: Lines, i: nat): seq<Block>
    requires i <= |lines|
    decreases Size(lines), |lines| - i
  {
    if i == |lines| then []
    else if Blank(lines[i]) then BlocksFrom(lines, i + 1)
    else
      var b := BlockAt(lines, i);
      [b] + BlocksFrom(lines, b.end)
  }

  function Blocks(lines: Lines): seq<Block>
    decreases Size(lines), |lines| + 1
  {
    BlocksFrom(lines, 0)
  }

  /** What a quotation holds: a callout when its first line is a marker. */
  function QuoteContent(inner: Lines): Content
    requires inner != []
    decreases Size(inner), |inner| + 2
  {
    if IsMarker(inner[0]) then
      SizeOfPart(inner, 1, |inner|);
      assert inner[1..|inner|] == inner[1..];
      Callout(MarkerOf(inner[0]).value, Blocks(inner[1..]))
    else Quote(Blocks(inner))
  }

  function BlockAt(lines: Lines, i: nat): (b: Block)
    requires i < |lines|
    ensures b.from == i < b.end <= |lines|
    decreases Size(lines), 0
  {
    if IsFence(lines[i]) then
      var close := Until(lines, i + 1, line => IsFence(line));
      Block(i, if close < |lines| then close + 1 else close, Code)
    else if IsHeading(lines[i]) then Block(i, i + 1, Heading)
    else if IsMarker(lines[i]) then
      Block(i, Until(lines, i + 1, line => Blank(line) || IsMarker(line)),
            Callout(MarkerOf(lines[i]).value, Blocks(CalloutBody(lines, i))))
    else if IsQuote(lines[i]) then
      Block(i, Until(lines, i, line => !IsQuote(line)), QuoteContent(Quoted(lines, i)))
    else if IsBullet(lines[i]) then Block(i, Until(lines, i, line => !IsBullet(line)), Bullets)
    else if IsNumbered(lines[i]) then Block(i, Until(lines, i, line => !IsNumbered(line)), Numbers)
    else Block(i, Until(lines, i + 1, line => Blank(line) || StartsBlock(line)), Paragraph)
  }

  // ---------- the loop ----------

  method ScanUntil(lines: Lines, i: nat, stops: string -> bool) returns (j: nat)
    requires i <= |lines|
    ensures j == Until(lines, i, stops)
  {
    j := i;
    while j < |lines| && !stops(lines[j])
      invariant i <= j <= |lines| && Until(lines, i, stops) == Until(lines, j, stops)
    {
      j := j + 1;
    }
  }

  /** The blocks of a text, line by line; a quotation's and a callout's own lines are
      read the same way. */
  method ReadBlocks(lines: Lines) returns (blocks: seq<Block>)
    ensures blocks == Blocks(lines)
    decreases Size(lines), 1
  {
    blocks := [];
    var i := 0;
    while i < |lines|
      invariant 0 <= i <= |lines| && blocks + BlocksFrom(lines, i) == Blocks(lines)
      decreases |lines| - i
    {
      if Blank(lines[i]) {
        i := i + 1;
        continue;
      }
      var b := ReadBlock(lines, i);
      assert blocks + ([b] + BlocksFrom(lines, b.end)) == (blocks + [b]) + BlocksFrom(lines, b.end);
      blocks := blocks + [b];
      i := b.end;
    }
    assert blocks + [] == blocks;
  }

  method ReadBlock(lines: Lines, i: nat) returns (b: Block)
    requires i < |lines|
    ensures b == BlockAt(lines, i)
    decreases Size(lines), 0
  {
    var line := lines[i];
    if IsFence(line) {
      var j := ScanUntil(lines, i + 1, l => IsFence(l));
      return Block(i, if j < |lines| then j + 1 else j, Code);
    }
    if IsHeading(line) {
      return Block(i, i + 1, Heading);
    }
    if IsMarker(line) {
      var j := ScanUntil(lines, i + 1, l => Blank(l) || IsMarker(l));
      var body := ReadBlocks(CalloutBody(lines, i));
      return Block(i, j, Callout(MarkerOf(line).value, body));
    }
    if IsQuote(line) {
      var j := ScanUntil(lines, i, l => !IsQuote(l));
      var inner := Quoted(lines, i);
      if IsMarker(inner[0]) {
        SizeOfPart(inner, 1, |inner|);
        assert inner[1..|inner|] == inner[1..];
        var body := ReadBlocks(inner[1..]);
        return Block(i, j, Callout(MarkerOf(inner[0]).value, body));
      }
      var body := ReadBlocks(inner);
      return Block(i, j, Quote(body));
    }
    var end: nat;
    if IsBullet(line) {
      end := ScanUntil(lines, i, l => !IsBullet(l));
      return Block(i, end, Bullets);
    }
    if IsNumbered(line) {
      end := ScanUntil(lines, i, l => !IsNumbered(l));
      return Block(i, end, Numbers);
    }
    end := ScanUntil(lines, i + 1, l => Blank(l) || StartsBlock(l));
    return Block(i, end, Paragraph);
  }
}
