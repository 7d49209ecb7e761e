/** The blocks described without saying how they are found, and the proof that the
    description fits exactly what is found. */
module MarkdownGrammar {
  import opened Basics
  import opened Text
  import opened MarkdownBlocks

  // ---------- every line in one block ----------

  ghost predicate AllBlank(lines: Lines, i: nat, j: nat)
    requires i <= j <= |lines|
  {
    forall k :: i <= k < j ==> Blank(lines[k])
  }

  /** From line i on: blocks in order, blank lines and nothing else between them. */
  ghost predicate Tiles(lines: Lines, i: nat, blocks: seq<Block>)
    requires i <= |lines|
    decreases |blocks|
  {
    if blocks == [] then AllBlank(lines, i, |lines|)
    else
      var b := blocks[0];
      && i <= b.from < b.end <= |lines| && AllBlank(lines, i, b.from) && !Blank(lines[b.from])
      && Tiles(lines, b.end, blocks[1..])
  }

  lemma {:induction false} BlocksTileFrom(lines: Lines, i: nat)
    requires i <= |lines|
    ensures Tiles(lines, i, BlocksFrom(lines, i))
    decreases |lines| - i
  {
    if i < |lines| {
      if Blank(lines[i]) {
        BlocksTileFrom(lines, i + 1);
      } else {
        var b := BlockAt(lines, i);
        BlocksTileFrom(lines, b.end);
        assert ([b] + BlocksFrom(lines, b.end))[1..] == BlocksFrom(lines, b.end);
      }
    }
  }

  predicate Covers(b: Block, k: nat) {
    b.from <= k < b.end
  }

  lemma {:induction false} TiledOnce(lines: Lines, i: nat, blocks: seq<Block>, k: nat) returns (n: nat)
    requires i <= k < |lines| && Tiles(lines, i, blocks) && !Blank(lines[k])
    ensures n < |blocks| && Covers(blocks[n], k)
    ensures forall j :: 0 <= j < |blocks| && Covers(blocks[j], k) ==> j == n
    decreases |blocks|
  {
    assert blocks != [];
    var b := blocks[0];
    if k < b.end {
      n := 0;
      LaterBlocksAreLater(lines, b.end, blocks[1..]);
      assert forall j :: 1 <= j < |blocks| ==> blocks[j] == blocks[1..][j - 1];
    } else {
      n := TiledOnce(lines, b.end, blocks[1..], k);
      n := n + 1;
      assert forall j :: 1 <= j < |blocks| ==> blocks[j] == blocks[1..][j - 1];
    }
  }

  lemma {:induction false} LaterBlocksAreLater(lines: Lines, i: nat, blocks: seq<Block>)
    requires i <= |lines| && Tiles(lines, i, blocks)
    ensures forall j :: 0 <= j < |blocks| ==> i <= blocks[j].from
    decreases |blocks|
  {
    if blocks != [] {
      LaterBlocksAreLater(lines, blocks[0].end, blocks[1..]);
      assert forall j :: 1 <= j < |blocks| ==> blocks[j] == blocks[1..][j - 1];
    }
  }

  /** Every line that is not blank is in one block and in no other: nothing is
      skipped and nothing is read twice. */
  lemma {:induction false} EveryLineIsInOneBlock(lines: Lines, k: nat) returns (n: nat)
    requires k < |lines| && !Blank(lines[k])
    ensures n < |Blocks(lines)| && Covers(Blocks(lines)[n], k)
    ensures forall j :: 0 <= j < |Blocks(lines)| && Covers(Blocks(lines)[j], k) ==> j == n
  {
    BlocksTileFrom(lines, 0);
    n := TiledOnce(lines, 0, Blocks(lines), k);
  }

  // ---------- what a block is ----------

  ghost predicate Between(lines: Lines, i: nat, j: nat, p: string -> bool)
    requires i <= j <= |lines|
  {
    forall k :: i <= k < j ==> p(lines[k])
  }

  /** A block as its kind has to be, taking as many lines as it can. */
  ghost predicate Fits(lines: Lines, b: Block)
    requires b.from < b.end <= |lines|
    decreases b
  {
    var first := lines[b.from];
    match b.content
    case Code =>
      IsFence(first) &&
      ((b.end == |lines| && Between(lines, b.from + 1, b.end, l => !IsFence(l))) ||
       (b.from + 1 < b.end && IsFence(lines[b.end - 1]) && Between(lines, b.from + 1, b.end - 1, l => !IsFence(l))))
    case Heading => IsHeading(first) && b.end == b.from + 1
    case Callout(kind, body) =>
      !IsFence(first) && !IsHeading(first) &&
      if IsMarker(first) then
        && MarkerOf(first) == Some(kind)
        && Between(lines, b.from + 1, b.end, l => !Blank(l) && !IsMarker(l))
        && (b.end < |lines| ==> Blank(lines[b.end]) || IsMarker(lines[b.end]))
        && IsReading(lines[b.from + 1..b.end], body)
      else
        && IsQuotation(lines, b.from, b.end)
        && var inner := Unquoted(lines[b.from..b.end]); MarkerOf(inner[0]) == Some(kind) && IsReading(inner[1..], body)
    case Quote(body) =>
      !IsFence(first) && !IsHeading(first) && !IsMarker(first) && IsQuotation(lines, b.from, b.end) &&
      var inner := Unquoted(lines[b.from..b.end]); !IsMarker(inner[0]) && IsReading(inner, body)
    case Bullets =>
      !IsFence(first) && !IsHeading(first) && !IsMarker(first) && !IsQuote(first) &&
      Between(lines, b.from, b.end, l => IsBullet(l)) && (b.end < |lines| ==> !IsBullet(lines[b.end]))
    case Numbers =>
      !IsFence(first) && !IsHeading(first) && !IsMarker(first) && !IsQuote(first) && !IsBullet(first) &&
      Between(lines, b.from, b.end, l => IsNumbered(l)) && (b.end < |lines| ==> !IsNumbered(lines[b.end]))
    case Paragraph =>
      Between(lines, b.from, b.end, l => !StartsBlock(l)) && Between(lines, b.from + 1, b.end, l => !Blank(l)) &&
      (b.end < |lines| ==> Blank(lines[b.end]) || StartsBlock(lines[b.end]))
  }

  ghost predicate IsQuotation(lines: Lines, i: nat, j: nat)
    requires i < j <= |lines|
  {
    && (forall k :: 0 <= k < j - i ==> IsQuote(lines[i..j][k]))
    && (j < |lines| ==> !IsQuote(lines[j]))
  }

  /** A way to read a text as blocks: they tile it, and each is as its kind has to
      be. */
  ghost predicate IsReading(lines: Lines, blocks: seq<Block>)
    decreases blocks
  {
    Tiles(lines, 0, blocks) &&
    forall j :: 0 <= j < |blocks| ==> blocks[j].from < blocks[j].end <= |lines| && Fits(lines, blocks[j])
  }

  // ---------- one reading ----------

  lemma {:induction false} UntilIs(lines: Lines, i: nat, j: nat, stops: string -> bool)
    requires i <= j <= |lines| && (forall k :: i <= k < j ==> !stops(lines[k])) && (j < |lines| ==> stops(lines[j]))
    ensures Until(lines, i, stops) == j
    decreases j - i
  {
  }

  lemma {:induction false} BlanksAreSkipped(lines: Lines, i: nat, j: nat)
    requires i <= j <= |lines| && AllBlank(lines, i, j)
    ensures BlocksFrom(lines, i) == BlocksFrom(lines, j)
    decreases j - i
  {
    if i < j {
      BlanksAreSkipped(lines, i + 1, j);
    }
  }

  lemma {:induction false} QuotationIs(lines: Lines, i: nat, j: nat)
    requires i < j <= |lines|
    ensures IsQuotation(lines, i, j) ==>
              IsQuote(lines[i]) && Until(lines, i, line => !IsQuote(line)) == j && Quoted(lines, i) == Unquoted(lines[i..j])
    ensures IsQuote(lines[i]) && Until(lines, i, line => !IsQuote(line)) == j ==> IsQuotation(lines, i, j)
  {
    forall k | i <= k < j ensures lines[k] == lines[i..j][k - i] {
    }
    if IsQuotation(lines, i, j) {
      forall k | i <= k < j ensures IsQuote(lines[k]) {
        assert IsQuote(lines[i..j][k - i]);
      }
      UntilIs(lines, i, j, line => !IsQuote(line));
    }
  }

  /** What is found at a line is a block of its kind. */
  lemma {:induction false} BlockAtFits(lines: Lines, i: nat)
    requires i < |lines| && !Blank(lines[i])
    ensures Fits(lines, BlockAt(lines, i))
    decreases Size(lines), 0, 1
  {
    if IsFence(lines[i]) || IsHeading(lines[i]) {
      PlainFits(lines, i);
    } else if IsMarker(lines[i]) {
      CalloutFits(lines, i);
    } else if IsQuote(lines[i]) {
      QuoteFits(lines, i);
    } else {
      PlainFits(lines, i);
    }
  }

  lemma {:induction false} PlainFits(lines: Lines, i: nat)
    requires i < |lines| && !Blank(lines[i])
    requires IsFence(lines[i]) || IsHeading(lines[i]) || (!IsMarker(lines[i]) && !IsQuote(lines[i]))
    ensures Fits(lines, BlockAt(lines, i))
  {
  }

  lemma {:induction false} CalloutFits(lines: Lines, i: nat)
    requires i < |lines| && IsMarker(lines[i]) && !IsFence(lines[i]) && !IsHeading(lines[i])
    ensures Fits(lines, BlockAt(lines, i))
    decreases Size(lines), 0, 0
  {
    var body := CalloutBody(lines, i);
    var end := Until(lines, i + 1, line => Blank(line) || IsMarker(line));
    BlocksAreAReading(body);
    CalloutBlock(lines, i, end, MarkerOf(lines[i]).value, Blocks(body));
    CalloutAt(lines, i);
  }

  lemma {:induction false} CalloutAt(lines: Lines, i: nat)
    requires i < |lines| && IsMarker(lines[i]) && !IsFence(lines[i]) && !IsHeading(lines[i])
    ensures var end := Until(lines, i + 1, line => Blank(line) || IsMarker(line));
            BlockAt(lines, i) == Block(i, end, Callout(MarkerOf(lines[i]).value, Blocks(CalloutBody(lines, i))))
  {
  }

  /** The lines up to the first blank one or the next marker are the body of a callout. */
  lemma {:induction false} CalloutBlock(lines: Lines, i: nat, end: nat, kind: string, body: seq<Block>)
    requires i < end <= |lines| && MarkerOf(lines[i]) == Some(kind) && !IsFence(lines[i]) && !IsHeading(lines[i])
    requires forall k :: i < k < end ==> !Blank(lines[k]) && !IsMarker(lines[k])
    requires end < |lines| ==> Blank(lines[end]) || IsMarker(lines[end])
    requires IsReading(lines[i + 1..end], body)
    ensures Fits(lines, Block(i, end, Callout(kind, body)))
  {
  }

  lemma {:induction false} QuoteFits(lines: Lines, i: nat)
    requires i < |lines| && IsQuote(lines[i]) && !IsFence(lines[i]) && !IsHeading(lines[i]) && !IsMarker(lines[i])
    ensures Fits(lines, BlockAt(lines, i))
    decreases Size(lines), 0, 0
  {
    var inner := Quoted(lines, i);
    QuotationIs(lines, i, BlockAt(lines, i).end);
    SizeOfPart(inner, 1, |inner|);
    assert inner[1..|inner|] == inner[1..];
    if IsMarker(inner[0]) {
      BlocksAreAReading(inner[1..]);
    } else {
      BlocksAreAReading(inner);
    }
  }

  ghost predicate Sound(lines: Lines, b: Block) {
    b.from < b.end <= |lines| && Fits(lines, b)
  }

  lemma {:induction false} BlocksFromFit(lines: Lines, i: nat)
    requires i <= |lines|
    ensures forall j :: 0 <= j < |BlocksFrom(lines, i)| ==> Sound(lines, BlocksFrom(lines, i)[j])
    decreases Size(lines), |lines| - i
  {
    if i < |lines| {
      if Blank(lines[i]) {
        BlocksFromFit(lines, i + 1);
      } else {
        var b := BlockAt(lines, i);
        assert Sound(lines, b) by { BlockAtFits(lines, i); }
        BlocksFromFit(lines, b.end);
        SoundInFront(lines, b, BlocksFrom(lines, b.end));
      }
    }
  }

  lemma {:induction false} SoundInFront(lines: Lines, b: Block, rest: seq<Block>)
    requires Sound(lines, b) && forall j :: 0 <= j < |rest| ==> Sound(lines, rest[j])
    ensures forall j :: 0 <= j < |rest| + 1 ==> Sound(lines, ([b] + rest)[j])
  {
  }

  /** What is found is a reading, for every text. */
  lemma {:induction false} BlocksAreAReading(lines: Lines)
    ensures IsReading(lines, Blocks(lines))
    decreases Size(lines), |lines| + 1
  {
    BlocksTileFrom(lines, 0);
    BlocksFromFit(lines, 0);
    forall j | 0 <= j < |Blocks(lines)|
      ensures Blocks(lines)[j].from < Blocks(lines)[j].end <= |lines| && Fits(lines, Blocks(lines)[j])
    {
      assert Sound(lines, BlocksFrom(lines, 0)[j]);
    }
  }

  /** A block of its kind is the one found there. */
  lemma {:induction false} FitsIsFound(lines: Lines, b: Block)
    requires b.from < b.end <= |lines| && !Blank(lines[b.from]) && Fits(lines, b)
    ensures b == BlockAt(lines, b.from)
    decreases Size(lines), 0, 1
  {
    match b.content
    case Code => CodeIsFound(lines, b);
    case Heading =>
    case Callout(_, _) =>
      if IsMarker(lines[b.from]) {
        CalloutIsFound(lines, b);
      } else {
        QuoteIsFound(lines, b);
      }
    case Quote(_) => QuoteIsFound(lines, b);
    case _ => RunIsFound(lines, b);
  }

  lemma {:induction false} RunIsFound(lines: Lines, b: Block)
    requires b.from < b.end <= |lines| && !Blank(lines[b.from]) && Fits(lines, b)
    requires b.content.Bullets? || b.content.Numbers? || b.content.Paragraph?
    ensures b == BlockAt(lines, b.from)
  {
  }

  lemma {:induction false} CalloutIsFound(lines: Lines, b: Block)
    requires b.from < b.end <= |lines| && Fits(lines, b) && b.content.Callout? && IsMarker(lines[b.from])
    ensures b == BlockAt(lines, b.from)
    decreases Size(lines), 0, 0
  {
    CalloutIs(lines, b);
    CalloutEnds(lines, b.from, b.end);
    CalloutAt(lines, b.from);
    OneReading(CalloutBody(lines, b.from), b.content.body);
  }

  lemma {:induction false} CalloutIs(lines: Lines, b: Block)
    requires b.from < b.end <= |lines| && Fits(lines, b) && b.content.Callout? && IsMarker(lines[b.from])
    ensures !IsFence(lines[b.from]) && !IsHeading(lines[b.from]) && MarkerOf(lines[b.from]) == Some(b.content.kind)
    ensures forall k :: b.from < k < b.end ==> !Blank(lines[k]) && !IsMarker(lines[k])
    ensures b.end < |lines| ==> Blank(lines[b.end]) || IsMarker(lines[b.end])
    ensures IsReading(lines[b.from + 1..b.end], b.content.body)
  {
  }

  lemma {:induction false} CalloutEnds(lines: Lines, i: nat, end: nat)
    requires i < end <= |lines| && forall k :: i < k < end ==> !Blank(lines[k]) && !IsMarker(lines[k])
    requires end < |lines| ==> Blank(lines[end]) || IsMarker(lines[end])
    ensures Until(lines, i + 1, line => Blank(line) || IsMarker(line)) == end && CalloutBody(lines, i) == lines[i + 1..end]
  {
    UntilIs(lines, i + 1, end, line => Blank(line) || IsMarker(line));
  }

  lemma {:induction false} CodeIsFound(lines: Lines, b: Block)
    requires b.from < b.end <= |lines| && Fits(lines, b) && b.content.Code?
    ensures b == BlockAt(lines, b.from)
  {
  }

  lemma {:induction false} QuoteIsFound(lines: Lines, b: Block)
    requires b.from < b.end <= |lines| && Fits(lines, b)
    requires b.content.Quote? || (b.content.Callout? && !IsMarker(lines[b.from]))
    ensures b == BlockAt(lines, b.from)
    decreases Size(lines), 0, 0
  {
    QuotationIs(lines, b.from, b.end);
    var inner := Quoted(lines, b.from);
    SizeOfPart(inner, 1, |inner|);
    assert inner[1..|inner|] == inner[1..];
    if IsMarker(inner[0]) {
      OneReading(inner[1..], b.content.body);
    } else {
      OneReading(inner, b.content.body);
    }
  }

  lemma {:induction false} OneReadingFrom(lines: Lines, i: nat, blocks: seq<Block>)
    requires i <= |lines| && Tiles(lines, i, blocks)
    requires forall j :: 0 <= j < |blocks| ==> blocks[j].from < blocks[j].end <= |lines| && Fits(lines, blocks[j])
    ensures blocks == BlocksFrom(lines, i)
    decreases Size(lines), |lines| - i
  {
    if blocks == [] {
      BlanksAreSkipped(lines, i, |lines|);
    } else {
      var b := blocks[0];
      BlanksAreSkipped(lines, i, b.from);
      FitsIsFound(lines, b);
      assert forall j :: 0 <= j < |blocks| - 1 ==> blocks[1..][j] == blocks[j + 1];
      OneReadingFrom(lines, b.end, blocks[1..]);
      assert [b] + blocks[1..] == blocks;
    }
  }

  /** And there is no other: what the blocks of a text are is settled by what each
      of them has to be. */
  lemma {:induction false} OneReading(lines: Lines, blocks: seq<Block>)
    requires IsReading(lines, blocks)
    ensures blocks == Blocks(lines)
    decreases Size(lines), |lines| + 1
  {
    OneReadingFrom(lines, 0, blocks);
  }

  /** No line of a paragraph is one that would have started another block. */
  lemma {:induction false} ParagraphsStartNothing(lines: Lines, n: nat, k: nat)
    requires n < |Blocks(lines)| && Blocks(lines)[n].content.Paragraph? && Covers(Blocks(lines)[n], k)
    ensures k < |lines| && !StartsBlock(lines[k])
  {
    BlocksAreAReading(lines);
    assert Fits(lines, Blocks(lines)[n]);
  }
}
