/** The token of a calendar's delta: the window the delta is bound to, when it was
    issued and the link that goes on from it, printed as one string. Instants are
    seconds, in 64 bits. */
module CalendarToken {
  import opened Basics
  import opened Text

  const DAY: int := 86400
  const BACK: int := 60 * DAY
  const FORWARD: int := 540 * DAY
  const STALE: int := 30 * DAY
  const LIFE: int := DAY

  /** The zero instant, which a token without a date of issue has. */
  const ZERO: int := -62135596800

  datatype Token = Token(from: int, upTo: int, issued: int, link: string)

  // ---------- printing and reading ----------

  predicate Fits(x: int) {
    -0x8000_0000_0000_0000 <= x < 0x8000_0000_0000_0000
  }

  function PrintInt(x: int): string {
    if x < 0 then "-" + Print(-x) else Print(x)
  }

  function ParseInt(s: string): Option<int> {
    var signed := s != "" && (s[0] == '-' || s[0] == '+');
    var n := Number(if signed then s[1..] else s);
    if n.None? then None
    else
      var size: int := n.value;
      var x := if signed && s[0] == '-' then -size else size;
      if Fits(x) then Some(x) else None
  }

  function PrintToken(t: Token): string {
    PrintInt(t.from) + "|" + (PrintInt(t.upTo) + "|" + (PrintInt(t.issued) + "|" + t.link))
  }

  /** At most four parts; the fourth keeps any bars of its own. A token of three is
      from before there was a date of issue. */
  function ParseToken(s: string): Option<Token> {
    var a := FirstIndex(s, '|');
    if a.None? then None
    else
      var rest := s[a.value + 1..];
      var b := FirstIndex(rest, '|');
      if b.None? then None
      else
        var from, upTo, last := ParseInt(s[..a.value]), ParseInt(rest[..b.value]), rest[b.value + 1..];
        var c := FirstIndex(last, '|');
        if from.None? || upTo.None? then None
        else if c.None? then Some(Token(from.value, upTo.value, ZERO, last))
        else
          var issued := ParseInt(last[..c.value]);
          Some(Token(from.value, upTo.value, if issued.Some? then issued.value else ZERO, last[c.value + 1..]))
  }

  lemma {:induction false} DigitsOnly(n: nat)
    ensures Print(n)[0] != '-' && Print(n)[0] != '+' && '|' !in Print(n)
  {
    assert IsDigit(Print(n)[0]);
    assert forall k :: 0 <= k < |Print(n)| ==> IsDigit(Print(n)[k]);
  }

  lemma {:induction false} SignedReads(digits: string, n: int)
    requires n >= 0 && Number(digits) == Some(n) && Fits(-n)
    ensures ParseInt("-" + digits) == Some(-n)
  {
    assert ("-" + digits)[1..] == digits;
  }

  lemma {:induction false} IntReadsBack(x: int)
    requires Fits(x)
    ensures ParseInt(PrintInt(x)) == Some(x)
    ensures '|' !in PrintInt(x)
  {
    if x < 0 {
      NumberOfPrint(-x);
      DigitsOnly(-x);
      SignedReads(Print(-x), -x);
    } else {
      NumberOfPrint(x);
      DigitsOnly(x);
    }
  }

  lemma {:induction false} BarEnds(head: string, rest: string)
    requires '|' !in head
    ensures var s := head + "|" + rest;
            FirstIndex(s, '|') == Some(|head|) && s[..|head|] == head && s[|head| + 1..] == rest
  {
    var s := head + "|" + rest;
    assert s[|head|] == '|';
    assert forall k :: 0 <= k < |head| ==> s[k] == head[k] && head[k] in head;
  }

  /** Every token reads back, whatever its link holds. */
  lemma {:induction false} TokenReadsBack(t: Token)
    requires Fits(t.from) && Fits(t.upTo) && Fits(t.issued)
    ensures ParseToken(PrintToken(t)) == Some(t)
  {
    IntReadsBack(t.from);
    IntReadsBack(t.upTo);
    IntReadsBack(t.issued);
    BarEnds(PrintInt(t.from), PrintInt(t.upTo) + "|" + (PrintInt(t.issued) + "|" + t.link));
    BarEnds(PrintInt(t.upTo), PrintInt(t.issued) + "|" + t.link);
    BarEnds(PrintInt(t.issued), t.link);
  }

  // ---------- when it is spent ----------

  /** The window starts on a day's midnight and stays as it is while the token is
      passed on. */
  function Fresh(now: int, link: string): Token {
    var day := now - now % DAY;
    Token(day - BACK, day + FORWARD, now, link)
  }

  predicate Spent(t: Token, now: int) {
    now - t.issued > LIFE || now - t.from > BACK + STALE
  }

  /** What a round makes of the token it is given: one of its own if it has none, and
      an error for one that cannot be read or is spent. */
  function Begins(token: string, now: int, link: string): Option<Token> {
    if token == "" then Some(Fresh(now, link))
    else
      var t := ParseToken(token);
      if t.None? || Spent(t.value, now) then None else t
  }

  /** A token without a date of issue is spent. */
  lemma {:induction false} OldTokenIsSpent(from: int, upTo: int, link: string, now: int)
    requires Fits(from) && Fits(upTo) && '|' !in link && now > ZERO + LIFE
    ensures Begins(PrintInt(from) + "|" + (PrintInt(upTo) + "|" + link), now, "").None?
  {
    IntReadsBack(from);
    IntReadsBack(upTo);
    BarEnds(PrintInt(from), PrintInt(upTo) + "|" + link);
    BarEnds(PrintInt(upTo), link);
    assert FirstIndex(link, '|').None?;
  }

  /** One round after another with the token of the one before. A round without error
      hands its token on with the next link; after an error the next starts over. */
  datatype Round = Round(now: int, link: string, next: string)

  function TokenAfter(token: string, r: Round): string {
    var t := Begins(token, r.now, r.link);
    if t.None? then "" else PrintToken(t.value.(link := r.next))
  }

  function TokenBefore(rounds: seq<Round>): string {
    if rounds == [] then "" else TokenAfter(TokenBefore(rounds[..|rounds| - 1]), rounds[|rounds| - 1])
  }

  ghost predicate Clocked(rounds: seq<Round>) {
    && (forall i :: 0 <= i < |rounds| ==> -0x4000_0000_0000_0000 <= rounds[i].now < 0x4000_0000_0000_0000)
    && forall i, j :: 0 <= i < j < |rounds| ==> rounds[i].now <= rounds[j].now
  }

  /** A token of the program's own making. */
  ghost predicate OwnToken(token: string, now: int) {
    token == "" || exists issued: int, link: string ::
      issued <= now && -0x4000_0000_0000_0000 <= issued && now < 0x4000_0000_0000_0000 && token == PrintToken(Fresh(issued, "").(link := link))
  }

  lemma {:induction false} OwnTokenHandedOn(token: string, r: Round, now: int)
    requires OwnToken(token, r.now) && r.now <= now < 0x4000_0000_0000_0000 && -0x4000_0000_0000_0000 <= r.now
    ensures OwnToken(TokenAfter(token, r), now)
  {
    if token == "" {
      assert TokenAfter(token, r) == PrintToken(Fresh(r.now, "").(link := r.next));
    } else {
      var issued: int, link: string :| issued <= r.now && -0x4000_0000_0000_0000 <= issued && r.now < 0x4000_0000_0000_0000 &&
        token == PrintToken(Fresh(issued, "").(link := link));
      TokenReadsBack(Fresh(issued, "").(link := link));
      if Begins(token, r.now, r.link).Some? {
        assert TokenAfter(token, r) == PrintToken(Fresh(issued, "").(link := r.next));
      }
    }
  }

  lemma {:induction false} TokensAreOwn(rounds: seq<Round>, now: int)
    requires Clocked(rounds) && -0x4000_0000_0000_0000 <= now < 0x4000_0000_0000_0000
    requires forall i :: 0 <= i < |rounds| ==> rounds[i].now <= now
    ensures OwnToken(TokenBefore(rounds), now)
  {
    if rounds != [] {
      var n := |rounds| - 1;
      TokensAreOwn(rounds[..n], rounds[n].now);
      OwnTokenHandedOn(TokenBefore(rounds[..n]), rounds[n], now);
    }
  }

  /** Over any run of rounds under a clock that does not go back, no round goes by a
      token more than a day old, and its window still reaches back sixty days and
      ahead more than five hundred and thirty-eight. A token a run hands on is spent
      exactly when it is more than a day old: its window never gets stale first. */
  lemma {:induction false} WindowsFollowTheClock(rounds: seq<Round>, now: int, link: string)
    requires Clocked(rounds) && -0x4000_0000_0000_0000 <= now < 0x4000_0000_0000_0000
    requires forall i :: 0 <= i < |rounds| ==> rounds[i].now <= now
    ensures var token := TokenBefore(rounds); var t := Begins(token, now, link);
            && (t.Some? ==> t.value.issued <= now <= t.value.issued + LIFE &&
                            now - 62 * DAY < t.value.from <= now - BACK && now + 538 * DAY < t.value.upTo)
            && (token != "" ==> ParseToken(token).Some? &&
                                (Spent(ParseToken(token).value, now) <==> now - ParseToken(token).value.issued > LIFE))
  {
    TokensAreOwn(rounds, now);
    var token := TokenBefore(rounds);
    if token != "" {
      var issued: int, l: string :| issued <= now && -0x4000_0000_0000_0000 <= issued && now < 0x4000_0000_0000_0000 &&
        token == PrintToken(Fresh(issued, "").(link := l));
      TokenReadsBack(Fresh(issued, "").(link := l));
    }
  }
}
