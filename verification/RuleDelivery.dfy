/** What the rules do to mail. The server runs them in sequence: a rule acts when the
    sender meets every condition it has, and one that says so is the last to run. */
module RuleDelivery {
  import opened Basics
  import opened Text
  import opened RuleTables
  import opened RuleSync
  import opened RuleProtocol
  import opened RuleReading
  import opened RoutingLists

  /** Where a mail ends: moved to a folder or not, deleted or not, read or not. */
  datatype Landing = Landing(folder: string, deleted: bool, read: bool)

  const ARRIVED: Landing := Landing("", false, false)

  predicate OccursAt(part: string, whole: string, i: int) {
    0 <= i <= |whole| - |part| && whole[i..i + |part|] == part
  }

  predicate Occurs(part: string, whole: string) {
    exists i :: 0 <= i <= |whole| - |part| && OccursAt(part, whole, i)
  }

  predicate Matches(g: GraphRule, sender: string) {
    && g.enabled
    && (g.from == [] || exists a :: a in g.from && SameFold(a, sender))
    && (g.senderContains == [] || exists s :: s in g.senderContains && Occurs(Lower(s), Lower(sender)))
  }

  function Acted(g: GraphRule, l: Landing): Landing {
    Landing(if g.moveTo != "" then g.moveTo else l.folder, l.deleted || g.delete, l.read || g.markRead)
  }

  function Run(rules: Rules, sender: string, l: Landing): Landing {
    if rules == [] then l
    else
      var g := rules[0].rule;
      if !Matches(g, sender) then Run(rules[1..], sender, l)
      else if g.stop then Acted(g, l)
      else Run(rules[1..], sender, Acted(g, l))
  }

  /** What becomes of a mail that arrives in the Inbox. */
  function Delivered(rules: Rules, sender: string): Landing {
    Run(Sort(rules), sender, ARRIVED)
  }

  // ---------- what a decision asks for ----------

  /** The sender is one the rule is about. */
  predicate IsAbout(r: Rule, sender: string) {
    r.catchAll ||
    (&& (r.from == [] || exists a :: a in r.from && SameFold(a, sender))
     && (r.domains == [] || exists d :: d in r.domains && Occurs("@" + Lower(d), Lower(sender))))
  }

  function IdOf(box: string, folders: FolderMap): string {
    if box in folders then folders[box] else ""
  }

  /** Where mail of a decided sender belongs, and whether it is read: the Inbox
      unread, the Paper Trail and the Feed read, the bin read. A sender nothing was
      decided about waits unread in the Screener. */
  function LandingOf(d: Destination, folders: FolderMap): Landing {
    match d
    case Inbox => Landing(IdOf("INBOX", folders), false, false)
    case PaperTrail => Landing(IdOf("INBOX/Paper Trail", folders), false, true)
    case Feed => Landing(IdOf("INBOX/Feed", folders), false, true)
    case Block => Landing("", true, true)
    case _ => Landing(IdOf("INBOX/Screener", folders), false, false)
  }

  predicate IsDecision(r: Rule) {
    if r.catchAll then r.dest.Undecided? else IsRoutable(r.dest)
  }

  /** The first rule about the sender decides. */
  function Asked(want: seq<Rule>, sender: string, folders: FolderMap): Landing {
    if want == [] then ARRIVED
    else if IsAbout(want[0], sender) then LandingOf(want[0].dest, folders)
    else Asked(want[1..], sender, folders)
  }

  // ---------- the rules as they are sent ----------

  lemma {:induction false} SentIsAbout(r: Rule, sequence: int, g: GraphRule, folders: FolderMap, sender: string)
    requires Build(r, sequence, folders) == Some(g) && IsDecision(r)
    ensures Matches(g, sender) <==> IsAbout(r, sender)
    ensures g.stop && Acted(g, ARRIVED) == LandingOf(r.dest, folders)
  {
    if !r.catchAll {
      assert |Prefixed(r.domains)| == |r.domains|;
      forall s ensures s in Prefixed(r.domains) <==> exists d :: d in r.domains && s == "@" + d {
        if d :| d in r.domains && s == "@" + d {
          var i :| 0 <= i < |r.domains| && r.domains[i] == d;
          assert Prefixed(r.domains)[i] == s;
        }
      }
      forall d: string ensures Lower("@" + d) == "@" + Lower(d) {
      }
      if d :| d in r.domains && Occurs("@" + Lower(d), Lower(sender)) {
        assert "@" + d in Prefixed(r.domains);
      }
    }
  }

  lemma {:induction false} SentRulesRun(tail: Rules, built: seq<GraphRule>, want: seq<Rule>, first: int, folders: FolderMap, sender: string)
    requires IsBuilt(built, want, first, folders) && |tail| == |built|
    requires forall i :: 0 <= i < |built| ==> tail[i].rule == built[i]
    requires forall r :: r in want ==> IsDecision(r)
    ensures Run(tail, sender, ARRIVED) == Asked(want, sender, folders)
  {
    if want != [] {
      SentIsAbout(want[0], first, built[0], folders, sender);
      assert IsBuilt(built[1..], want[1..], first + 1, folders) by {
        assert forall i :: 0 <= i < |want| - 1 ==> want[1..][i] == want[i + 1] && built[1..][i] == built[i + 1];
      }
      SentRulesRun(tail[1..], built[1..], want[1..], first + 1, folders, sender);
    }
  }

  // ---------- behind the rules of others ----------

  lemma {:induction false} InsertBefore(x: ServerRule, sorted: Rules, tail: Rules)
    requires forall y :: y in tail ==> x.rule.sequence <= y.rule.sequence
    ensures Insert(x, sorted + tail) == Insert(x, sorted) + tail
  {
    if sorted == [] {
      assert [] + tail == tail;
    } else {
      InsertBefore(x, sorted[1..], tail);
      assert (sorted + tail)[1..] == sorted[1..] + tail;
    }
  }

  lemma {:induction false} SortBefore(rules: Rules, tail: Rules)
    requires Sorted(tail) && forall x, y :: x in rules && y in tail ==> x.rule.sequence <= y.rule.sequence
    ensures Sort(rules + tail) == Sort(rules) + tail
  {
    if rules == [] {
      SortOfSorted(tail);
      assert [] + tail == tail;
    } else {
      SortBefore(rules[1..], tail);
      InsertBefore(rules[0], Sort(rules[1..]), tail);
      assert (rules + tail)[1..] == rules[1..] + tail;
    }
  }

  lemma {:induction false} SortKeeps(rules: Rules)
    ensures forall x :: x in Sort(rules) <==> x in rules
  {
    if rules != [] {
      SortKeeps(rules[1..]);
      SortSorts(rules[1..]);
      InsertSorts(rules[0], Sort(rules[1..]));
      assert rules == [rules[0]] + rules[1..];
    }
  }

  lemma {:induction false} RunPasses(rules: Rules, tail: Rules, sender: string, l: Landing)
    requires forall x :: x in rules ==> !Matches(x.rule, sender)
    ensures Run(rules + tail, sender, l) == Run(tail, sender, l)
  {
    if rules == [] {
      assert [] + tail == tail;
    } else {
      RunPasses(rules[1..], tail, sender, l);
      assert (rules + tail)[1..] == rules[1..] + tail;
    }
  }

  lemma {:induction false} HighestIsMax(rules: Rules)
    ensures forall x :: x in rules ==> x.rule.sequence <= MaxSequence(rules)
  {
    if rules != [] {
      var n := |rules| - 1;
      HighestIsMax(rules[..n]);
      assert forall x :: x in rules <==> x in rules[..n] || x == rules[n];
    }
  }

  /** After a write that went through, mail no rule of a human's takes goes where the
      first wanted rule about its sender says. */
  lemma {:induction false} MailLandsAsAsked(before: Rules, after: Rules, built: seq<GraphRule>, want: seq<Rule>, folders: FolderMap, sender: string)
    requires Replaced(before, after, built) && IsBuilt(built, want, MaxSequence(before) + 1, folders)
    requires forall r :: r in want ==> IsDecision(r)
    requires forall x :: x in before && !Ours(x) ==> !Matches(x.rule, sender)
    ensures Delivered(after, sender) == Asked(want, sender, folders)
  {
    var kept := Foreign(before);
    var tail := after[|kept|..];
    assert after == kept + tail;
    WrittenGoesLast(before, tail, built, want, folders);
    assert forall x :: x in Sort(kept) ==> !Matches(x.rule, sender) by {
      SortKeeps(kept);
      ForeignIdempotent(before);
    }
    RunPasses(Sort(kept), tail, sender, ARRIVED);
    SentRulesRun(tail, built, want, MaxSequence(before) + 1, folders, sender);
  }

  lemma {:induction false} WrittenGoesLast(before: Rules, tail: Rules, built: seq<GraphRule>, want: seq<Rule>, folders: FolderMap)
    requires IsBuilt(built, want, MaxSequence(before) + 1, folders) && |tail| == |built|
    requires forall i :: 0 <= i < |built| ==> tail[i].rule == built[i]
    ensures Sort(Foreign(before) + tail) == Sort(Foreign(before)) + tail
  {
    WrittenIsSorted(tail, built, want, MaxSequence(before) + 1, folders);
    ForeignIdempotent(before);
    HighestIsMax(before);
    forall x, y | x in Foreign(before) && y in tail ensures x.rule.sequence <= y.rule.sequence {
      var i :| 0 <= i < |tail| && tail[i] == y;
      assert y.rule == built[i];
    }
    SortBefore(Foreign(before), tail);
  }

  // ---------- the Routing's own rules ----------

  /** A key of the slot takes the sender: the address itself, or a domain that occurs
      in it. */
  predicate Takes(decided: Decisions, s: Slot, sender: string) {
    exists k :: k in decided && decided[k] == s.dest && IsDomain(k) == s.domains && TakesBy(k, sender)
  }

  predicate TakesBy(k: string, sender: string) {
    if IsDomain(k) then Occurs(k, Lower(sender)) else k == Lower(sender)
  }

  /** What the first slot that takes the sender says. */
  function Ruled(decided: Decisions, slots: seq<Slot>, sender: string): Destination {
    if slots == [] then Undecided
    else if Takes(decided, slots[0], sender) then slots[0].dest
    else Ruled(decided, slots[1..], sender)
  }

  lemma {:induction false} KeyIsLower(decided: Decisions, k: string)
    requires Sound(decided) && k in decided
    ensures Lower(k) == k
  {
    LowerTrims(Trim(k));
  }

  lemma {:induction false} AddressFolds(decided: Decisions, k: string, sender: string)
    requires Sound(decided) && k in decided
    ensures SameFold(k, sender) <==> k == Lower(sender)
  {
    KeyIsLower(decided, k);
    assert SameFold(k, sender) <==> Lower(k) == Lower(sender) by {
      if Lower(k) == Lower(sender) {
        assert |Lower(k)| == |Lower(sender)|;
        assert forall i :: 0 <= i < |k| ==> Lower(k)[i] == Lower(sender)[i];
      }
    }
  }

  lemma {:induction false} DomainOccurs(decided: Decisions, keys: seq<string>, s: Slot, sender: string)
    requires Sound(decided) && AreKeys(keys, decided, s) && s.domains
    ensures (exists d :: d in Domains(keys) && Occurs("@" + Lower(d), Lower(sender))) <==> exists k :: k in keys && Occurs(k, Lower(sender))
  {
    forall i | 0 <= i < |keys| ensures "@" + Lower(Domains(keys)[i]) == keys[i] {
      assert keys[i] in keys;
      KeyIsLower(decided, keys[i]);
      assert Lower(keys[i][1..]) == Lower(keys[i])[1..];
    }
    if d :| d in Domains(keys) && Occurs("@" + Lower(d), Lower(sender)) {
      var i :| 0 <= i < |keys| && Domains(keys)[i] == d;
      assert keys[i] in keys;
    }
    if k :| k in keys && Occurs(k, Lower(sender)) {
      var i :| 0 <= i < |keys| && keys[i] == k;
      assert Domains(keys)[i] in Domains(keys);
    }
  }

  lemma {:induction false} RuleTakesIff(decided: Decisions, keys: seq<string>, s: Slot, sender: string)
    requires Sound(decided) && AreKeys(keys, decided, s)
    ensures keys == [] ==> !Takes(decided, s, sender)
    ensures keys != [] ==> (IsAbout(RuleFor(s, keys)[0], sender) <==> Takes(decided, s, sender))
  {
    assert Takes(decided, s, sender) <==> exists k :: k in keys && TakesBy(k, sender);
    if s.domains {
      DomainOccurs(decided, keys, s, sender);
    } else {
      forall k | k in keys ensures SameFold(k, sender) <==> TakesBy(k, sender) {
        AddressFolds(decided, k, sender);
      }
    }
  }

  ghost predicate GrowsAtTheEnd(over: seq<Slot> -> seq<Rule>, one: Slot -> seq<Rule>, slots: seq<Slot>) {
    if slots == [] then over(slots) == []
    else over(slots) == over(slots[..|slots| - 1]) + one(slots[|slots| - 1])
  }

  lemma {:induction false} FromTheFront(over: seq<Slot> -> seq<Rule>, one: Slot -> seq<Rule>, slots: seq<Slot>)
    requires slots != [] && forall some :: GrowsAtTheEnd(over, one, some)
    ensures over(slots) == one(slots[0]) + over(slots[1..])
  {
    var n, rest := |slots| - 1, slots[1..];
    assert GrowsAtTheEnd(over, one, slots) && GrowsAtTheEnd(over, one, rest) && GrowsAtTheEnd(over, one, []);
    if n == 0 {
      assert slots[..0] == [] && rest == [] && [] + one(slots[0]) == one(slots[0]) + [];
    } else {
      FromTheFront(over, one, slots[..n]);
      assert slots[..n][1..] == rest[..n - 1] && rest[n - 1] == slots[n];
    }
  }

  lemma {:induction false} RulesFromTheFront(slots: seq<Slot>, keys: Slot -> seq<string>)
    requires slots != []
    ensures RulesOver(slots, keys) == RuleFor(slots[0], keys(slots[0])) + RulesOver(slots[1..], keys)
  {
    var over, one := (some: seq<Slot>) => RulesOver(some, keys), (s: Slot) => RuleFor(s, keys(s));
    forall some ensures GrowsAtTheEnd(over, one, some) {
      RulesGrow(some, keys);
    }
    FromTheFront(over, one, slots);
  }

  lemma {:induction false} RulesGrow(slots: seq<Slot>, keys: Slot -> seq<string>)
    ensures if slots == [] then RulesOver(slots, keys) == []
            else var n := |slots| - 1; RulesOver(slots, keys) == RulesOver(slots[..n], keys) + RuleFor(slots[n], keys(slots[n]))
  {
  }

  lemma {:induction false} AskedOver(decided: Decisions, slots: seq<Slot>, keys: Slot -> seq<string>, folders: FolderMap, sender: string)
    requires Sound(decided) && forall s :: s in slots ==> AreKeys(keys(s), decided, s)
    ensures Asked(RulesOver(slots, keys) + [SCREENS], sender, folders) == LandingOf(Ruled(decided, slots, sender), folders)
  {
    if slots == [] {
      assert [] + [SCREENS] == [SCREENS];
    } else {
      var s := slots[0];
      AskedOver(decided, slots[1..], keys, folders, sender);
      RulesFromTheFront(slots, keys);
      RuleTakesIff(decided, keys(s), s, sender);
      var rest := RulesOver(slots[1..], keys) + [SCREENS];
      assert RulesOver(slots, keys) + [SCREENS] == RuleFor(s, keys(s)) + rest;
      if keys(s) == [] {
        assert [] + rest == rest;
      } else {
        assert (RuleFor(s, keys(s)) + rest)[1..] == rest;
      }
    }
  }

  lemma {:induction false} AllAreDecisions(slots: seq<Slot>, keys: Slot -> seq<string>)
    requires forall s :: s in slots ==> IsRoutable(s.dest)
    ensures forall r :: r in RulesOver(slots, keys) ==> IsDecision(r)
  {
    if slots != [] {
      AllAreDecisions(slots[..|slots| - 1], keys);
    }
  }

  /** After the Routing was written, mail no rule of a human's takes goes where its
      first slot that takes the sender says: addresses before domains, and either in
      the order of the destinations. */
  lemma {:induction false} MailLandsAsRuled(before: Rules, after: Rules, built: seq<GraphRule>, want: seq<Rule>, folders: FolderMap,
                                            decided: Decisions, keys: Slot -> seq<string>, sender: string)
    requires Sound(decided) && AreRules(want, decided, keys)
    requires Replaced(before, after, built) && IsBuilt(built, want, MaxSequence(before) + 1, folders)
    requires forall x :: x in before && !Ours(x) ==> !Matches(x.rule, sender)
    ensures Delivered(after, sender) == LandingOf(Ruled(decided, SLOTS, sender), folders)
  {
    AllAreDecisions(SLOTS, keys);
    MailLandsAsAsked(before, after, built, want, folders, sender);
    AskedOver(decided, SLOTS, keys, folders, sender);
  }

  // ---------- as was decided ----------

  function Rank(d: Destination): nat {
    match d
    case Block => 0
    case Inbox => 1
    case PaperTrail => 2
    case Feed => 3
    case _ => 4
  }

  /** No decision on the very address, and a domain that only occurs in it belongs to a
      destination that comes before the one decided. */
  predicate Overtaken(decided: Decisions, sender: string) {
    var a := Lower(sender);
    && !(a in decided && !IsDomain(a))
    && exists k :: k in decided && IsDomain(k) && Occurs(k, a) && Rank(decided[k]) < Rank(Of(decided, sender))
  }

  /** The least rank, from n on, of a domain that occurs. */
  ghost predicate FirstRank(decided: Decisions, sender: string, d: Destination) {
    && (IsRoutable(d) ==> Takes(decided, Slot(d, true), sender))
    && (d.Undecided? || IsRoutable(d))
    && forall k :: k in decided && IsDomain(k) && Occurs(k, Lower(sender)) ==> Rank(d) <= Rank(decided[k])
  }

  lemma {:induction false} DomainsRule(decided: Decisions, sender: string)
    requires Sound(decided)
    ensures FirstRank(decided, sender, Ruled(decided, SLOTS[4..], sender))
  {
    forall k | k in decided && IsDomain(k) && Occurs(k, Lower(sender)) ensures Takes(decided, Slot(decided[k], true), sender) {
      assert TakesBy(k, sender);
    }
    RuledFour(decided, true, sender);
    assert SLOTS[4..] == Four(true);
  }

  function Four(domains: bool): seq<Slot> {
    [Slot(Block, domains), Slot(Inbox, domains), Slot(PaperTrail, domains), Slot(Feed, domains)]
  }

  lemma {:induction false} RuledFour(decided: Decisions, domains: bool, sender: string)
    ensures Ruled(decided, Four(domains), sender) ==
              if Takes(decided, Slot(Block, domains), sender) then Block
              else if Takes(decided, Slot(Inbox, domains), sender) then Inbox
              else if Takes(decided, Slot(PaperTrail, domains), sender) then PaperTrail
              else if Takes(decided, Slot(Feed, domains), sender) then Feed
              else Undecided
  {
    var block, inbox, trail, feed := Slot(Block, domains), Slot(Inbox, domains), Slot(PaperTrail, domains), Slot(Feed, domains);
    assert Four(domains) == [block] + ([inbox] + ([trail] + ([feed] + [])));
    RuledNext(decided, feed, [], sender);
    RuledNext(decided, trail, [feed] + [], sender);
    RuledNext(decided, inbox, [trail] + ([feed] + []), sender);
    RuledNext(decided, block, [inbox] + ([trail] + ([feed] + [])), sender);
  }

  lemma {:induction false} RuledNext(decided: Decisions, s: Slot, rest: seq<Slot>, sender: string)
    ensures Ruled(decided, [s] + rest, sender) == if Takes(decided, s, sender) then s.dest else Ruled(decided, rest, sender)
  {
    assert ([s] + rest)[1..] == rest;
  }

  lemma {:induction false} RuledBoth(decided: Decisions, a: seq<Slot>, b: seq<Slot>, sender: string)
    ensures Ruled(decided, a + b, sender) ==
              if exists s :: s in a && Takes(decided, s, sender) then Ruled(decided, a, sender) else Ruled(decided, b, sender)
  {
    if a == [] {
      assert a + b == b;
    } else {
      RuledBoth(decided, a[1..], b, sender);
      assert (a + b)[1..] == a[1..] + b;
      assert forall s :: s in a <==> s == a[0] || s in a[1..];
    }
  }

  lemma {:induction false} AddressTakes(decided: Decisions, sender: string, d: Destination)
    requires Sound(decided)
    ensures var a := Lower(sender);
            Takes(decided, Slot(d, false), sender) <==> a in decided && !IsDomain(a) && decided[a] == d
  {
    var a := Lower(sender);
    if a in decided && !IsDomain(a) && decided[a] == d {
      assert TakesBy(a, sender);
    }
  }

  /** A decision on the very address is what rules. */
  lemma {:induction false} AddressRules(decided: Decisions, sender: string)
    requires Sound(decided)
    ensures var a := Lower(sender);
            Ruled(decided, SLOTS, sender) == if a in decided && !IsDomain(a) then decided[a] else Ruled(decided, SLOTS[4..], sender)
  {
    var a := Lower(sender);
    assert SLOTS == Four(false) + SLOTS[4..];
    RuledBoth(decided, Four(false), SLOTS[4..], sender);
    RuledFour(decided, false, sender);
    forall d ensures Takes(decided, Slot(d, false), sender) <==> a in decided && !IsDomain(a) && decided[a] == d {
      AddressTakes(decided, sender, d);
    }
    if a in decided && !IsDomain(a) {
      assert Slot(decided[a], false) in Four(false);
    }
  }

  lemma {:induction false} OfIs(decided: Decisions, sender: string, a: string)
    requires Trim(sender) == sender && a == Lower(sender)
    ensures a in decided ==> Of(decided, sender) == decided[a]
    ensures a !in decided && !Of(decided, sender).Undecided? ==>
              && !IsDomain(a) && DomainOf(sender) != "" && "@" + DomainOf(sender) in decided
              && Of(decided, sender) == decided["@" + DomainOf(sender)]
  {
    NormalIsNormal(sender);
    SameDomain(sender, a);
  }

  lemma {:induction false} SameDomain(x: string, y: string)
    requires Normalise(x) == Normalise(y)
    ensures DomainOf(x) == DomainOf(y)
  {
  }

  /** What was decided about a domain occurs in every address of it. */
  lemma {:induction false} DecidedOccurs(decided: Decisions, sender: string, a: string)
    requires Trim(sender) == sender && a == Lower(sender) && !(a in decided && !IsDomain(a))
    ensures Of(decided, sender).Undecided? || Takes(decided, Slot(Of(decided, sender), true), sender)
  {
    OfIs(decided, sender, a);
    if a in decided {
      WholeOccurs(a);
      KeyTakes(decided, a, sender);
    } else if !Of(decided, sender).Undecided? {
      DomainKeyIsDomain(sender);
      KeyTakes(decided, "@" + DomainOf(sender), sender);
    }
  }

  lemma {:induction false} WholeOccurs(a: string)
    ensures Occurs(a, a)
  {
    assert a[0..0 + |a|] == a;
    assert OccursAt(a, a, 0);
  }

  lemma {:induction false} KeyTakes(decided: Decisions, k: string, sender: string)
    requires k in decided && IsDomain(k) && Occurs(k, Lower(sender))
    ensures Takes(decided, Slot(decided[k], true), sender)
  {
    assert TakesBy(k, sender);
  }

  lemma {:induction false} SuffixIsDomain(a: string, i: nat)
    requires IsTrim(a) && Lower(a) == a && i + 1 < |a| && a[i] == '@' && forall k :: i < k < |a| ==> a[k] != '@'
    ensures IsDomain(a[i..]) && Occurs(a[i..], a)
  {
    var k := a[i..];
    assert IsTrim(k);
    TrimsToItself(k);
    assert Lower(k) == Lower(a)[i..];
    assert forall j :: 0 <= j < |k| - 1 ==> k[1..][j] == a[i + 1 + j];
    assert OccursAt(k, a, i);
  }

  lemma {:induction false} LowerIsNormal(sender: string)
    requires Trim(sender) == sender
    ensures var a := Lower(sender);
            IsTrim(a) && Lower(a) == a && Normalise(a) == a && DomainOf(sender) == DomainOf(a)
  {
    TrimIs(sender);
    LowerTrims(sender);
    NormalIsNormal(sender);
    SameDomain(sender, Lower(sender));
  }

  lemma {:induction false} DomainFollowsTheLastAt(sender: string, a: string) returns (i: nat)
    requires a == Normalise(sender) && !IsDomain(a) && DomainOf(sender) != ""
    ensures i + 1 < |a| && a[i] == '@' && (forall k :: i < k < |a| ==> a[k] != '@') && "@" + DomainOf(sender) == a[i..]
  {
    i := LastIndex(a, '@').value;
    assert "@" + a[i + 1..] == a[i..];
  }

  lemma {:induction false} DomainKeyIsDomain(sender: string)
    requires Trim(sender) == sender && !IsDomain(Lower(sender)) && DomainOf(sender) != ""
    ensures IsDomain("@" + DomainOf(sender)) && Occurs("@" + DomainOf(sender), Lower(sender))
  {
    var a := Lower(sender);
    LowerIsNormal(sender);
    var i := DomainFollowsTheLastAt(sender, a);
    SuffixIsDomain(a, i);
  }

  lemma {:induction false} OfIsRoutable(decided: Decisions, sender: string)
    requires Sound(decided)
    ensures Of(decided, sender).Undecided? || IsRoutable(Of(decided, sender))
  {
  }

  /** Of two destinations that take the sender, or nothing, the first ranks no lower
      than the second. */
  lemma {:induction false} RankDecides(decided: Decisions, sender: string, first: Destination, d: Destination)
    requires FirstRank(decided, sender, first) && (d.Undecided? || IsRoutable(d))
    requires d.Undecided? || Takes(decided, Slot(d, true), sender)
    ensures first == d <==> !exists k :: k in decided && IsDomain(k) && Occurs(k, Lower(sender)) && Rank(decided[k]) < Rank(d)
  {
    assert Rank(first) <= Rank(d);
    if first != d {
      assert Takes(decided, Slot(first, true), sender);
    }
  }

  /** The rules do as was decided about a sender exactly when no domain that only
      occurs in the address, as in x@example.com.evil.net, comes first. */
  lemma {:induction false} RuledAsDecidedIff(decided: Decisions, sender: string)
    requires Sound(decided) && Trim(sender) == sender
    ensures Ruled(decided, SLOTS, sender) == Of(decided, sender) <==> !Overtaken(decided, sender)
  {
    var a := Lower(sender);
    AddressRules(decided, sender);
    OfIs(decided, sender, a);
    if !(a in decided && !IsDomain(a)) {
      DomainsRule(decided, sender);
      DecidedOccurs(decided, sender, a);
      OfIsRoutable(decided, sender);
      RankDecides(decided, sender, Ruled(decided, SLOTS[4..], sender), Of(decided, sender));
    }
  }

  /** The folders the Routing files into are told apart. */
  predicate ToldApart(folders: FolderMap) {
    var screener, inbox, trail, feed :=
      IdOf("INBOX/Screener", folders), IdOf("INBOX", folders), IdOf("INBOX/Paper Trail", folders), IdOf("INBOX/Feed", folders);
    screener != inbox && trail != feed
  }

  /** What was decided is what happens, and nothing else is: after the Routing was
      written, mail no rule of a human's takes lands in the box decided for its sender,
      or in the bin, or waits in the Screener, and is read exactly if that is the Paper
      Trail, the Feed or the bin; unless a domain that only occurs in its address comes
      first. */
  lemma {:induction false} MailLandsAsDecidedIff(before: Rules, after: Rules, built: seq<GraphRule>, want: seq<Rule>, folders: FolderMap,
                                                 decided: Decisions, keys: Slot -> seq<string>, sender: string)
    requires Sound(decided) && AreRules(want, decided, keys) && ToldApart(folders)
    requires Replaced(before, after, built) && IsBuilt(built, want, MaxSequence(before) + 1, folders)
    requires forall x :: x in before && !Ours(x) ==> !Matches(x.rule, sender)
    requires Trim(sender) == sender
    ensures Delivered(after, sender) == LandingOf(Of(decided, sender), folders) <==> !Overtaken(decided, sender)
  {
    MailLandsAsRuled(before, after, built, want, folders, decided, keys, sender);
    RuledAsDecidedIff(decided, sender);
    AddressRules(decided, sender);
    DomainsRule(decided, sender);
  }

  /** Blocking a domain bins the mail of every address the domain occurs in. */
  lemma {:induction false} LookalikesAreBinned(decided: Decisions, k: string, folders: FolderMap, sender: string)
    requires Sound(decided) && k in decided && decided[k] == Block && IsDomain(k) && Occurs(k, Lower(sender))
    requires Lower(sender) !in decided
    ensures LandingOf(Ruled(decided, SLOTS, sender), folders) == Landing("", true, true)
  {
    AddressRules(decided, sender);
    DomainsRule(decided, sender);
  }

  /** Such as one of which nothing was decided. */
  lemma {:induction false} LookalikeExample()
    ensures var decided, sender := map["@a.b" := Block], "x@a.b.c";
            Sound(decided) && Of(decided, sender) == Undecided && Occurs("@a.b", Lower(sender))
  {
    var domain, sender := "@a.b", "x@a.b.c";
    SoundAlone(domain);
    TrimsToItself(sender);
    assert Lower(sender) == sender;
    assert OccursAt(domain, sender, 1);
    assert |domain| == 4 && |sender| == 7;
  }

  lemma {:induction false} SoundAlone(domain: string)
    requires domain == "@a.b"
    ensures Sound(map[domain := Block])
  {
    TrimsToItself(domain);
    assert Lower(domain) == domain && domain[2] == '.' && |domain| == 4;
  }
}
