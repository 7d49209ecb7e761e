/** The Routing: which sender goes where, and the rules it is rendered to. An address
    is looked up by itself and then by its domain. */
module RoutingLists {
  import opened Basics
  import opened Text
  import opened RuleTables

  /** Decisions by address or by domain, the latter under '@' and the domain. */
  type Decisions = map<string, Destination>

  function Normalise(address: string): string {
    Lower(Trim(address))
  }

  predicate IsDomain(key: string) {
    var k := Normalise(key);
    |k| > 1 && k[0] == '@' && '@' !in k[1..]
  }

  function DomainOf(address: string): string {
    var a := Normalise(address);
    if IsDomain(a) then a[1..]
    else
      var i := LastIndex(a, '@');
      if i.Some? then a[i.value + 1..] else ""
  }

  /** What was decided about a sender, Undecided when nothing was. */
  function Of(decided: Decisions, address: string): Destination {
    var a := Normalise(address);
    if a in decided then decided[a]
    else if !IsDomain(a) && DomainOf(a) != "" && "@" + DomainOf(a) in decided then decided["@" + DomainOf(a)]
    else Undecided
  }

  // ---------- what can be decided about ----------

  /** A character no key may hold: white space as a regular expression has it, and
      what would end a quoted list. */
  predicate Unsafe(c: char) {
    c in {'\t', '\n', '\r', ' ', '"', '\\', '[', ']', '<', '>', ',', ';'} || c as int == 0x0C
  }

  predicate ValidAddress(a: string) {
    |a| <= 320 && (forall c :: c in a ==> !Unsafe(c)) && exists i :: 0 < i < |a| - 1 && a[i] == '@'
  }

  predicate ValidDomain(key: string) {
    var k := Normalise(key);
    IsDomain(k) && |k| <= 320 && (forall c :: c in k ==> !Unsafe(c)) && exists i :: 1 < i < |k| - 1 && k[i] == '.'
  }

  predicate IsRoutable(d: Destination) {
    d.Block? || d.Inbox? || d.PaperTrail? || d.Feed?
  }

  /** A decision recorded, with whether it changed anything; None is a key or a
      destination that is refused. */
  function Decide(decided: Decisions, address: string, d: Destination): Option<(Decisions, bool)> {
    var a := Normalise(address);
    if !(if IsDomain(a) then ValidDomain(a) else ValidAddress(a)) then None
    else if d.Undecided? then Some((decided - {a}, a in decided))
    else if !IsRoutable(d) then None
    else Some((decided[a := d], a !in decided || decided[a] != d))
  }

  /** Every key is as it is looked up, and safe. */
  predicate Sound(decided: Decisions) {
    forall k :: k in decided ==>
      k != "" && Normalise(k) == k && (if IsDomain(k) then ValidDomain(k) else ValidAddress(k)) && IsRoutable(decided[k])
  }

  lemma {:induction false} TrimIs(s: string)
    ensures IsTrim(Trim(s)) && Trim(Trim(s)) == Trim(s)
    decreases |s|
  {
    TrimLeftIs(s);
    TrimRightIs(TrimLeft(s));
    TrimsToItself(Trim(s));
  }

  lemma {:induction false} TrimLeftIs(s: string)
    ensures TrimLeft(s) != "" ==> !IsSpace(TrimLeft(s)[0])
  {
    if s != "" && IsSpace(s[0]) {
      TrimLeftIs(s[1..]);
    }
  }

  lemma {:induction false} TrimRightIs(s: string)
    requires s != "" ==> !IsSpace(s[0])
    ensures IsTrim(TrimRight(s))
  {
    if s != "" && IsSpace(s[|s| - 1]) {
      TrimRightIs(s[..|s| - 1]);
    }
  }

  lemma {:induction false} LowerTrims(s: string)
    ensures Lower(Lower(s)) == Lower(s)
    ensures IsTrim(Lower(s)) <==> IsTrim(s)
  {
    assert forall c: char :: IsSpace(LowerChar(c)) <==> IsSpace(c);
  }

  lemma {:induction false} NormalIsNormal(address: string)
    ensures Normalise(Normalise(address)) == Normalise(address)
  {
    TrimIs(address);
    LowerTrims(Trim(address));
    TrimsToItself(Normalise(address));
  }

  lemma {:induction false} DecideKeepsSound(decided: Decisions, address: string, d: Destination)
    requires Sound(decided) && Decide(decided, address, d).Some?
    ensures Sound(Decide(decided, address, d).value.0)
    ensures var after := Decide(decided, address, d).value;
            && Of(after.0, Normalise(address)) == (if d.Undecided? then Of(decided - {Normalise(address)}, Normalise(address)) else d)
            && (after.1 <==> after.0 != decided)
  {
    NormalIsNormal(address);
  }

  /** Nothing that could end the quoted text a key is written into, or a word of it. */
  predicate IsClean(a: string) {
    && '"' !in a && '\\' !in a && '\n' !in a && '\r' !in a && '\t' !in a && '\U{000C}' !in a && ' ' !in a
    && '[' !in a && ']' !in a && '<' !in a && '>' !in a && ',' !in a && ';' !in a
  }

  /** The one sign is in front, and something follows it. */
  predicate NamesADomain(a: string) {
    |a| >= 2 && a[0] == '@' && forall i :: 1 <= i < |a| ==> a[i] != '@'
  }

  /** A decision is refused exactly when it sends mail nowhere there is, or its key is
      too long, is not clean, or is neither an address, with something on both sides of
      an '@', nor a domain with something on both sides of a dot. */
  lemma {:induction false} AcceptedIff(decided: Decisions, address: string, d: Destination)
    ensures var a := Normalise(address);
            Decide(decided, address, d).Some? <==>
              && (d == Undecided || d == Inbox || d == PaperTrail || d == Feed || d == Block)
              && IsClean(a) && |a| <= 320
              && if NamesADomain(a) then exists i :: 2 <= i <= |a| - 2 && a[i] == '.'
                 else exists i :: 1 <= i <= |a| - 2 && a[i] == '@'
  {
    var a := Normalise(address);
    NormalIsNormal(address);
    CleanIff(a);
    assert IsDomain(a) <==> NamesADomain(a) by {
      assert |a| > 1 ==> forall i :: 0 <= i < |a| - 1 ==> a[1..][i] == a[i + 1];
    }
    assert IsDomain(a) ==> (ValidDomain(a) <==> |a| <= 320 && IsClean(a) && exists i :: 2 <= i <= |a| - 2 && a[i] == '.');
    assert ValidAddress(a) <==> |a| <= 320 && IsClean(a) && exists i :: 1 <= i <= |a| - 2 && a[i] == '@';
  }

  lemma {:induction false} CleanIff(a: string)
    ensures IsClean(a) <==> forall c :: c in a ==> !Unsafe(c)
  {
  }

  // ---------- as rules ----------

  datatype Slot = Slot(dest: Destination, domains: bool)

  /** The order the rules are written in, and match in. */
  const SLOTS: seq<Slot> := [
    Slot(Block, false), Slot(Inbox, false), Slot(PaperTrail, false), Slot(Feed, false),
    Slot(Block, true), Slot(Inbox, true), Slot(PaperTrail, true), Slot(Feed, true)
  ]

  function WordOf(d: Destination): string {
    match d
    case Block => "block"
    case Inbox => "inbox"
    case PaperTrail => "paper"
    case Feed => "feed"
    case _ => ""
  }

  function RuleName(s: Slot): string {
    PREFIX + " " + WordOf(s.dest) + if s.domains then " (domains)" else ""
  }

  /** Every rule is ours, and its name says whom it is about. */
  lemma {:induction false} RulesAreNamed(d: Destination)
    requires IsRoutable(d)
    ensures var name := if d.Block? then "mailbox: block" else if d.Inbox? then "mailbox: inbox"
                        else if d.PaperTrail? then "mailbox: paper" else "mailbox: feed";
            RuleName(Slot(d, false)) == name && RuleName(Slot(d, true)) == name + " (domains)" && IsOurs(name)
    ensures SCREENS.name == "mailbox: screener"
  {
    assert RuleName(Slot(d, false)) + " (domains)" == RuleName(Slot(d, true));
  }

  /** The domains the keys name. */
  function Domains(keys: seq<string>): seq<string> {
    seq(|keys|, i requires 0 <= i < |keys| => if keys[i] == "" then "" else keys[i][1..])
  }

  /** A list with nobody on it is no rule at all. */
  function RuleFor(s: Slot, keys: seq<string>): seq<Rule> {
    if keys == [] then []
    else if s.domains then [Rule(RuleName(s), s.dest, [], Domains(keys), false)]
    else [Rule(RuleName(s), s.dest, keys, [], false)]
  }

  function RulesOver(slots: seq<Slot>, keys: Slot -> seq<string>): seq<Rule> {
    if slots == [] then [] else RulesOver(slots[..|slots| - 1], keys) + RuleFor(slots[|slots| - 1], keys(slots[|slots| - 1]))
  }

  const SCREENS: Rule := Rule(PREFIX + " screener", Undecided, [], [], true)

  predicate InOrder(keys: seq<string>) {
    forall i, j :: 0 <= i < j < |keys| ==> TextBefore(keys[i], keys[j])
  }

  /** The keys of a slot, sorted. */
  ghost predicate AreKeys(keys: seq<string>, decided: Decisions, s: Slot) {
    InOrder(keys) && forall k :: k in keys <==> k in decided && decided[k] == s.dest && IsDomain(k) == s.domains
  }

  ghost predicate HasKeys(decided: Decisions, keys: Slot -> seq<string>) {
    forall s :: s in SLOTS ==> AreKeys(keys(s), decided, s)
  }

  /** The rules of the Routing: for every destination its addresses, then for every one
      its domains, then the rule that screens everyone else. */
  ghost predicate AreRules(rules: seq<Rule>, decided: Decisions, keys: Slot -> seq<string>) {
    HasKeys(decided, keys) && rules == RulesOver(SLOTS, keys) + [SCREENS]
  }

  // ---------- back from rules ----------

  function TakeKey(decided: Decisions, key: string, d: Destination): Decisions {
    if Normalise(key) in decided then decided
    else
      var r := Decide(decided, key, d);
      if r.Some? then r.value.0 else decided
  }

  function TakeKeys(decided: Decisions, keys: seq<string>, d: Destination): Decisions {
    if keys == [] then decided else TakeKey(TakeKeys(decided, keys[..|keys| - 1], d), keys[|keys| - 1], d)
  }

  function AtDomains(domains: seq<string>): seq<string> {
    seq(|domains|, i requires 0 <= i < |domains| => "@" + Normalise(domains[i]))
  }

  function TakeRule(decided: Decisions, r: Rule): Decisions {
    if r.catchAll || !IsRoutable(r.dest) then decided
    else TakeKeys(TakeKeys(decided, r.from, r.dest), AtDomains(r.domains), r.dest)
  }

  function FromRules(rules: seq<Rule>): Decisions {
    if rules == [] then map[] else TakeRule(FromRules(rules[..|rules| - 1]), rules[|rules| - 1])
  }

  // ---------- the lists as they are kept ----------

  lemma {:induction false} BeforeIsAnOrder(a: string, b: string, c: string)
    ensures !TextBefore(a, a)
    ensures TextBefore(a, b) && TextBefore(b, c) ==> TextBefore(a, c)
    ensures a == b || TextBefore(a, b) || TextBefore(b, a)
  {
    if a != "" && b != "" {
      BeforeIsAnOrder(a[1..], b[1..], if c == "" then "" else c[1..]);
      assert a == [a[0]] + a[1..] && b == [b[0]] + b[1..];
    } else if a != "" {
      BeforeIsAnOrder(a[1..], "", "");
    }
  }

  method InsertKey(key: string, sorted: seq<string>) returns (out: seq<string>)
    requires InOrder(sorted) && key !in sorted
    ensures InOrder(out) && forall k :: k in out <==> k == key || k in sorted
  {
    var i := 0;
    while i < |sorted| && TextBefore(sorted[i], key)
      invariant 0 <= i <= |sorted| && forall j :: 0 <= j < i ==> TextBefore(sorted[j], key)
    {
      i := i + 1;
    }
    out := sorted[..i] + [key] + sorted[i..];
    forall j | i <= j < |sorted| ensures TextBefore(key, sorted[j]) {
      BeforeIsAnOrder(key, sorted[i], sorted[j]);
    }
    assert sorted == sorted[..i] + sorted[i..];
  }

  lemma {:induction false} SameRules(slots: seq<Slot>, f: Slot -> seq<string>, g: Slot -> seq<string>)
    requires forall s :: s in slots ==> f(s) == g(s)
    ensures RulesOver(slots, f) == RulesOver(slots, g)
  {
    if slots != [] {
      SameRules(slots[..|slots| - 1], f, g);
    }
  }

  function With(keys: Slot -> seq<string>, s: Slot, found: seq<string>): Slot -> seq<string> {
    x => if x == s then found else keys(x)
  }

  ghost predicate HasSome(decided: Decisions, keys: Slot -> seq<string>, n: nat)
    requires n <= |SLOTS|
  {
    forall k :: 0 <= k < n ==> AreKeys(keys(SLOTS[k]), decided, SLOTS[k])
  }

  lemma {:induction false} SlotsDiffer(i: nat, k: nat)
    requires k < i < |SLOTS|
    ensures SLOTS[k] != SLOTS[i]
  {
  }

  lemma {:induction false} NextSlot(decided: Decisions, keys: Slot -> seq<string>, i: nat, found: seq<string>)
    requires i < |SLOTS| && HasSome(decided, keys, i) && AreKeys(found, decided, SLOTS[i])
    ensures var now := With(keys, SLOTS[i], found);
            HasSome(decided, now, i + 1) &&
            RulesOver(SLOTS[..i + 1], now) == RulesOver(SLOTS[..i], keys) + RuleFor(SLOTS[i], found)
  {
    var slots, s := SLOTS, SLOTS[i];
    forall k | 0 <= k < i ensures slots[k] != s {
      SlotsDiffer(i, k);
    }
    SameRules(slots[..i], keys, With(keys, s, found));
    assert slots[..i + 1][..i] == slots[..i];
  }

  class Lists {
    var decided: Decisions

    constructor ()
      ensures decided == map[]
    {
      decided := map[];
    }

    /** None is a refusal; otherwise whether the decision changed anything. */
    method Set(address: string, d: Destination) returns (changed: Option<bool>)
      modifies this
      ensures match Decide(old(decided), address, d)
        case None => changed == None && decided == old(decided)
        case Some(r) => changed == Some(r.1) && decided == r.0
    {
      var a := Normalise(address);
      NormalIsNormal(address);
      if IsDomain(a) {
        if !ValidDomain(a) {
          return None;
        }
      } else if !ValidAddress(a) {
        return None;
      }
      if d.Undecided? {
        if a !in decided {
          assert decided - {a} == decided;
          return Some(false);
        }
        decided := decided - {a};
        return Some(true);
      }
      if !IsRoutable(d) {
        return None;
      }
      if a in decided && decided[a] == d {
        assert decided[a := d] == decided;
        return Some(false);
      }
      decided := decided[a := d];
      return Some(true);
    }

    method Keys(s: Slot) returns (out: seq<string>)
      ensures AreKeys(out, decided, s)
    {
      out := [];
      var left := decided.Items;
      while left != {}
        invariant left <= decided.Items && InOrder(out)
        invariant forall k :: k in out <==> k in decided && (k, decided[k]) !in left && decided[k] == s.dest && IsDomain(k) == s.domains
        decreases left
      {
        var item :| item in left;
        left := left - {item};
        if item.1 == s.dest && IsDomain(item.0) == s.domains {
          out := InsertKey(item.0, out);
        }
      }
    }

    method Rules() returns (rules: seq<Rule>, ghost keys: Slot -> seq<string>)
      ensures AreRules(rules, decided, keys)
    {
      rules := [];
      keys := s => [];
      for i := 0 to |SLOTS|
        invariant HasSome(decided, keys, i)
        invariant rules == RulesOver(SLOTS[..i], keys)
      {
        var found := Keys(SLOTS[i]);
        NextSlot(decided, keys, i, found);
        keys := With(keys, SLOTS[i], found);
        rules := rules + RuleFor(SLOTS[i], found);
      }
      assert SLOTS[..|SLOTS|] == SLOTS;
      rules := rules + [SCREENS];
    }
  }
}
