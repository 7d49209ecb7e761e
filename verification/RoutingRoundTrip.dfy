/** The Routing read back out of its own rules. */
module RoutingRoundTrip {
  import opened Basics
  import opened Text
  import opened RuleTables
  import opened RoutingLists

  /** A domain that begins with white space a key may hold, such as a no-break space. */
  predicate Spaced(key: string) {
    IsDomain(key) && |key| > 1 && IsSpace(key[1])
  }

  predicate NoneSpaced(decided: Decisions) {
    forall k :: k in decided ==> !Spaced(k)
  }

  // ---------- what is normal stays as it is ----------

  lemma {:induction false} TrimShortens(s: string)
    ensures |Trim(s)| <= |s| && (|Trim(s)| == |s| ==> Trim(s) == s)
  {
    TrimLeftShortens(s);
    TrimRightShortens(TrimLeft(s));
  }

  lemma {:induction false} TrimLeftShortens(s: string)
    ensures |TrimLeft(s)| <= |s| && (|TrimLeft(s)| == |s| ==> TrimLeft(s) == s)
  {
    if s != "" && IsSpace(s[0]) {
      TrimLeftShortens(s[1..]);
    }
  }

  lemma {:induction false} TrimRightShortens(s: string)
    ensures |TrimRight(s)| <= |s| && (|TrimRight(s)| == |s| ==> TrimRight(s) == s)
  {
    if s != "" && IsSpace(s[|s| - 1]) {
      TrimRightShortens(s[..|s| - 1]);
    }
  }

  lemma {:induction false} NormalMeans(k: string)
    requires Normalise(k) == k
    ensures IsTrim(k) && Lower(k) == k
  {
    TrimShortens(k);
    TrimIs(k);
  }

  /** A domain key is its domain again under the sign, unless white space came between. */
  lemma {:induction false} DomainKeyComesBack(k: string)
    requires Normalise(k) == k && IsDomain(k) && !Spaced(k)
    ensures "@" + Normalise(k[1..]) == k
  {
    NormalMeans(k);
    assert IsTrim(k[1..]);
    TrimsToItself(k[1..]);
    assert Lower(k[1..]) == Lower(k)[1..];
  }

  lemma {:induction false} DomainsComeBack(keys: seq<string>)
    requires forall k :: k in keys ==> Normalise(k) == k && IsDomain(k) && !Spaced(k)
    ensures AtDomains(Domains(keys)) == keys
  {
    forall i | 0 <= i < |keys| ensures AtDomains(Domains(keys))[i] == keys[i] {
      assert keys[i] in keys;
      DomainKeyComesBack(keys[i]);
    }
  }

  // ---------- slot by slot ----------

  /** A key that is recorded as it stands. */
  predicate Fits(k: string) {
    Normalise(k) == k && if IsDomain(k) then ValidDomain(k) else ValidAddress(k)
  }

  lemma {:induction false} KeyIsTaken(decided: Decisions, k: string, d: Destination)
    requires IsRoutable(d) && Fits(k) && (k in decided ==> decided[k] == d)
    ensures TakeKey(decided, k, d) == decided[k := d]
  {
  }

  function All(keys: seq<string>, d: Destination): Decisions {
    map k | k in keys :: d
  }

  lemma {:induction false} KeysAreTaken(decided: Decisions, keys: seq<string>, d: Destination)
    requires IsRoutable(d) && forall k :: k in keys ==> k !in decided && Fits(k)
    ensures TakeKeys(decided, keys, d) == decided + All(keys, d)
  {
    if keys == [] {
      assert All(keys, d) == map[];
    } else {
      var front, last := keys[..|keys| - 1], keys[|keys| - 1];
      KeysAreTaken(decided, front, d);
      AllMore(decided, keys, d);
      KeyIsTaken(decided + All(front, d), last, d);
    }
  }

  lemma {:induction false} AllMore(decided: Decisions, keys: seq<string>, d: Destination)
    requires keys != [] && keys[|keys| - 1] !in decided
    ensures var front, last := keys[..|keys| - 1], keys[|keys| - 1];
            && decided + All(keys, d) == (decided + All(front, d))[last := d]
            && (last in decided + All(front, d) ==> (decided + All(front, d))[last] == d)
  {
    var n := |keys| - 1;
    assert forall k :: k in keys <==> k in keys[..n] || k == keys[n];
  }

  function SlotOf(decided: Decisions, k: string): Slot
    requires k in decided
  {
    Slot(decided[k], IsDomain(k))
  }

  /** The decisions of some of the slots. */
  function Within(decided: Decisions, slots: seq<Slot>): Decisions {
    map k | k in decided && SlotOf(decided, k) in slots :: decided[k]
  }

  lemma {:induction false} WithinMore(decided: Decisions, slots: seq<Slot>, s: Slot, keys: seq<string>)
    requires AreKeys(keys, decided, s)
    ensures Within(decided, slots + [s]) == Within(decided, slots) + All(keys, s.dest)
  {
    forall k | k in decided ensures SlotOf(decided, k) == s <==> k in keys {
    }
  }

  lemma {:induction false} RuleTakes(decided: Decisions, s: Slot, keys: seq<string>)
    requires keys != [] && IsRoutable(s.dest)
    requires s.domains ==> AtDomains(Domains(keys)) == keys
    ensures TakeRule(decided, RuleFor(s, keys)[0]) == TakeKeys(decided, keys, s.dest)
  {
    assert AtDomains([]) == [];
  }

  lemma {:induction false} SlotIsTaken(decided: Decisions, slots: seq<Slot>, s: Slot, keys: seq<string>)
    requires Sound(decided) && NoneSpaced(decided) && AreKeys(keys, decided, s) && s !in slots && keys != [] && IsRoutable(s.dest)
    ensures TakeRule(Within(decided, slots), RuleFor(s, keys)[0]) == Within(decided, slots + [s])
  {
    if s.domains {
      DomainsComeBack(keys);
    }
    RuleTakes(Within(decided, slots), s, keys);
    KeysAreTaken(Within(decided, slots), keys, s.dest);
    WithinMore(decided, slots, s, keys);
  }

  lemma {:induction false} FromMore(rules: seq<Rule>, r: Rule)
    ensures FromRules(rules + [r]) == TakeRule(FromRules(rules), r)
  {
    assert (rules + [r])[..|rules|] == rules;
  }

  /** Slots no two alike, each with its keys. */
  ghost predicate AllKeys(decided: Decisions, slots: seq<Slot>, keys: Slot -> seq<string>) {
    && (forall s :: s in slots ==> AreKeys(keys(s), decided, s) && IsRoutable(s.dest))
    && forall i, j :: 0 <= i < j < |slots| ==> slots[i] != slots[j]
  }

  lemma {:induction false} SlotsAreTaken(decided: Decisions, keys: Slot -> seq<string>, slots: seq<Slot>)
    requires Sound(decided) && NoneSpaced(decided) && AllKeys(decided, slots, keys)
    ensures FromRules(RulesOver(slots, keys)) == Within(decided, slots)
  {
    if slots != [] {
      var front, s := slots[..|slots| - 1], slots[|slots| - 1];
      SlotsAreTaken(decided, keys, front);
      assert slots == front + [s] && s !in front;
      NextSlotIsTaken(decided, keys, front, s);
    }
  }

  lemma {:induction false} NextSlotIsTaken(decided: Decisions, keys: Slot -> seq<string>, slots: seq<Slot>, s: Slot)
    requires Sound(decided) && NoneSpaced(decided) && AreKeys(keys(s), decided, s) && s !in slots && IsRoutable(s.dest)
    requires FromRules(RulesOver(slots, keys)) == Within(decided, slots)
    ensures FromRules(RulesOver(slots, keys) + RuleFor(s, keys(s))) == Within(decided, slots + [s])
  {
    var rules := RulesOver(slots, keys);
    if keys(s) == [] {
      assert rules + [] == rules;
      WithinMore(decided, slots, s, []);
    } else {
      FromMore(rules, RuleFor(s, keys(s))[0]);
      SlotIsTaken(decided, slots, s, keys(s));
    }
  }

  // ---------- what is never read back ----------

  lemma {:induction false} KeyTakenIsNormal(decided: Decisions, key: string, d: Destination)
    requires NoneSpaced(decided) && !Spaced(Normalise(key))
    ensures NoneSpaced(TakeKey(decided, key, d))
  {
  }

  lemma {:induction false} KeysTakenAreNormal(decided: Decisions, keys: seq<string>, d: Destination)
    requires NoneSpaced(decided) && forall k :: k in keys ==> !Spaced(Normalise(k))
    ensures NoneSpaced(TakeKeys(decided, keys, d))
  {
    if keys != [] {
      KeysTakenAreNormal(decided, keys[..|keys| - 1], d);
      KeyTakenIsNormal(TakeKeys(decided, keys[..|keys| - 1], d), keys[|keys| - 1], d);
    }
  }

  lemma {:induction false} AtDomainIsNotSpaced(domain: string)
    ensures !Spaced(Normalise("@" + Normalise(domain)))
  {
    var d := Normalise(domain);
    TrimIs(domain);
    LowerTrims(Trim(domain));
    NormalIsNormal(domain);
    assert IsTrim(d);
    if d != "" {
      assert IsTrim("@" + d);
    }
    TrimsToItself("@" + d);
    assert Lower("@" + d)[1..] == Lower(d);
    LowerTrims(d);
  }

  /** No rule without spaced addresses puts a spaced domain among the decisions. */
  lemma {:induction false} RulesTakenAreNormal(rules: seq<Rule>)
    requires forall r, k :: r in rules && k in r.from ==> !Spaced(Normalise(k))
    ensures NoneSpaced(FromRules(rules))
  {
    if rules != [] {
      var n := |rules| - 1;
      RulesTakenAreNormal(rules[..n]);
      var r, before := rules[n], FromRules(rules[..n]);
      KeysTakenAreNormal(before, r.from, r.dest);
      forall k | k in AtDomains(r.domains) ensures !Spaced(Normalise(k)) {
        var i :| 0 <= i < |r.domains| && AtDomains(r.domains)[i] == k;
        AtDomainIsNotSpaced(r.domains[i]);
      }
      KeysTakenAreNormal(TakeKeys(before, r.from, r.dest), AtDomains(r.domains), r.dest);
    }
  }

  lemma {:induction false} AddressesAreNotDomains(decided: Decisions, keys: Slot -> seq<string>, slots: seq<Slot>, r: Rule, k: string)
    requires Sound(decided) && AllKeys(decided, slots, keys)
    requires r in RulesOver(slots, keys) && k in r.from
    ensures !Spaced(Normalise(k))
  {
    var front, s := slots[..|slots| - 1], slots[|slots| - 1];
    if r in RulesOver(front, keys) {
      AddressesAreNotDomains(decided, keys, front, r, k);
    } else {
      assert r in RuleFor(s, keys(s)) && AreKeys(keys(s), decided, s);
    }
  }

  lemma {:induction false} SlotsAreAll(decided: Decisions, keys: Slot -> seq<string>)
    requires Sound(decided) && HasKeys(decided, keys)
    ensures AllKeys(decided, SLOTS, keys) && Within(decided, SLOTS) == decided
  {
    forall i, j | 0 <= i < j < |SLOTS| ensures SLOTS[i] != SLOTS[j] {
      SlotsDiffer(j, i);
    }
    forall k | k in decided ensures SlotOf(decided, k) in SLOTS {
      SlotIsThere(SlotOf(decided, k));
    }
  }

  lemma {:induction false} SlotIsThere(s: Slot)
    requires IsRoutable(s.dest)
    ensures s in SLOTS
  {
    assert s == SLOTS[(if s.dest.Block? then 0 else if s.dest.Inbox? then 1 else if s.dest.PaperTrail? then 2 else 3) +
                      if s.domains then 4 else 0];
  }

  /** The Routing read out of the rules it was rendered to is the Routing, exactly when
      no domain in it begins with white space. */
  lemma {:induction false} RulesReadBackIff(decided: Decisions, keys: Slot -> seq<string>, rules: seq<Rule>)
    requires Sound(decided) && AreRules(rules, decided, keys)
    ensures FromRules(rules) == decided <==> NoneSpaced(decided)
  {
    SlotsAreAll(decided, keys);
    if NoneSpaced(decided) {
      SlotsAreTaken(decided, keys, SLOTS);
      FromMore(RulesOver(SLOTS, keys), SCREENS);
    } else {
      forall r, k | r in rules && k in r.from ensures !Spaced(Normalise(k)) {
        AddressesAreNotDomains(decided, keys, SLOTS, r, k);
      }
      RulesTakenAreNormal(rules);
    }
  }
}
