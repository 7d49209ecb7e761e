/** Reading the Routing back: our rules in sequence order, each read into the
    decision it carries. */
module RuleReading {
  import opened Basics
  import opened RuleTables
  import opened RuleSync
  import opened RuleProtocol

  /** A stable sort by sequence number. */
  function Insert(x: ServerRule, sorted: Rules): Rules {
    if sorted == [] || x.rule.sequence <= sorted[0].rule.sequence then [x] + sorted
    else [sorted[0]] + Insert(x, sorted[1..])
  }

  function Sort(rules: Rules): Rules {
    if rules == [] then [] else Insert(rules[0], Sort(rules[1..]))
  }

  function OursOnly(rules: Rules): Rules {
    if rules == [] then []
    else if Ours(rules[0]) then [rules[0]] + OursOnly(rules[1..]) else OursOnly(rules[1..])
  }

  ghost function ReadAll(rules: Rules, folders: FolderMap): seq<Rule> {
    if rules == [] then [] else [ReadRule(rules[0].rule, folders)] + ReadAll(rules[1..], folders)
  }

  /** Rules: sorted, ours only, read. */
  ghost function Listing(rules: Rules, folders: FolderMap): seq<Rule> {
    ReadAll(OursOnly(Sort(rules)), folders)
  }

  predicate Sorted(rules: Rules) {
    forall i, j :: 0 <= i < j < |rules| ==> rules[i].rule.sequence <= rules[j].rule.sequence
  }

  // ---------- sorting and picking commute ----------

  lemma {:induction false} InsertSorts(x: ServerRule, sorted: Rules)
    requires Sorted(sorted)
    ensures Sorted(Insert(x, sorted))
    ensures forall y :: y in Insert(x, sorted) <==> y == x || y in sorted
  {
    if sorted != [] && x.rule.sequence > sorted[0].rule.sequence {
      InsertSorts(x, sorted[1..]);
      assert sorted == [sorted[0]] + sorted[1..];
      assert forall y :: y in Insert(x, sorted[1..]) ==> sorted[0].rule.sequence <= y.rule.sequence;
    }
  }

  lemma {:induction false} SortSorts(rules: Rules)
    ensures Sorted(Sort(rules))
  {
    if rules != [] {
      SortSorts(rules[1..]);
      InsertSorts(rules[0], Sort(rules[1..]));
    }
  }

  lemma {:induction false} OursOnlyMembers(rules: Rules)
    ensures forall y :: y in OursOnly(rules) ==> y in rules
  {
    if rules != [] {
      OursOnlyMembers(rules[1..]);
      assert rules == [rules[0]] + rules[1..];
    }
  }

  /** A rule no later than any of these goes in front of them. */
  lemma {:induction false} InsertInFront(x: ServerRule, sorted: Rules)
    requires forall y :: y in sorted ==> x.rule.sequence <= y.rule.sequence
    ensures Insert(x, sorted) == [x] + sorted
  {
  }

  lemma {:induction false} InsertThenPick(x: ServerRule, sorted: Rules)
    requires Sorted(sorted)
    ensures OursOnly(Insert(x, sorted)) == if Ours(x) then Insert(x, OursOnly(sorted)) else OursOnly(sorted)
  {
    if sorted == [] || x.rule.sequence <= sorted[0].rule.sequence {
      assert ([x] + sorted)[1..] == sorted;
      OursOnlyMembers(sorted);
      assert forall y :: y in sorted ==> x.rule.sequence <= y.rule.sequence;
      InsertInFront(x, OursOnly(sorted));
    } else {
      InsertThenPick(x, sorted[1..]);
      assert ([sorted[0]] + Insert(x, sorted[1..]))[1..] == Insert(x, sorted[1..]);
      if Ours(sorted[0]) {
        assert OursOnly(sorted)[1..] == OursOnly(sorted[1..]);
      }
    }
  }

  lemma {:induction false} SortThenPick(rules: Rules)
    ensures OursOnly(Sort(rules)) == Sort(OursOnly(rules))
  {
    if rules != [] {
      SortThenPick(rules[1..]);
      SortSorts(rules[1..]);
      InsertThenPick(rules[0], Sort(rules[1..]));
      if Ours(rules[0]) {
        assert OursOnly(rules)[1..] == OursOnly(rules[1..]);
      }
    }
  }

  lemma {:induction false} SortOfSorted(rules: Rules)
    requires Sorted(rules)
    ensures Sort(rules) == rules
  {
    if rules != [] {
      SortOfSorted(rules[1..]);
      assert forall y :: y in rules[1..] ==> rules[0].rule.sequence <= y.rule.sequence;
      InsertInFront(rules[0], rules[1..]);
      assert rules == [rules[0]] + rules[1..];
    }
  }

  lemma {:induction false} OursOnlyConcat(a: Rules, b: Rules)
    ensures OursOnly(a + b) == OursOnly(a) + OursOnly(b)
  {
    if a != [] {
      OursOnlyConcat(a[1..], b);
      assert (a + b)[1..] == a[1..] + b;
    } else {
      assert a + b == b;
    }
  }

  lemma {:induction false} NoOursInForeign(rules: Rules)
    ensures OursOnly(Foreign(rules)) == []
  {
    if rules != [] {
      NoOursInForeign(rules[1..]);
      if !Ours(rules[0]) {
        assert Foreign(rules)[1..] == Foreign(rules[1..]);
      }
    }
  }

  lemma {:induction false} OursOnlySize(rules: Rules)
    ensures |OursOnly(rules)| <= |rules|
    ensures (forall x :: x in rules ==> Ours(x)) ==> OursOnly(rules) == rules
    ensures (exists x :: x in rules && !Ours(x)) ==> |OursOnly(rules)| < |rules|
  {
    if rules != [] {
      OursOnlySize(rules[1..]);
      assert rules == [rules[0]] + rules[1..];
    }
  }

  lemma {:induction false} ReadAllAt(rules: Rules, folders: FolderMap)
    ensures |ReadAll(rules, folders)| == |rules|
    ensures forall i :: 0 <= i < |rules| ==> ReadAll(rules, folders)[i] == ReadRule(rules[i].rule, folders)
  {
    if rules != [] {
      ReadAllAt(rules[1..], folders);
    }
  }

  // ---------- write, then read ----------

  /** What was written goes up in sequence. */
  lemma {:induction false} WrittenIsSorted(tail: Rules, built: seq<GraphRule>, want: seq<Rule>, first: int, folders: FolderMap)
    requires IsBuilt(built, want, first, folders) && |tail| == |built|
    requires forall i :: 0 <= i < |built| ==> tail[i].rule == built[i]
    ensures Sorted(tail)
  {
  }

  /** Of a human's rules with sorted ones of ours behind, ours are the ones listed. */
  lemma {:induction false} ListedOnly(kept: Rules, tail: Rules)
    requires OursOnly(kept) == [] && Sorted(tail)
    ensures OursOnly(Sort(kept + tail)) == OursOnly(tail)
  {
    SortThenPick(kept + tail);
    OursOnlyConcat(kept, tail);
    assert [] + OursOnly(tail) == OursOnly(tail);
    SortThenPick(tail);
    SortOfSorted(tail);
  }

  lemma {:induction false} SentRuleReadsBackIff(r: Rule, sequence: int, g: GraphRule, folders: FolderMap)
    requires "" !in folders && Build(r, sequence, folders) == Some(g)
    ensures g.name == r.name
    ensures ReadRule(g, folders) == r <==> Readable(r, folders)
  {
    ReadsBackIff(r, sequence, folders);
  }

  lemma {:induction false} ReadTailIff(tail: Rules, built: seq<GraphRule>, want: seq<Rule>, first: int, folders: FolderMap)
    requires "" !in folders
    requires IsBuilt(built, want, first, folders) && |tail| == |built|
    requires forall i :: 0 <= i < |built| ==> tail[i].rule == built[i]
    ensures ReadAll(tail, folders) == want <==> forall i :: 0 <= i < |want| ==> Readable(want[i], folders)
    ensures forall i :: 0 <= i < |want| ==> (Ours(tail[i]) <==> IsOurs(want[i].name))
  {
    ReadAllAt(tail, folders);
    forall i | 0 <= i < |want|
      ensures Ours(tail[i]) <==> IsOurs(want[i].name)
      ensures ReadRule(tail[i].rule, folders) == want[i] <==> Readable(want[i], folders)
    {
      SentRuleReadsBackIff(want[i], first + i, built[i], folders);
    }
  }

  /** Picking ours out of what was written loses nothing exactly when every name
      carries the prefix. */
  lemma {:induction false} PickedTailIff(tail: Rules, built: seq<GraphRule>, want: seq<Rule>, first: int, folders: FolderMap)
    requires "" !in folders
    requires IsBuilt(built, want, first, folders) && |tail| == |built|
    requires forall i :: 0 <= i < |built| ==> tail[i].rule == built[i]
    ensures ReadAll(OursOnly(tail), folders) == want <==>
            AllPrefixed(want) && forall i :: 0 <= i < |want| ==> Readable(want[i], folders)
  {
    OursOnlySize(tail);
    assert |ReadAll(OursOnly(tail), folders)| == |OursOnly(tail)| by {
      ReadAllAt(OursOnly(tail), folders);
    }
    ReadTailIff(tail, built, want, first, folders);
    if !AllPrefixed(want) {
      var i :| 0 <= i < |want| && !IsOurs(want[i].name);
      assert tail[i] in tail && !Ours(tail[i]);
    } else {
      assert forall i :: 0 <= i < |tail| ==> Ours(tail[i]);
    }
  }

  /** Reading after a write that went through gives the wanted list back, in order,
      exactly when every rule carries our prefix and a decision that can be read. */
  lemma {:induction false} WriteThenReadIff(before: Rules, after: Rules, built: seq<GraphRule>, want: seq<Rule>, first: int, folders: FolderMap)
    requires "" !in folders
    requires Replaced(before, after, built) && IsBuilt(built, want, first, folders)
    ensures Listing(after, folders) == want <==>
            AllPrefixed(want) && forall i :: 0 <= i < |want| ==> Readable(want[i], folders)
  {
    var kept := Foreign(before);
    var tail := after[|kept|..];
    assert after == kept + tail;
    assert forall i :: 0 <= i < |built| ==> tail[i].rule == built[i];
    WrittenIsSorted(tail, built, want, first, folders);
    NoOursInForeign(before);
    ListedOnly(kept, tail);
    PickedTailIff(tail, built, want, first, folders);
  }

  /** A write whose deletes failed is mended by writing again: the second write, when
      it goes through, leaves a human's rules as they were before the first and the
      wanted list to be read, whatever the first one left behind. */
  lemma {:induction false} RerunMends(before: Rules, left: Rules, after: Rules, built: seq<GraphRule>, again: seq<GraphRule>,
                                      want: seq<Rule>, first: int, folders: FolderMap, noneLost: bool)
    requires "" !in folders && AllPrefixed(want)
    requires forall i :: 0 <= i < |want| ==> Readable(want[i], folders)
    requires Named(built) && Kept(DeleteFailed, before, left, built, noneLost)
    requires Replaced(left, after, again) && IsBuilt(again, want, first, folders)
    ensures Foreign(after) == Foreign(before) && Listing(after, folders) == want
  {
    WriteThenReadIff(left, after, again, want, first, folders);
    BuiltAreNamed(want, again, first, folders);
    var kept := Foreign(left);
    var tail := after[|kept|..];
    assert after == kept + tail;
    assert forall i :: 0 <= i < |again| ==> tail[i].rule == again[i];
    ForeignConcat(kept, tail);
    ForeignIdempotent(left);
    ForeignOfOurs(tail);
    assert kept + [] == kept;
  }
}
