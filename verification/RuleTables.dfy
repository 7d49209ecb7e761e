/** The Routing as inbox rules: how a decision is written as a server rule and how
    one is read back. */
module RuleTables {
  import opened Basics
  import opened Text

  /** Unread is the empty destination a rule that could not be read whole has. */
  datatype Destination = Inbox | PaperTrail | Feed | Block | Undecided | Unread

  datatype Rule = Rule(name: string, dest: Destination, from: seq<string>, domains: seq<string>, catchAll: bool)

  datatype GraphRule = GraphRule(name: string, sequence: int, enabled: bool,
                                 from: seq<string>, senderContains: seq<string>,
                                 moveTo: string, markRead: bool, delete: bool, stop: bool)

  /** Box name to Graph folder id, as the store has it once refreshed. */
  type FolderMap = map<string, string>

  const PREFIX := "mailbox:"
  const SCREENER := "INBOX/Screener"

  predicate IsOurs(name: string) {
    PREFIX <= name
  }

  function BoxOf(d: Destination): string {
    match d
    case Inbox => "INBOX"
    case PaperTrail => "INBOX/Paper Trail"
    case Feed => "INBOX/Feed"
    case _ => ""
  }

  predicate ReadOnArrival(d: Destination) {
    d.PaperTrail? || d.Feed?
  }

  // ---------- writing ----------

  function Prefixed(domains: seq<string>): seq<string> {
    seq(|domains|, i requires 0 <= i < |domains| => "@" + domains[i])
  }

  /** One rule as it is sent; None when its folder is not there. */
  function Build(r: Rule, sequence: int, folders: FolderMap): Option<GraphRule> {
    if r.catchAll then
      if SCREENER in folders
      then Some(GraphRule(r.name, sequence, true, [], [], folders[SCREENER], false, false, true))
      else None
    else if r.dest.Block? then
      Some(GraphRule(r.name, sequence, true, r.from, Prefixed(r.domains), "", true, true, true))
    else if BoxOf(r.dest) in folders then
      Some(GraphRule(r.name, sequence, true, r.from, Prefixed(r.domains), folders[BoxOf(r.dest)],
                     ReadOnArrival(r.dest), false, true))
    else None
  }

  /** built is want as it is sent, numbered from first on. */
  predicate IsBuilt(built: seq<GraphRule>, want: seq<Rule>, first: int, folders: FolderMap) {
    |built| == |want| && forall i :: 0 <= i < |want| ==> Build(want[i], first + i, folders) == Some(built[i])
  }

  // ---------- reading ----------

  /** The box a folder id is known by. */
  ghost function NameOf(id: string, folders: FolderMap): Option<string> {
    if exists n :: n in folders && folders[n] == id
    then var n :| n in folders && folders[n] == id; Some(n)
    else None
  }

  /** The first destination, in the order the rules match, that files there. */
  function DestOf(box: string): Option<Destination> {
    if SameFold(BoxOf(Block), box) then Some(Block)
    else if SameFold(BoxOf(Inbox), box) then Some(Inbox)
    else if SameFold(BoxOf(PaperTrail), box) then Some(PaperTrail)
    else if SameFold(BoxOf(Feed), box) then Some(Feed)
    else None
  }

  predicate IsDomainTest(s: string) {
    |s| > 1 && s[0] == '@'
  }

  function DomainsOf(tests: seq<string>): seq<string> {
    if tests == [] then []
    else if IsDomainTest(tests[0]) then [tests[0][1..]] + DomainsOf(tests[1..])
    else DomainsOf(tests[1..])
  }

  ghost function ReadRule(g: GraphRule, folders: FolderMap): Rule {
    var r := Rule(g.name, Unread, g.from, DomainsOf(g.senderContains), false);
    var box := NameOf(g.moveTo, folders);
    if !g.enabled then r
    else if g.from == [] && g.senderContains == [] then
      if box.Some? && SameFold(box.value, SCREENER) then r.(catchAll := true, dest := Undecided) else r
    else if !g.delete && box.None? then r
    else if exists s :: s in g.senderContains && !IsDomainTest(s) then r
    else if g.delete then r.(dest := Block)
    else match DestOf(box.value) case Some(d) => r.(dest := d) case None => r
  }

  // ---------- what survives the round trip ----------

  /** A decision the rules can carry: the catch-all with nothing of its own, or a
      destination the Routing files into with somebody on the list and no empty
      domain among them. */
  predicate Carriable(r: Rule) {
    if r.catchAll then r.dest.Undecided? && r.from == [] && r.domains == []
    else
      && !r.dest.Undecided? && !r.dest.Unread?
      && (r.from != [] || r.domains != [])
      && NoneEmpty(r.domains)
  }

  /** A box whose folder is known by that box's name: of two names left for one folder
      by a rename, the other may be the one that is found. */
  ghost predicate ReadsAsItself(box: string, folders: FolderMap)
    requires box in folders
  {
    SameFold(box, NameOf(folders[box], folders).value)
  }

  /** What is carried, and filed in a box that reads as itself. */
  ghost predicate Readable(r: Rule, folders: FolderMap) {
    Carriable(r) && (r.catchAll || !r.dest.Block? ==>
      var box := if r.catchAll then SCREENER else BoxOf(r.dest);
      box in folders && ReadsAsItself(box, folders))
  }

  predicate NoneEmpty(domains: seq<string>) {
    forall i :: 0 <= i < |domains| ==> domains[i] != ""
  }

  lemma {:induction false} DomainsRoundTrip(domains: seq<string>)
    ensures DomainsOf(Prefixed(domains)) == domains <==> NoneEmpty(domains)
    ensures |DomainsOf(Prefixed(domains))| <= |domains|
    ensures (forall s :: s in Prefixed(domains) ==> IsDomainTest(s)) <==> NoneEmpty(domains)
  {
    if domains != [] {
      var tests, rest := Prefixed(domains), domains[1..];
      assert tests[1..] == Prefixed(rest) && tests[0] == "@" + domains[0];
      assert tests == [tests[0]] + tests[1..];
      DomainsRoundTrip(rest);
      assert NoneEmpty(domains) <==> domains[0] != "" && NoneEmpty(rest) by {
        assert forall i :: 0 < i < |domains| ==> domains[i] == rest[i - 1];
      }
      var back := DomainsOf(tests);
      if domains[0] != "" {
        assert tests[0][1..] == domains[0];
        assert back == [domains[0]] + DomainsOf(Prefixed(rest)) && back[1..] == DomainsOf(Prefixed(rest));
        assert domains == [domains[0]] + rest;
      } else {
        assert |back| < |domains|;
        assert !IsDomainTest(tests[0]) && tests[0] in tests;
      }
    }
  }

  /** The boxes the Routing files into are told apart by name, case aside. */
  lemma {:induction false} DestOfIs(d: Destination, box: string)
    requires (d.Inbox? || d.PaperTrail? || d.Feed?) && box != ""
    ensures DestOf(box) == Some(d) <==> SameFold(BoxOf(d), box)
  {
    assert |"INBOX"| == 5 && |"INBOX/Paper Trail"| == 17 && |"INBOX/Feed"| == 10;
  }

  lemma {:induction false} NameOfKnown(box: string, folders: FolderMap)
    requires box in folders
    ensures NameOf(folders[box], folders).Some? && NameOf(folders[box], folders).value in folders
  {
  }

  lemma {:induction false} FoldsBack(a: string, b: string)
    ensures SameFold(a, b) <==> SameFold(b, a)
  {
  }

  /** Reading a rule that was just written gives the decision back exactly when the
      rules can carry it and its box is known by its own name. */
  lemma {:induction false} ReadsBackIff(r: Rule, sequence: int, folders: FolderMap)
    requires "" !in folders && Build(r, sequence, folders).Some?
    ensures ReadRule(Build(r, sequence, folders).value, folders) == r <==> Readable(r, folders)
  {
    var g := Build(r, sequence, folders).value;
    DomainsRoundTrip(r.domains);
    if r.catchAll {
      NameOfKnown(SCREENER, folders);
      FoldsBack(SCREENER, NameOf(folders[SCREENER], folders).value);
    } else if !r.dest.Block? {
      NameOfKnown(BoxOf(r.dest), folders);
      if r.dest.Inbox? || r.dest.PaperTrail? || r.dest.Feed? {
        DestOfIs(r.dest, NameOf(folders[BoxOf(r.dest)], folders).value);
      }
    }
  }
}
