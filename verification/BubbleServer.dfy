/** One mailbox on its server, and the three things a bubble does to it: STORE on
    a placement, MOVE of a placement, and the keyword that names when the mail is
    due back. Instants are minutes. */
module BubbleServer {
  import opened Basics

  datatype Box = Inbox | Pile(name: string)
  datatype Loc = Loc(box: Box, uid: nat)
  datatype Flag = Seen | Returned | Bubble(at: int) | Label(name: string)
  datatype Mail = Mail(id: nat, flags: set<Flag>)

  /** at is every mail where it is, place the same by mail; used is every uid a box
      has ever given out, and none is given out twice. */
  datatype AnyServer = Server(at: map<Loc, Mail>, place: map<nat, Loc>, used: set<Loc>)

  ghost predicate Placed(s: AnyServer) {
    && (forall l :: l in s.at ==> s.at[l].id in s.place && s.place[s.at[l].id] == l)
    && (forall m :: m in s.place ==> s.place[m] in s.at && s.at[s.place[m]].id == m)
    && s.at.Keys <= s.used
  }

  /** Every mail is in exactly one box, under a uid of its own. */
  type Server = s: AnyServer | Placed(s) witness Server(map[], map[], {})

  /** No placement twice. */
  ghost predicate Unlike(refs: seq<Loc>) {
    forall i, j :: 0 <= i < j < |refs| ==> refs[i] != refs[j]
  }

  function Bubbles(flags: set<Flag>): set<Flag> {
    set f | f in flags && f.Bubble?
  }

  /** UID STORE: a uid that is not there is not an error, and changes nothing. */
  function Store(s: Server, l: Loc, add: set<Flag>, remove: set<Flag>): Server {
    if l in s.at then s.(at := s.at[l := Mail(s.at[l].id, s.at[l].flags - remove + add)]) else s
  }

  /** UID MOVE to a box, where the server gives the mail a uid it never gave before;
      a uid that is not there moves nothing. */
  function Move(s: Server, l: Loc, landed: Loc): Server
    requires landed !in s.used
  {
    if l in s.at then
      var mail := s.at[l];
      Server((s.at - {l})[landed := mail], s.place[mail.id := landed], s.used + {landed})
    else s
  }

  function Expunge(s: Server, l: Loc): Server {
    if l in s.at then s.(at := s.at - {l}, place := s.place - {s.at[l].id}) else s
  }

  function Deliver(s: Server, id: nat, flags: set<Flag>, landed: Loc): Server
    requires landed !in s.used && id !in s.place
  {
    Server(s.at[landed := Mail(id, flags)], s.place[id := landed], s.used + {landed})
  }

  /** What bringBack takes off a mail, given the flags its mirror shows: \Seen, and
      the return keyword if it sees one. */
  function Stripped(keyword: Option<Flag>): set<Flag> {
    if keyword.Some? then {Seen, keyword.value} else {Seen}
  }

  /** A mirror's keyword is any one it shows, and None only when it shows none. */
  ghost predicate KeywordOf(flags: set<Flag>, keyword: Option<Flag>) {
    if keyword.Some? then keyword.value in Bubbles(flags) else Bubbles(flags) == {}
  }

  /** Whether a mail carries what a return leaves on it. */
  predicate Stamped(flags: set<Flag>) {
    Returned in flags && Seen !in flags
  }

  /** A STORE for the return takes every return keyword off a mail exactly when the
      server has none but the one the mirror showed. A mail re-timed since keeps
      its new keyword, and is brought back all the same. */
  lemma {:induction false} ReturnStripsIff(s: Server, l: Loc, keyword: Option<Flag>)
    requires l in s.at && (keyword.Some? ==> keyword.value.Bubble?)
    ensures var after := Store(s, l, {Returned}, Stripped(keyword)).at[l].flags;
            Stamped(after) && (Bubbles(after) == {} <==> Bubbles(s.at[l].flags) <= if keyword.Some? then {keyword.value} else {})
  {
    var flags, named := s.at[l].flags, if keyword.Some? then {keyword.value} else {};
    assert Bubbles(Store(s, l, {Returned}, Stripped(keyword)).at[l].flags) == Bubbles(flags) - named;
    assert Bubbles(flags) - named == {} <==> Bubbles(flags) <= named;
  }

  /** The keyword the mirror showed comes off, unless it is the new one. */
  function Cleared(flags: set<Flag>, shown: Option<Flag>, kw: Flag): set<Flag> {
    if shown.Some? && shown.value != kw then flags - {shown.value} else flags
  }

  /** Flags after a bubble is set: the old keyword off, the new one on. */
  function Retimed(flags: set<Flag>, shown: Option<Flag>, kw: Flag): set<Flag> {
    Cleared(flags, shown, kw) + {kw}
  }

  /** A mail is left with exactly the one keyword when the server had none but that
      and the one the mirror showed: a mirror that had not seen a bubble set
      elsewhere leaves two. */
  lemma {:induction false} RetimeLeavesOneIff(flags: set<Flag>, shown: Option<Flag>, kw: Flag)
    requires kw.Bubble? && (shown.Some? ==> shown.value.Bubble?)
    ensures Bubbles(Retimed(flags, shown, kw)) == {kw}
       <==> Bubbles(flags) <= {kw} + if shown.Some? then {shown.value} else {}
    ensures forall name :: Label(name) in Retimed(flags, shown, kw) <==> Label(name) in flags
  {
    var now := Retimed(flags, shown, kw);
    assert kw in Bubbles(now);
    forall f: Flag ensures f in Bubbles(now) <==> f == kw || (f in Bubbles(flags) && shown != Some(f)) {
    }
    var seen := {kw} + if shown.Some? then {shown.value} else {};
    if Bubbles(flags) <= seen {
      assert Bubbles(now) == {kw};
    } else {
      var f :| f in Bubbles(flags) && f !in seen;
      assert f in Bubbles(now);
    }
  }
}
