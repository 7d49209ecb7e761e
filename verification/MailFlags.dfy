/** IMAP flags kept on a Graph message: \Seen is isRead, \Flagged the follow-up
    flag, and any other keyword a category. A write is one PATCH, made from the
    categories the store remembers. */
module MailFlags {
  import opened Basics

  datatype Message = Message(isRead: bool, isDraft: bool, flagged: bool, categories: seq<string>)

  /** The properties a PATCH names; the others are not touched. */
  datatype Patch = Patch(isRead: Option<bool>, flagged: Option<bool>, categories: Option<seq<string>>)

  const SEEN: string := "\\Seen"
  const FLAGGED: string := "\\Flagged"
  const DRAFT: string := "\\Draft"

  /** A category that can be an IMAP keyword. */
  predicate IsKeyword(c: string) {
    c != "" && c[0] != '\\' &&
    forall i :: 0 <= i < |c| ==> c[i] !in {' ', '(', ')', '%', '*', '"', '\\', ']', '{'}
  }

  /** What a message looks like over IMAP. */
  function Flags(g: Message): set<string> {
    (if g.isRead then {SEEN} else {}) + (if g.isDraft then {DRAFT} else {}) + (if g.flagged then {FLAGGED} else {}) +
    set c | c in g.categories && IsKeyword(c)
  }

  /** What may stand in a keyword by section 9 of RFC 3501, less what starts a flag of
      the protocol's own. */
  predicate IsAtom(c: string) {
    && c != "" && ' ' !in c && '(' !in c && ')' !in c && '{' !in c && '%' !in c && '*' !in c
    && '"' !in c && '\\' !in c && ']' !in c
  }

  /** A message read, a draft or followed up has the flag for it, and of its categories
      those that can be spelled as keywords; no other. */
  lemma {:induction false} FlagsAre(g: Message, f: string)
    ensures f in Flags(g) <==>
              || (f == "\\Seen" && g.isRead) || (f == "\\Draft" && g.isDraft) || (f == "\\Flagged" && g.flagged)
              || (f in g.categories && IsAtom(f))
  {
    if !IsKeyword(f) && f != "" {
      var i :| 0 <= i < |f| && f[i] in {' ', '(', ')', '%', '*', '"', '\\', ']', '{'};
      assert f[i] in f;
    }
  }

  function Without(cats: seq<string>, f: string): seq<string> {
    if cats == [] then []
    else if cats[0] == f then Without(cats[1..], f)
    else [cats[0]] + Without(cats[1..], f)
  }

  function AddOne(p: Patch, cats: seq<string>, f: string): (Patch, seq<string>) {
    if f == SEEN then (p.(isRead := Some(true)), cats)
    else if f == FLAGGED then (p.(flagged := Some(true)), cats)
    else if IsKeyword(f) && f !in cats then (p, cats + [f])
    else (p, cats)
  }

  function RemoveOne(p: Patch, cats: seq<string>, f: string): (Patch, seq<string>) {
    if f == SEEN then (p.(isRead := Some(false)), cats)
    else if f == FLAGGED then (p.(flagged := Some(false)), cats)
    else (p, Without(cats, f))
  }

  function AddAll(cats: seq<string>, add: seq<string>): (Patch, seq<string>) {
    if add == [] then (Patch(None, None, None), cats)
    else
      var (p, c) := AddAll(cats, add[..|add| - 1]);
      AddOne(p, c, add[|add| - 1])
  }

  function RemoveAll(p: Patch, cats: seq<string>, remove: seq<string>): (Patch, seq<string>) {
    if remove == [] then (p, cats)
    else
      var (q, c) := RemoveAll(p, cats, remove[..|remove| - 1]);
      RemoveOne(q, c, remove[|remove| - 1])
  }

  /** The PATCH for a write, from the categories remembered. */
  function PatchFor(cats: seq<string>, add: seq<string>, remove: seq<string>): Patch {
    var (p, c) := AddAll(cats, add);
    var (q, d) := RemoveAll(p, c, remove);
    if d == cats then q else q.(categories := Some(d))
  }

  method MakePatch(cats: seq<string>, add: seq<string>, remove: seq<string>) returns (patch: Patch)
    ensures patch == PatchFor(cats, add, remove)
  {
    patch := Patch(None, None, None);
    var now := cats;
    for i := 0 to |add|
      invariant (patch, now) == AddAll(cats, add[..i])
    {
      assert add[..i + 1][..i] == add[..i];
      if add[i] == SEEN {
        patch := patch.(isRead := Some(true));
      } else if add[i] == FLAGGED {
        patch := patch.(flagged := Some(true));
      } else if IsKeyword(add[i]) && add[i] !in now {
        now := now + [add[i]];
      }
    }
    assert add[..|add|] == add;
    ghost var p, c := patch, now;
    for i := 0 to |remove|
      invariant (patch, now) == RemoveAll(p, c, remove[..i])
    {
      assert remove[..i + 1][..i] == remove[..i];
      if remove[i] == SEEN {
        patch := patch.(isRead := Some(false));
      } else if remove[i] == FLAGGED {
        patch := patch.(flagged := Some(false));
      } else {
        now := Without(now, remove[i]);
      }
    }
    assert remove[..|remove|] == remove;
    if now != cats {
      patch := patch.(categories := Some(now));
    }
  }

  /** What the server makes of a PATCH. */
  function Patched(g: Message, p: Patch): Message {
    Message(if p.isRead.Some? then p.isRead.value else g.isRead, g.isDraft,
            if p.flagged.Some? then p.flagged.value else g.flagged,
            if p.categories.Some? then p.categories.value else g.categories)
  }

  // ---------- what a write comes to ----------

  lemma {:induction false} WithoutIs(cats: seq<string>, f: string)
    ensures forall c :: c in Without(cats, f) <==> c in cats && c != f
  {
    if cats != [] {
      WithoutIs(cats[1..], f);
    }
  }

  /** Asked for last, for a flag that is on or off. */
  function Wanted(f: string, add: seq<string>, remove: seq<string>): Option<bool> {
    if f in remove then Some(false) else if f in add then Some(true) else None
  }

  lemma {:induction false} Snoc(s: seq<string>, f: string)
    requires s != []
    ensures f in s <==> f in s[..|s| - 1] || f == s[|s| - 1]
  {
  }

  lemma {:induction false} AddAllIs(cats: seq<string>, add: seq<string>, f: string)
    ensures var (p, c) := AddAll(cats, add);
            && p.isRead == (if SEEN in add then Some(true) else None)
            && p.flagged == (if FLAGGED in add then Some(true) else None)
            && p.categories == None
            && (f in c <==> f in cats || (f in add && IsKeyword(f)))
  {
    if add != [] {
      AddAllIs(cats, add[..|add| - 1], f);
      AddAllIs(cats, add[..|add| - 1], add[|add| - 1]);
      Snoc(add, SEEN);
      Snoc(add, FLAGGED);
      Snoc(add, f);
      assert !IsKeyword(SEEN) && !IsKeyword(FLAGGED);
    }
  }

  lemma {:induction false} RemoveAllIs(p: Patch, cats: seq<string>, remove: seq<string>, f: string)
    ensures var (q, c) := RemoveAll(p, cats, remove);
            && q.isRead == (if SEEN in remove then Some(false) else p.isRead)
            && q.flagged == (if FLAGGED in remove then Some(false) else p.flagged)
            && q.categories == p.categories
            && (f != SEEN && f != FLAGGED ==> (f in c <==> f in cats && f !in remove))
  {
    if remove != [] {
      RemoveAllIs(p, cats, remove[..|remove| - 1], f);
      var (q, c) := RemoveAll(p, cats, remove[..|remove| - 1]);
      WithoutIs(c, remove[|remove| - 1]);
      Snoc(remove, SEEN);
      Snoc(remove, FLAGGED);
      Snoc(remove, f);
    }
  }

  /** The categories a PATCH leaves on a message, from what the store remembered. */
  lemma {:induction false} PatchIs(cats: seq<string>, add: seq<string>, remove: seq<string>, f: string)
    ensures var p := PatchFor(cats, add, remove);
            && p.isRead == Wanted(SEEN, add, remove) && p.flagged == Wanted(FLAGGED, add, remove)
            && (f != SEEN && f != FLAGGED ==>
                 (f in (if p.categories.Some? then p.categories.value else cats)
                  <==> (f in cats || (f in add && IsKeyword(f))) && f !in remove))
  {
    var (p, c) := AddAll(cats, add);
    AddAllIs(cats, add, f);
    RemoveAllIs(p, c, remove, f);
  }

  /** With the store up to date, a write does over Graph what STORE does over IMAP:
      the flags named are added and then removed, and no others change. \Draft, and
      a keyword no category can spell, cannot be stored. */
  lemma {:induction false} WriteIsAStore(g: Message, add: seq<string>, remove: seq<string>, f: string)
    requires f == SEEN || f == FLAGGED || IsKeyword(f)
    ensures f in Flags(Patched(g, PatchFor(g.categories, add, remove)))
       <==> (f in Flags(g) || f in add) && f !in remove
  {
    PatchIs(g.categories, add, remove, f);
    assert !IsKeyword(SEEN) && !IsKeyword(FLAGGED) && !IsKeyword(DRAFT);
    assert SEEN != FLAGGED && SEEN != DRAFT && FLAGGED != DRAFT;
  }

  lemma {:induction false} WithoutNone(cats: seq<string>, f: string)
    requires f !in cats
    ensures Without(cats, f) == cats
  {
    if cats != [] {
      WithoutNone(cats[1..], f);
      assert cats == [cats[0]] + cats[1..];
    }
  }

  lemma {:induction false} WithoutBoth(a: seq<string>, b: seq<string>, f: string)
    ensures Without(a + b, f) == Without(a, f) + Without(b, f)
  {
    if a == [] {
      assert a + b == b;
    } else {
      WithoutBoth(a[1..], b, f);
      assert (a + b)[1..] == a[1..] + b;
    }
  }

  /** Adding puts keywords the store did not have on the end. */
  lemma {:induction false} AddAllExtends(cats: seq<string>, add: seq<string>) returns (extra: seq<string>)
    ensures AddAll(cats, add).1 == cats + extra
    ensures forall f :: f in extra ==> f in add && IsKeyword(f) && f !in cats
  {
    if add == [] {
      extra := [];
    } else {
      extra := AddAllExtends(cats, add[..|add| - 1]);
      var last := add[|add| - 1];
      if AddAll(cats, add).1 != cats + extra {
        extra := extra + [last];
        assert AddAll(cats, add).1 == cats + extra;
      }
    }
  }

  /** Whether a category is taken off: \Seen and \Flagged are not categories. */
  predicate Takes(remove: seq<string>, f: string) {
    f in remove && f != SEEN && f != FLAGGED
  }

  lemma {:induction false} RemovesNone(p: Patch, cats: seq<string>, extra: seq<string>, remove: seq<string>)
    requires forall f :: Takes(remove, f) ==> f !in cats
    ensures RemoveAll(p, cats + extra, remove).1 == cats + RemoveAll(p, extra, remove).1
  {
    if remove != [] {
      var front, last := remove[..|remove| - 1], remove[|remove| - 1];
      assert forall f :: Takes(front, f) ==> Takes(remove, f);
      RemovesNone(p, cats, extra, front);
      if last != SEEN && last != FLAGGED {
        assert Takes(remove, last);
        WithoutBoth(cats, RemoveAll(p, extra, front).1, last);
        WithoutNone(cats, last);
      }
    }
  }

  /** A write that takes off no category there is, and adds none but such as it takes
      off again. */
  predicate LeavesCategories(cats: seq<string>, add: seq<string>, remove: seq<string>) {
    && (forall f :: f in cats ==> !Takes(remove, f))
    && (forall f :: f in add && IsKeyword(f) && f !in cats ==> f in remove)
  }

  lemma {:induction false} NotSentIff(cats: seq<string>, add: seq<string>, remove: seq<string>)
    ensures PatchFor(cats, add, remove).categories.None? <==> LeavesCategories(cats, add, remove)
  {
    var (p, c) := AddAll(cats, add);
    AddAllIs(cats, add, "");
    RemoveAllIs(p, c, remove, "");
    assert !IsKeyword(SEEN) && !IsKeyword(FLAGGED);
    if LeavesCategories(cats, add, remove) {
      var extra := AddAllExtends(cats, add);
      RemovesNone(p, cats, extra, remove);
      var left := RemoveAll(p, extra, remove).1;
      if left != [] {
        assert left[0] in left;
        StillExtra(p, extra, remove);
        RemoveAllIs(p, extra, remove, left[0]);
      }
    } else if f :| f in cats && Takes(remove, f) {
      PatchIs(cats, add, remove, f);
    } else {
      var f :| f in add && IsKeyword(f) && f !in cats && f !in remove;
      PatchIs(cats, add, remove, f);
    }
  }

  lemma {:induction false} StillExtra(p: Patch, extra: seq<string>, remove: seq<string>)
    ensures forall f :: f in RemoveAll(p, extra, remove).1 ==> f in extra
  {
    if remove != [] {
      StillExtra(p, extra, remove[..|remove| - 1]);
      WithoutIs(RemoveAll(p, extra, remove[..|remove| - 1]).1, remove[|remove| - 1]);
    }
  }

  /** The categories go out whole, as the store remembers them. So a category put on
      the message elsewhere since the last delta is lost, unless the write leaves
      the categories alone or sets it itself; and that is the only way to lose one. */
  lemma {:induction false} CategoryKeptIff(g: Message, cats: seq<string>, add: seq<string>, remove: seq<string>, c: string)
    requires c in g.categories && c !in remove && c != SEEN && c != FLAGGED
    ensures c in Patched(g, PatchFor(cats, add, remove)).categories
       <==> LeavesCategories(cats, add, remove) || c in cats || (c in add && IsKeyword(c))
  {
    NotSentIff(cats, add, remove);
    PatchIs(cats, add, remove, c);
  }
}
