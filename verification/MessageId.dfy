/** A message's id, `[account/][box:]uid`, with an attachment's index after it: how
    it is printed and how it is read. dest is the short vocabulary of the routing,
    tried only for a name no mirrored box answers to. */
module MessageId {
  import opened Basics
  import opened Text

  datatype Placement = Placement(folder: string, uid: nat)

  type Destinations = string -> Option<string>

  const INBOX: string := "INBOX"
  const UNDER_INBOX: string := "INBOX/"

  // ---------- boxes ----------

  /** The first box of that name, but for case. */
  function Find(known: seq<string>, name: string): (box: Option<string>)
    ensures box.Some? ==> box.value in known && SameFold(box.value, name)
    ensures box.None? ==> forall k :: k in known ==> !SameFold(k, name)
  {
    if known == [] then None
    else if SameFold(known[0], name) then Some(known[0])
    else Find(known[1..], name)
  }

  function ResolveBox(name: string, known: seq<string>, dest: Destinations): string {
    if SameFold(name, "inbox") then INBOX
    else if Find(known, name).Some? then Find(known, name).value
    else if Find(known, UNDER_INBOX + name).Some? then Find(known, UNDER_INBOX + name).value
    else if dest(name).Some? && dest(name).value != "" then dest(name).value
    else name
  }

  /** The name a box is printed with: one under the Inbox without the prefix,
      unless another box has that name. */
  function ShortBox(folder: string, known: seq<string>): string {
    if UNDER_INBOX <= folder then
      var short := folder[|UNDER_INBOX|..];
      if exists k :: k in known && !SameFold(k, folder) && SameFold(k, short) then folder else short
    else folder
  }

  // ---------- ids ----------

  function FormatMessageId(folder: string, uid: nat, known: seq<string>): string {
    if folder == INBOX then Print(uid) else ShortBox(folder, known) + ":" + Print(uid)
  }

  /** A uid in decimal, 32 bits wide and not zero. */
  function ParseUid(s: string): Option<nat> {
    var n := Number(s);
    if n.None? || n.value == 0 || n.value > MAX_UINT32 then None else n
  }

  function ParseMessageId(value: string, known: seq<string>, bare: string, dest: Destinations): Option<Placement> {
    var v := Trim(value);
    if v == "" then None
    else
      var i := LastIndex(v, ':');
      var folder := if i.Some? then ResolveBox(Trim(v[..i.value]), known, dest) else bare;
      var uid := ParseUid(if i.Some? then Trim(v[i.value + 1..]) else v);
      if uid.None? then None else Some(Placement(folder, uid.value))
  }

  /** An index, which may carry a sign, and fits 64 bits. */
  function ParseIndex(s: string): Option<int> {
    var n := if s != "" && (s[0] == '+' || s[0] == '-') then Number(s[1..]) else Number(s);
    if n.None? || n.value >= 0x8000_0000_0000_0000 then None
    else
      var size: int := n.value;
      Some(if s[0] == '-' then -size else size)
  }

  datatype Attachment = Attachment(placement: Placement, index: nat)

  function FormatAttachmentId(folder: string, uid: nat, index: nat, known: seq<string>): string {
    FormatMessageId(folder, uid, known) + ":" + Print(index)
  }

  function ParseAttachmentId(value: string, known: seq<string>, dest: Destinations): Option<Attachment> {
    var v := Trim(value);
    var i := LastIndex(v, ':');
    var index := if i.Some? then ParseIndex(v[i.value + 1..]) else None;
    var named := if i.Some? then ParseMessageId(v[..i.value], known, INBOX, dest) else None;
    var whole := ParseMessageId(v, known, INBOX, dest);
    if index.Some? && index.value > 0 && named.Some? then Some(Attachment(named.value, index.value))
    else if whole.Some? then Some(Attachment(whole.value, 0))
    else None
  }

  // ---------- reading back ----------

  ghost predicate Distinct(known: seq<string>) {
    forall a, b :: a in known && b in known && SameFold(a, b) ==> a == b
  }

  lemma {:induction false} FindsIt(known: seq<string>, box: string)
    requires box in known && Distinct(known)
    ensures Find(known, box) == Some(box)
  {
  }

  /** A printed name, read back, is the box it was printed for, unless it reads as
      the Inbox. */
  lemma {:induction false} ShortNameReadsBack(folder: string, known: seq<string>, dest: Destinations)
    requires folder in known && Distinct(known) && !SameFold(ShortBox(folder, known), "inbox")
    ensures ResolveBox(ShortBox(folder, known), known, dest) == folder
  {
    var short := ShortBox(folder, known);
    FindsIt(known, folder);
    if short != folder {
      assert folder == UNDER_INBOX + short;
      forall k | k in known ensures !SameFold(k, short) {
        if SameFold(k, folder) {
          assert |k| == |folder|;
        }
      }
    }
  }

  /** What a name asks for: the Inbox by its own name, a mirrored box by its name,
      one under the Inbox by what follows "INBOX/", case apart, and then a word of
      the routing; any other name is the box itself. */
  lemma {:induction false} WhatANameNames(name: string, known: seq<string>, dest: Destinations)
    ensures var box := ResolveBox(name, known, dest);
            if SameFold(name, "inbox") then box == "INBOX"
            else if exists k :: k in known && SameFold(k, name) then box in known && SameFold(box, name)
            else if exists k :: k in known && SameFold(k, "INBOX/" + name) then
              box in known && SameFold(box, "INBOX/" + name)
            else if exists b :: b != "" && dest(name) == Some(b) then dest(name) == Some(box)
            else box == name
  {
    var outright, under := Find(known, name), Find(known, "INBOX/" + name);
    if dest(name).Some? && dest(name).value != "" {
      assert dest(name) == Some(dest(name).value);
    }
  }

  /** Whether another box is called what follows "INBOX/". */
  ghost predicate Shadowed(folder: string, known: seq<string>)
    requires "INBOX/" <= folder
  {
    exists k :: k in known && !SameFold(k, folder) && SameFold(k, folder[6..])
  }

  /** The Inbox is not named in an id, a box under it is named by what follows
      "INBOX/" where no other box has that name, and any other box in full. */
  lemma {:induction false} WhatIsPrinted(folder: string, uid: nat, known: seq<string>)
    ensures FormatMessageId("INBOX", uid, known) == Print(uid)
    ensures var id := FormatMessageId(folder, uid, known);
            folder == "INBOX"
            || if "INBOX/" <= folder && !Shadowed(folder, known) then id == folder[6..] + ":" + Print(uid)
               else id == folder + ":" + Print(uid)
  {
  }

  lemma {:induction false} DigitsEnd(head: string, n: nat)
    ensures LastIndex(head + ":" + Print(n), ':') == Some(|head|)
    ensures (head + ":" + Print(n))[..|head|] == head && (head + ":" + Print(n))[|head| + 1..] == Print(n)
    ensures IsTrim(head) ==> IsTrim(head + ":" + Print(n))
  {
    var v := head + ":" + Print(n);
    assert v[|head|] == ':';
    assert forall k :: |head| < k < |v| ==> v[k] == Print(n)[k - |head| - 1];
    assert v[|v| - 1] == Print(n)[|Print(n)| - 1];
  }

  lemma {:induction false} DigitsAlone(n: nat)
    ensures LastIndex(Print(n), ':') == None && IsTrim(Print(n)) && Trim(Print(n)) == Print(n)
  {
  }

  lemma {:induction false} ReadsHeadAndUid(head: string, uid: nat, known: seq<string>, bare: string, dest: Destinations)
    requires IsTrim(head) && 1 <= uid <= MAX_UINT32
    ensures ParseMessageId(head + ":" + Print(uid), known, bare, dest) == Some(Placement(ResolveBox(head, known, dest), uid))
  {
    var v := head + ":" + Print(uid);
    assert Trim(v) == v && LastIndex(v, ':') == Some(|head|) && v[..|head|] == head && v[|head| + 1..] == Print(uid) by {
      DigitsEnd(head, uid);
      TrimsToItself(v);
    }
    assert Trim(Print(uid)) == Print(uid) by { DigitsAlone(uid); }
    assert ParseUid(Print(uid)) == Some(uid) by { NumberOfPrint(uid); }
    TrimsToItself(head);
  }

  lemma {:induction false} ReadsUidAlone(uid: nat, known: seq<string>, bare: string, dest: Destinations)
    requires 1 <= uid <= MAX_UINT32
    ensures ParseMessageId(Print(uid), known, bare, dest) == Some(Placement(bare, uid))
  {
    DigitsAlone(uid);
    NumberOfPrint(uid);
  }

  /** A name a box can be told by. */
  predicate Tellable(folder: string, known: seq<string>) {
    folder == INBOX || !SameFold(ShortBox(folder, known), "inbox")
  }

  /** Over a list of boxes whose names differ by more than case and need no
      trimming, a printed id reads back as the placement it was printed for,
      exactly when its box is not another one called inbox. */
  lemma {:induction false} MessageIdReadsBackIff(folder: string, uid: nat, known: seq<string>, dest: Destinations)
    requires folder in known && Distinct(known) && IsTrim(ShortBox(folder, known)) && 1 <= uid <= MAX_UINT32
    ensures ParseMessageId(FormatMessageId(folder, uid, known), known, INBOX, dest) == Some(Placement(folder, uid))
       <==> Tellable(folder, known)
  {
    if folder == INBOX {
      ReadsUidAlone(uid, known, INBOX, dest);
    } else {
      ReadsHeadAndUid(ShortBox(folder, known), uid, known, INBOX, dest);
      if !SameFold(ShortBox(folder, known), "inbox") {
        ShortNameReadsBack(folder, known, dest);
      }
    }
  }

  lemma {:induction false} FormatIsTrim(folder: string, uid: nat, known: seq<string>)
    requires IsTrim(ShortBox(folder, known))
    ensures IsTrim(FormatMessageId(folder, uid, known))
  {
  }

  lemma {:induction false} IndexOfPrint(n: nat)
    requires n < 0x8000_0000_0000_0000
    ensures ParseIndex(Print(n)) == Some(n)
  {
    NumberOfPrint(n);
    assert IsDigit(Print(n)[0]);
  }

  lemma {:induction false} FormattedReads(folder: string, uid: nat, known: seq<string>, dest: Destinations)
    requires IsTrim(ShortBox(folder, known)) && 1 <= uid <= MAX_UINT32
    ensures ParseMessageId(FormatMessageId(folder, uid, known), known, INBOX, dest).Some?
  {
    ReadsUidAlone(uid, known, INBOX, dest);
    ReadsHeadAndUid(ShortBox(folder, known), uid, known, INBOX, dest);
  }

  /** And so does an attachment's id, index and all. */
  lemma {:induction false} AttachmentIdReadsBackIff(folder: string, uid: nat, index: nat, known: seq<string>, dest: Destinations)
    requires folder in known && Distinct(known) && IsTrim(ShortBox(folder, known)) && 1 <= uid <= MAX_UINT32
    requires 1 <= index < 0x8000_0000_0000_0000
    ensures ParseAttachmentId(FormatAttachmentId(folder, uid, index, known), known, dest) == Some(Attachment(Placement(folder, uid), index))
       <==> Tellable(folder, known)
  {
    var id := FormatMessageId(folder, uid, known);
    FormatIsTrim(folder, uid, known);
    DigitsEnd(id, index);
    TrimsToItself(id + ":" + Print(index));
    IndexOfPrint(index);
    FormattedReads(folder, uid, known, dest);
    MessageIdReadsBackIff(folder, uid, known, dest);
  }

  /** The index may be left out, when a message has one attachment. The message's
      own id is then read as a message's exactly when its box's printed name is not
      itself an id: 5 in a box called 2024 is taken for the fifth attachment of
      message 2024 in the Inbox. */
  lemma {:induction false} MessageIdAsAttachmentIff(folder: string, uid: nat, known: seq<string>, dest: Destinations)
    requires folder in known && Distinct(known) && IsTrim(ShortBox(folder, known)) && 1 <= uid <= MAX_UINT32
    ensures ParseAttachmentId(FormatMessageId(folder, uid, known), known, dest) == Some(Attachment(Placement(folder, uid), 0))
       <==> Tellable(folder, known) &&
            (folder == INBOX || ParseMessageId(ShortBox(folder, known), known, INBOX, dest).None?)
  {
    MessageIdReadsBackIff(folder, uid, known, dest);
    if folder == INBOX {
      DigitsAlone(uid);
    } else {
      assert Trim(FormatMessageId(folder, uid, known)) == FormatMessageId(folder, uid, known) by {
        FormatIsTrim(folder, uid, known);
        TrimsToItself(FormatMessageId(folder, uid, known));
      }
      WithoutIndex(ShortBox(folder, known), uid, known, dest);
    }
  }

  /** What is read after the last colon is an index, if what is before it is an id. */
  lemma {:induction false} WithoutIndex(head: string, uid: nat, known: seq<string>, dest: Destinations)
    requires var v := head + ":" + Print(uid); Trim(v) == v && 1 <= uid <= MAX_UINT32
    ensures var v := head + ":" + Print(uid); var named, whole := ParseMessageId(head, known, INBOX, dest), ParseMessageId(v, known, INBOX, dest);
            ParseAttachmentId(v, known, dest) ==
              if named.Some? then Some(Attachment(named.value, uid)) else if whole.Some? then Some(Attachment(whole.value, 0)) else None
  {
    DigitsEnd(head, uid);
    IndexOfPrint(uid);
  }

  lemma {:induction false} YearBoxExample(dest: Destinations)
    ensures ParseMessageId("2024", ["INBOX", "2024"], INBOX, dest) == Some(Placement(INBOX, 2024))
  {
    assert Print(2024) == "2024" by {
      assert Print(202) == "202" by { assert Print(20) == "20"; }
    }
    ReadsUidAlone(2024, ["INBOX", "2024"], INBOX, dest);
  }

  /** A box named outright is never shadowed by a child of the Inbox with that
      short name, whatever else is mirrored. */
  lemma {:induction false} NamedOutrightWins(box: string, known: seq<string>, dest: Destinations)
    requires box in known && !SameFold(box, "inbox")
    ensures SameFold(ResolveBox(box, known, dest), box)
    ensures Distinct(known) ==> ResolveBox(box, known, dest) == box
  {
  }

  // ---------- several accounts ----------

  /** accounts[0] is the Primary, whose name is never written. */
  datatype Account = Account(name: string, mirrored: seq<string>)

  datatype Resolved = Resolved(account: nat, placement: Placement)

  function NamesAccount(accounts: seq<Account>, name: string): bool {
    exists i :: 0 <= i < |accounts| && accounts[i].name != "" && SameFold(accounts[i].name, name)
  }

  datatype Parts = Parts(account: string, rest: string)

  /** Only a prefix that names an account counts as one. */
  function SplitAccount(value: string, accounts: seq<Account>): Parts {
    var v := Trim(value);
    var i := FirstIndex(v, '/');
    if NamesAccount(accounts, v) then Parts(v, "")
    else if i.None? || i.value == 0 then Parts("", v)
    else if NamesAccount(accounts, v[..i.value]) then Parts(v[..i.value], v[i.value + 1..])
    else Parts("", v)
  }

  /** The first account of that name, from the nth on. */
  function AccountNamed(accounts: seq<Account>, name: string, n: nat): (i: Option<nat>)
    requires n <= |accounts|
    ensures i.Some? ==> n <= i.value < |accounts| && SameFold(accounts[i.value].name, name)
                        && forall k :: n <= k < i.value ==> !SameFold(accounts[k].name, name)
    ensures i.None? ==> forall k :: n <= k < |accounts| ==> !SameFold(accounts[k].name, name)
    decreases |accounts| - n
  {
    if n == |accounts| then None
    else if SameFold(accounts[n].name, name) then Some(n)
    else AccountNamed(accounts, name, n + 1)
  }

  function ResolveId(value: string, accounts: seq<Account>, dest: Destinations): Option<Resolved>
    requires accounts != []
  {
    var parts := SplitAccount(value, accounts);
    var i := if parts.account == "" then Some(0) else AccountNamed(accounts, parts.account, 0);
    if i.None? then None
    else
      var placement := ParseMessageId(parts.rest, accounts[i.value].mirrored, INBOX, dest);
      if placement.None? then None else Some(Resolved(i.value, placement.value))
  }

  /** The id a listing of an account prints. */
  function MessageIdOn(accounts: seq<Account>, i: nat, folder: string, uid: nat): string
    requires i < |accounts|
  {
    var id := FormatMessageId(folder, uid, accounts[i].mirrored);
    if i == 0 || accounts[i].name == "" then id else accounts[i].name + "/" + id
  }

  ghost predicate FirstCalled(accounts: seq<Account>, name: string, k: nat) {
    && k < |accounts| && SameFold(accounts[k].name, name)
    && forall j :: 0 <= j < k ==> !SameFold(accounts[j].name, name)
  }

  function On(i: nat, placement: Option<Placement>): Option<Resolved> {
    if placement.Some? then Some(Resolved(i, placement.value)) else None
  }

  /** Whose mail an id is: that of the first account called what comes before the
      first slash, case apart, the rest being read in its boxes. Where no account is,
      or there is no slash, the whole id is the Primary's. A name of an account by
      itself is no id. */
  lemma {:induction false} WhoseIdItIs(head: string, rest: string, accounts: seq<Account>, dest: Destinations)
    requires accounts != [] && head != "" && '/' !in head
    ensures var id := head + "/" + rest;
            Trim(id) == id ==>
            if exists a :: a in accounts && SameFold(a.name, id) then ResolveId(id, accounts, dest) == None
            else if exists a :: a in accounts && SameFold(a.name, head) then
              exists k: nat :: FirstCalled(accounts, head, k)
                && ResolveId(id, accounts, dest) == On(k, ParseMessageId(rest, accounts[k].mirrored, "INBOX", dest))
            else ResolveId(id, accounts, dest) == On(0, ParseMessageId(id, accounts[0].mirrored, "INBOX", dest))
    ensures Trim(head) == head ==>
            ResolveId(head, accounts, dest) ==
            if exists a :: a in accounts && SameFold(a.name, head) then None
            else On(0, ParseMessageId(head, accounts[0].mirrored, "INBOX", dest))
  {
    var id := head + "/" + rest;
    SlashEnds(head, rest);
    assert FirstIndex(head, '/').None?;
    NamedIff(accounts, id);
    NamedIff(accounts, head);
    var k := AccountNamed(accounts, head, 0);
    if k.Some? {
      assert FirstCalled(accounts, head, k.value);
    }
  }

  lemma {:induction false} NamedIff(accounts: seq<Account>, name: string)
    requires name != ""
    ensures NamesAccount(accounts, name) <==> exists a :: a in accounts && SameFold(a.name, name)
    ensures NamesAccount(accounts, name) <==> AccountNamed(accounts, name, 0).Some?
  {
    if a :| a in accounts && SameFold(a.name, name) {
      var i :| 0 <= i < |accounts| && accounts[i] == a;
    }
  }

  ghost predicate Printable(accounts: seq<Account>, i: nat, folder: string, uid: nat) {
    && i < |accounts| && folder in accounts[i].mirrored && Distinct(accounts[i].mirrored)
    && IsTrim(ShortBox(folder, accounts[i].mirrored)) && 1 <= uid <= MAX_UINT32
  }

  lemma {:induction false} SlashEnds(name: string, rest: string)
    requires '/' !in name
    ensures FirstIndex(name + "/" + rest, '/') == Some(|name|)
    ensures (name + "/" + rest)[..|name|] == name && (name + "/" + rest)[|name| + 1..] == rest
  {
    var v := name + "/" + rest;
    assert v[|name|] == '/';
    assert forall k :: 0 <= k < |name| ==> v[k] == name[k] && name[k] in name;
  }

  lemma {:induction false} TrimStarts(s: string)
    ensures Trim(s) != "" ==> !IsSpace(Trim(s)[0])
    ensures |Trim(s)| <= |s| && Trim(s) <= TrimLeft(s)
  {
    LeftStarts(s);
    RightKeeps(TrimLeft(s));
  }

  lemma {:induction false} LeftStarts(s: string)
    ensures (TrimLeft(s) != "" ==> !IsSpace(TrimLeft(s)[0])) && |TrimLeft(s)| <= |s|
  {
    if s != "" && IsSpace(s[0]) {
      LeftStarts(s[1..]);
    }
  }

  lemma {:induction false} RightKeeps(s: string)
    ensures TrimRight(s) <= s
  {
    if s != "" && IsSpace(s[|s| - 1]) {
      RightKeeps(s[..|s| - 1]);
    }
  }

  /** An account is found only by its name, and an id that is a name is none. */
  lemma {:induction false} FoundByName(value: string, accounts: seq<Account>, dest: Destinations)
    requires accounts != []
    ensures var r := ResolveId(value, accounts, dest); var v := Trim(value); var s := FirstIndex(v, '/');
            r.Some? ==>
              && !NamesAccount(accounts, v)
              && (r.value.account != 0 ==> s.Some? && s.value > 0 && SameFold(accounts[r.value.account].name, v[..s.value]))
  {
  }

  /** An id whose first segment names an account. */
  lemma {:induction false} SegmentNames(v: string, head: string, rest: string, accounts: seq<Account>, dest: Destinations)
    requires accounts != [] && Trim(v) == v && head != "" && !NamesAccount(accounts, v) && NamesAccount(accounts, head)
    requires FirstIndex(v, '/') == Some(|head|) && v[..|head|] == head && v[|head| + 1..] == rest
    ensures var i := AccountNamed(accounts, head, 0);
            i.Some? && ResolveId(v, accounts, dest) ==
              var p := ParseMessageId(rest, accounts[i.value].mirrored, INBOX, dest);
              if p.None? then None else Some(Resolved(i.value, p.value))
  {
    assert SplitAccount(v, accounts) == Parts(head, rest);
  }

  lemma {:induction false} NameIsNoId(v: string, accounts: seq<Account>, dest: Destinations)
    requires accounts != [] && Trim(v) == v && NamesAccount(accounts, v)
    ensures ResolveId(v, accounts, dest) == None
  {
  }

  /** A secondary account's id reads back as its own exactly when its box can be
      told and its name can be taken off again: not empty, without a slash, not
      beginning with a space, and borne by no account before it; and when no account
      is called what the whole id says. */
  lemma {:induction false} SecondaryIdReadsBackIff(accounts: seq<Account>, i: nat, folder: string, uid: nat, dest: Destinations)
    requires Printable(accounts, i, folder, uid) && i > 0
    ensures ResolveId(MessageIdOn(accounts, i, folder, uid), accounts, dest) == Some(Resolved(i, Placement(folder, uid)))
       <==> && Tellable(folder, accounts[i].mirrored)
            && accounts[i].name != "" && '/' !in accounts[i].name && !IsSpace(accounts[i].name[0])
            && AccountNamed(accounts, accounts[i].name, 0) == Some(i)
            && !NamesAccount(accounts, MessageIdOn(accounts, i, folder, uid))
  {
    var name, id := accounts[i].name, MessageIdOn(accounts, i, folder, uid);
    if name != "" && '/' !in name && !IsSpace(name[0]) {
      NameComesOff(accounts, i, folder, uid, dest);
    } else {
      AnotherIsFound(accounts, i, folder, uid, dest);
    }
  }

  lemma {:induction false} NameComesOff(accounts: seq<Account>, i: nat, folder: string, uid: nat, dest: Destinations)
    requires Printable(accounts, i, folder, uid) && i > 0
    requires accounts[i].name != "" && '/' !in accounts[i].name && !IsSpace(accounts[i].name[0])
    ensures ResolveId(MessageIdOn(accounts, i, folder, uid), accounts, dest) == Some(Resolved(i, Placement(folder, uid)))
       <==> && Tellable(folder, accounts[i].mirrored) && AccountNamed(accounts, accounts[i].name, 0) == Some(i)
            && !NamesAccount(accounts, MessageIdOn(accounts, i, folder, uid))
  {
    var name, id := accounts[i].name, FormatMessageId(folder, uid, accounts[i].mirrored);
    var v := name + "/" + id;
    assert Trim(v) == v by {
      FormatIsTrim(folder, uid, accounts[i].mirrored);
      FormatEndsInDigit(folder, uid, accounts[i].mirrored);
      TrimsToItself(v);
    }
    assert FirstIndex(v, '/') == Some(|name|) && v[..|name|] == name && v[|name| + 1..] == id by {
      SlashEnds(name, id);
    }
    if NamesAccount(accounts, v) {
      NameIsNoId(v, accounts, dest);
    } else {
      assert NamesAccount(accounts, name) by {
        assert SameFold(accounts[i].name, name);
      }
      SegmentNames(v, name, id, accounts, dest);
      MessageIdReadsBackIff(folder, uid, accounts[i].mirrored, dest);
    }
  }

  lemma {:induction false} AnotherIsFound(accounts: seq<Account>, i: nat, folder: string, uid: nat, dest: Destinations)
    requires Printable(accounts, i, folder, uid) && i > 0
    requires accounts[i].name == "" || '/' in accounts[i].name || IsSpace(accounts[i].name[0])
    ensures var r := ResolveId(MessageIdOn(accounts, i, folder, uid), accounts, dest); r.None? || r.value.account != i
  {
    var name, id := accounts[i].name, MessageIdOn(accounts, i, folder, uid);
    var v := Trim(id);
    FoundByName(id, accounts, dest);
    TrimStarts(id);
    if name != "" && !IsSpace(name[0]) {
      var k :| 0 <= k < |name| && name[k] == '/';
      assert v == id by {
        FormatEndsInDigit(folder, uid, accounts[i].mirrored);
        FormatIsTrim(folder, uid, accounts[i].mirrored);
        TrimsToItself(id);
      }
      assert v[k] == '/';
    }
  }

  lemma {:induction false} FormatEndsInDigit(folder: string, uid: nat, known: seq<string>)
    ensures var id := FormatMessageId(folder, uid, known); id != "" && IsDigit(id[|id| - 1])
  {
  }

  /** What an id without an account could be taken for: an account's name, or an id
      on the account its first segment names. */
  predicate Mistaken(accounts: seq<Account>, id: string) {
    NamesAccount(accounts, id) ||
    var i := FirstIndex(id, '/');
    i.Some? && i.value > 0 && NamesAccount(accounts, id[..i.value])
  }

  /** The first segment is the Primary's own name, and what is left of the box names
      the same box. */
  predicate MistakenForItself(accounts: seq<Account>, folder: string, id: string, dest: Destinations)
    requires accounts != []
  {
    !NamesAccount(accounts, id) &&
    var s, c := FirstIndex(id, '/'), LastIndex(id, ':');
    s.Some? && s.value > 0 && AccountNamed(accounts, id[..s.value], 0) == Some(0) &&
    c.Some? && s.value < c.value && ResolveBox(Trim(id[s.value + 1..c.value]), accounts[0].mirrored, dest) == folder
  }

  /** The Primary's ids are unqualified, and its own name may be one of a box's
      segments. They read back exactly when the box can be told and the id is not
      mistaken: no account may be called what the id says, nor what its box's first
      segment says, the Primary no more than another unless the rest still names the
      box. */
  lemma {:induction false} PrimaryIdReadsBackIff(accounts: seq<Account>, folder: string, uid: nat, dest: Destinations)
    requires Printable(accounts, 0, folder, uid)
    ensures var id := MessageIdOn(accounts, 0, folder, uid);
            ResolveId(id, accounts, dest) == Some(Resolved(0, Placement(folder, uid)))
            <==> if Mistaken(accounts, id) then MistakenForItself(accounts, folder, id, dest)
                 else Tellable(folder, accounts[0].mirrored)
  {
    var id := FormatMessageId(folder, uid, accounts[0].mirrored);
    assert Trim(id) == id by {
      FormatIsTrim(folder, uid, accounts[0].mirrored);
      TrimsToItself(id);
    }
    if !Mistaken(accounts, id) {
      MessageIdReadsBackIff(folder, uid, accounts[0].mirrored, dest);
    } else if !NamesAccount(accounts, id) {
      OwnNameFirst(accounts, folder, uid, dest);
    }
  }

  lemma {:induction false} SegmentReads(accounts: seq<Account>, short: string, uid: nat, dest: Destinations)
    requires var v := short + ":" + Print(uid);
             accounts != [] && 1 <= uid <= MAX_UINT32 && Trim(v) == v && Mistaken(accounts, v) && !NamesAccount(accounts, v)
    ensures var v := short + ":" + Print(uid); var s := FirstIndex(v, '/').value;
            && 0 < s < |short| && AccountNamed(accounts, v[..s], 0).Some? && v[s + 1..|short|] == short[s + 1..]
            && var j := AccountNamed(accounts, v[..s], 0).value;
               ResolveId(v, accounts, dest) ==
                 Some(Resolved(j, Placement(ResolveBox(Trim(short[s + 1..]), accounts[j].mirrored, dest), uid)))
  {
    var v := short + ":" + Print(uid);
    SegmentsOf(short, uid);
    var s := FirstIndex(v, '/').value;
    SegmentNames(v, v[..s], v[s + 1..], accounts, dest);
    RestReads(short[s + 1..], uid, accounts[AccountNamed(accounts, v[..s], 0).value].mirrored, dest);
  }

  lemma {:induction false} OwnNameFirst(accounts: seq<Account>, folder: string, uid: nat, dest: Destinations)
    requires Printable(accounts, 0, folder, uid)
    requires var id := MessageIdOn(accounts, 0, folder, uid); Trim(id) == id && Mistaken(accounts, id) && !NamesAccount(accounts, id)
    ensures var id := MessageIdOn(accounts, 0, folder, uid);
            ResolveId(id, accounts, dest) == Some(Resolved(0, Placement(folder, uid))) <==> MistakenForItself(accounts, folder, id, dest)
  {
    if folder != INBOX {
      OwnSegmentIff(accounts, folder, ShortBox(folder, accounts[0].mirrored), uid, dest);
    }
  }

  lemma {:induction false} OwnSegmentIff(accounts: seq<Account>, folder: string, short: string, uid: nat, dest: Destinations)
    requires var v := short + ":" + Print(uid);
             accounts != [] && 1 <= uid <= MAX_UINT32 && Trim(v) == v && Mistaken(accounts, v) && !NamesAccount(accounts, v)
    ensures var v := short + ":" + Print(uid);
            ResolveId(v, accounts, dest) == Some(Resolved(0, Placement(folder, uid))) <==> MistakenForItself(accounts, folder, v, dest)
  {
    assert LastIndex(short + ":" + Print(uid), ':') == Some(|short|) by { SegmentsOf(short, uid); }
    SegmentReads(accounts, short, uid, dest);
  }

  lemma {:induction false} SegmentsOf(short: string, uid: nat)
    ensures var id := short + ":" + Print(uid); var s := FirstIndex(id, '/');
            && LastIndex(id, ':') == Some(|short|)
            && (s.Some? ==> && s.value < |short| && id[s.value + 1..] == short[s.value + 1..] + ":" + Print(uid)
                            && id[s.value + 1..|short|] == short[s.value + 1..])
  {
    DigitsEnd(short, uid);
    var id := short + ":" + Print(uid);
    assert forall k :: |short| < k < |id| ==> id[k] == Print(uid)[k - |short| - 1];
  }

  lemma {:induction false} LeftOf(rest: string, uid: string)
    ensures TrimLeft(rest + ":" + uid) == TrimLeft(rest) + ":" + uid
    ensures TrimLeft(TrimLeft(rest)) == TrimLeft(rest)
  {
    if rest != "" && IsSpace(rest[0]) {
      LeftOf(rest[1..], uid);
      assert (rest + ":" + uid)[1..] == rest[1..] + ":" + uid;
    } else {
      assert rest == "" ==> rest + ":" + uid == ":" + uid;
    }
  }

  /** A box's name may begin with a space once its first segment is off. */
  lemma {:induction false} RestReads(rest: string, uid: nat, known: seq<string>, dest: Destinations)
    requires 1 <= uid <= MAX_UINT32
    ensures ParseMessageId(rest + ":" + Print(uid), known, INBOX, dest) == Some(Placement(ResolveBox(Trim(rest), known, dest), uid))
  {
    var v, left := rest + ":" + Print(uid), TrimLeft(rest);
    LeftOf(rest, Print(uid));
    assert Trim(v) == left + ":" + Print(uid) by {
      DigitsEnd(left, uid);
      assert IsDigit((left + ":" + Print(uid))[|left + ":" + Print(uid)| - 1]);
    }
    DigitsEnd(left, uid);
    assert Trim(Print(uid)) == Print(uid) by { DigitsAlone(uid); }
    assert ParseUid(Print(uid)) == Some(uid) by { NumberOfPrint(uid); }
  }
}
