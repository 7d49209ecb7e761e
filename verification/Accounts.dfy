/** The config file, the accounts a daemon is running, and what applying one
    config over another does to them, account by account. */
module Accounts {
  import opened Basics
  import opened Text

  datatype Account = Account(email: string, server: string, password: string, color: string, graph: bool)

  /** The Primary's block of the file. */
  datatype Primary = Primary(email: string, imapServer: string, smtp: string, dav: string, sieve: string,
                             password: string, davPassword: string, watch: seq<string>, sentBox: string,
                             displayName: string, noDav: bool, color: string,
                             taskList: string, addressBook: string)

  /** other is every part of the file not named here. */
  datatype Config = Config(account: Primary, secondary: map<string, Account>, calDav: map<string, string>,
                           exclude: seq<string>, colors: map<string, string>, other: string)

  datatype Running = Running(name: string, config: Account)

  datatype Problem = BuildFailed | Unchecked | InOutbox(mails: nat)

  /** What becomes of the outbox of a removed account: how many mails it holds, or
      None when it could not be asked. */
  datatype World = World(build: (string, Account) -> bool, inFlight: string -> Option<nat>)

  datatype State = State(others: seq<Running>, problems: map<string, Problem>)

  datatype Change = Up(name: string) | Failed(name: string) | Kept(name: string) | Gone(name: string)
                  | CollectionsChanged | DefaultsChanged

  // ---------- when the daemon has to exit ----------

  function PrimaryDiffers(was: Primary, now: Primary): string {
    if was.email != now.email then "the primary account's address changed"
    else if was.imapServer != now.imapServer then "the primary account's imap server changed"
    else if was.smtp != now.smtp then "the primary account's smtp server changed"
    else if was.dav != now.dav then "the primary account's dav server changed"
    else if was.sieve != now.sieve then "the primary account's sieve server changed"
    else if was.password != now.password || was.davPassword != now.davPassword then "the primary account's password changed"
    else if was.watch != now.watch then "the watched boxes changed"
    else if was.sentBox != now.sentBox then "the sent box changed"
    else if was.displayName != now.displayName then "the display name changed"
    else if was.noDav != now.noDav then "no_dav changed"
    else ""
  }

  /** The config less what is applied without an exit. */
  function NotInPlace(c: Config): Config {
    c.(secondary := map[], exclude := [], colors := map[], account := c.account.(taskList := "", addressBook := ""))
  }

  /** A Microsoft 365 account was added, removed or changed under this name. */
  predicate GraphChangedAt(was: map<string, Account>, now: map<string, Account>, name: string) {
    && ((name in was && was[name].graph) || (name in now && now[name].graph))
    && !(name in was && name in now && was[name] == now[name])
  }

  predicate GraphChanged(was: map<string, Account>, now: map<string, Account>) {
    exists name :: name in was.Keys + now.Keys && GraphChangedAt(was, now, name)
  }

  predicate NeedsRestart(was: Config, now: Config) {
    NotInPlace(was) != NotInPlace(now) || GraphChanged(was.secondary, now.secondary)
  }

  // ---------- the list of running accounts ----------

  /** StopAccount takes the first account of that name off the list. */
  function Stop(others: seq<Running>, name: string): seq<Running> {
    if others == [] then []
    else if SameFold(others[0].name, name) then others[1..]
    else [others[0]] + Stop(others[1..], name)
  }

  function SetProblem(problems: map<string, Problem>, name: string, p: Option<Problem>): map<string, Problem> {
    if p.Some? then problems[name := p.value] else problems - {name}
  }

  /** One account of the new config. */
  function Bring(s: State, was: map<string, Account>, name: string, account: Account, w: World): State {
    if name in was && was[name] == account then s
    else
      var others := if name in was then Stop(s.others, name) else s.others;
      if w.build(name, account) then State(others + [Running(name, account)], SetProblem(s.problems, name, None))
      else State(others, SetProblem(s.problems, name, Some(BuildFailed)))
  }

  function BringAll(s: State, was: map<string, Account>, now: map<string, Account>, names: seq<string>, w: World): State
    requires forall n :: n in names ==> n in now
  {
    if names == [] then s
    else
      var last := names[|names| - 1];
      Bring(BringAll(s, was, now, names[..|names| - 1], w), was, last, now[last], w)
  }

  /** One account of the old config that the new one has not. */
  function Drop(s: State, name: string, w: World): State {
    match w.inFlight(name)
    case None => s.(problems := SetProblem(s.problems, name, Some(Unchecked)))
    case Some(n) =>
      if n > 0 then s.(problems := SetProblem(s.problems, name, Some(InOutbox(n))))
      else State(Stop(s.others, name), SetProblem(s.problems, name, None))
  }

  function DropAll(s: State, now: map<string, Account>, names: seq<string>, w: World): State {
    if names == [] then s
    else
      var last := names[|names| - 1];
      var before := DropAll(s, now, names[..|names| - 1], w);
      if last in now then before else Drop(before, last, w)
  }

  /** What the loop over the new config reports, and the loop over the old one. */
  function Brought(was: map<string, Account>, now: map<string, Account>, names: seq<string>, w: World): seq<Change>
    requires forall n :: n in names ==> n in now
  {
    if names == [] then []
    else
      var n := names[|names| - 1];
      var before := Brought(was, now, names[..|names| - 1], w);
      if n in was && was[n] == now[n] then before
      else before + [if w.build(n, now[n]) then Up(n) else Failed(n)]
  }

  function Dropped(now: map<string, Account>, names: seq<string>, w: World): seq<Change> {
    if names == [] then []
    else
      var n := names[|names| - 1];
      var before := Dropped(now, names[..|names| - 1], w);
      if n in now then before else before + [if w.inFlight(n) == Some(0) then Gone(n) else Kept(n)]
  }

  function Settings(was: Config, now: Config, dav: bool): seq<Change> {
    (if dav && (was.exclude != now.exclude || was.colors.Keys != now.colors.Keys) then [CollectionsChanged] else []) +
    (if was.account.taskList != now.account.taskList || was.account.addressBook != now.account.addressBook
     then [DefaultsChanged] else [])
  }
}
