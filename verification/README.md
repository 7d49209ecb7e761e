# A verified model of the mailbox daemon's hard parts

The daemon keeps a local mirror of mail, calendars and accounts. A Microsoft 365
account has no IMAP behind it, only delta links; a store makes those look like
IMAP, and the reconciler believes what it says. The model follows the parts where
that belief, or a similar one, has to be earned, and proves what can be relied on
over every run. Where the code promises more than it keeps, the model keeps the
code's behaviour, gives an input on which the promise fails, and proves the exact
condition under which it holds.

How to read it: tables and values are datatypes, each operation is a function of
them (`GraphTables`, `CalendarTables`, `RuleTables`, `TreeTables`, `Accounts`), and
the code that changes things step by step is a class or a method proved equal to
that function (`GraphStore`, `CalendarSync`, `RuleProtocol`, `BubbleDaemon`,
`TreeBuilder`, `Reconcile`). The theorems are about the functions and about runs:
sequences of states, each the next one's predecessor. An SQLite transaction is one
step; a server is a state whose calls may fail, and an answer may be lost after the
call was carried out. `dafny verify dfyconfig.toml` takes in the whole project.

## What the parts are

- **The store as IMAP** (`GraphTables`, `GraphStore`, `DeltaMeaning`, `GraphHistory`,
  `PlainStore`, `StoreRecords`, `MailSync`, `MailRefinement`): uids, UIDVALIDITY and
  modseq as `internal/graphdrv/store.go` hands them out, the plan and the cycle of
  `internal/sync/mailsync`, and the two together over whole runs with deltas,
  resets, placements, drops, flag writes and moves in between.
- **Mail writes and reads over Graph** (`MailFlags`, `MailBatch`, `FetchBodies`):
  flags kept as categories, batches asked again while the server is busy, bodies
  fetched by four workers.
- **The Routing as inbox rules** (`RoutingLists`, `RoutingRoundTrip`, `RuleTables`,
  `RuleSync`, `RuleProtocol`, `RuleReading`, `RuleDelivery`): what was decided about
  senders, rendered to rules and read back; create all, then delete the old, with
  rollback; and where mail then lands.
- **Calendars** (`CalendarTables`, `CalendarSync`, `CalendarActs`, `CalendarMirror`,
  `CalendarContents`, `CalendarToken`, `SeriesIcal`): a delta folded into one change per
  href, what the mirror then holds, what a failed round and its retry leave behind, a
  repeating event rewritten as one object.
- **Repeating events** (`Recurrence`, `CivilCalendar`, `RuleMeaning`,
  `RecurrenceMeaning`, `MonthlyMeaning`, `YearlyMeaning`, `OccurrencesKept`): rules
  translated both ways, and the days a rule and a pattern denote on the Gregorian
  calendar, by section 3.3.10 of RFC 5545.
- **Two daemons, one mailbox** (`BubbleServer`, `BubbleReturn`, `BubbleDaemon`,
  `BubbleSetting`, `BubbleKeyword`, `BubbleClock`): due mail brought back by either of
  two daemons, and never early, whatever their mirrors hold and whichever of their
  calls fail or lose their answer.
- **HTML and Markdown** (`TreeTables`, `TreeBuilder`, `TreeRoundTrip`, `CodeSpans`,
  `EscapedText`, `MarkdownBlocks`, `MarkdownGrammar`).
- **Config, ids and cycles** (`Accounts`, `Reconcile`, `AccountFates`, `AccountTwins`,
  `MessageId`, `Cycles`).

## Where the code keeps less than it promises

Each of these is in the model as it is in the code, with the exact condition proved.

- A flag write over several uids that fails part way has already changed the store
  without moving its modseq, and the mirror never hears of it: the placement is
  stale through every later cycle (`MailRefinement.LostAcknowledgementIff`,
  `StalePlacementIsNeverRepaired`).
- A move into a folder whose delta already named the message places it in the
  mirror with the flags it had before, and nothing repairs that either
  (`MailRefinement.DestinationStaysCoherentIff`, `StaleCarryExample`).
- UIDVALIDITY and uids are 32 bits: after the last one they start again
  (`GraphHistory.ResetRaisesValidityIff`, `InsertKeepsSoundIff`).
- A delta applied twice is a no-op only when it says one thing about each message
  (`DeltaMeaning.ReplayIsNoOpIff`).
- A calendar round that fails after a removal has forgotten the object but not told
  the mirror; the retry no longer knows it, and the same holds of an object the failed
  round gave an href and the retry does not name (`CalendarMirror.RetryAgreesIff`,
  `RemovalIsLost`, `LostRemovalExample`). The comment at
  `internal/sync/davsync/davsync.go:239-243` says such a state cannot be constructed;
  the code is followed.
- An event that moves to another calendar and keeps its immutable id is put in the
  new calendar's mirror under the old one's href (`CalendarMirror.CalendarsAgreeIff`,
  `MovedEventExample`).
- Deleted instances of an all-day series, and of a timed one that began before its
  window, are still shown (`SeriesIcal.ShowsTheServersIff`). Away from UTC an exception
  of an all-day series is shown beside the instance it replaces
  (`SeriesIcal.AllDayExceptionIsShownTwice`).
- Reading a rule back says weeks start on Monday and drops every part the pattern has
  no place for: BYDAY, BYMONTH, BYMONTHDAY and BYSETPOS from a daily rule, the last
  three from a weekly one, BYMONTH and the day of the month or the position from a
  monthly one. When nothing is lost by it is said by
  `RecurrenceMeaning.DailyKeptIff`, `WeeklyKeptIff`,
  `MonthlyMeaning.AbsoluteMonthlyKeptIff`, `RelativeMonthlyKeptIff` and
  `YearlyMeaning.AbsoluteYearlyKeptIff`, and for every rule `RuleMeaning.OneCycleDecides`.
- UNTIL is widened to the whole of its day, and beside a COUNT it is forgotten
  (`OccurrencesKept.RangeKeptIff`).
- The return keyword is taken off before the MOVE: a thread left off in between, by a
  daemon that dies, a call that fails, or a later placement its mirror has lost, strands
  its mail unless the other daemon has it in hand (`BubbleReturn.LeavingOffStrandsIff`,
  `StoredAndLeftStrandsIff`). A thread re-timed after the scan is brought back all the
  same (`BubbleServer.ReturnStripsIff`).
- A line that is only digits, followed by a text starting with `.` or `)`, becomes a
  list item (`EscapedText.ListMarkerSlipsInIff`).
- An account kept because of its outbox is never looked at again while the file
  leaves it out, and added again it runs twice (`AccountFates.KeptAccountsStayKept`,
  `RunsOneOfEachIff`). Of account names that differ only in case the first running one
  is stopped, whichever was meant (`AccountFates.StopTakesItsOwnIff`,
  `AccountTwins.TwinsHaveTheirFatesIff`, `AccountFates.CaseTwinsExample`).
- A collection's colour changed for another in the file is neither applied nor a
  reason to restart (`AccountFates.ColoursFollowIff`).
- Setting a bubble on a mail that was bubbled elsewhere since the last cycle leaves it
  two return keywords (`BubbleServer.RetimeLeavesOneIff`).
- A message in a box whose name is a number, given as an attachment without an
  index, is taken for an attachment of an Inbox message
  (`MessageId.MessageIdAsAttachmentIff`).
- The Primary's ids carry no account, so one whose first part is another account's name
  is read as that account's, and one whose first part is the Primary's own name loses it
  (`MessageId.PrimaryIdReadsBackIff`).
- A batch whose answers leave a message out is sent again without end
  (`MailBatch.OverIff`, `LeftOutIsAskedForever`).
- A mail folder renamed on the server keeps its old name beside the new one, and a rule
  that files into it reads back under only one of them (`RuleTables.ReadsBackIff`).
- A rule for a domain takes every address the domain occurs in, so a sender at
  `x@example.com.evil.net` gets what was decided for `@example.com`
  (`RuleDelivery.MailLandsAsDecidedIff`). `docs/DESIGN.md:591-594` says the worst of it is
  mail skimmed in the wrong pile; where the domain is blocked the mail is deleted
  (`LookalikesAreBinned`, `LookalikeExample`).
- A domain that begins with white space other than a plain space or tab, which a
  decision may name, is read back without it (`RoutingRoundTrip.RulesReadBackIff`).
- Categories are written whole from what the store remembers, so one added on the
  server since is lost (`MailFlags.CategoryKeptIff`).

## Model

| member | source | states |
|---|---|---|
| `GraphStore.Store.constructor` | internal/graphdrv/store.go:58-75 | a new store knows no folder |
| `GraphStore.Store.SetFolder` | internal/graphdrv/store.go:111-120 | a folder known under the same Graph id is left alone, any other is reset |
| `GraphStore.Store.ResetFolder` | internal/graphdrv/store.go:126-145 | the folder starts empty at uid 1 and modseq 1 under the next UIDVALIDITY: the clock, or one more than the old one, 32 bits wide |
| `GraphStore.Store.ApplyDelta` | internal/graphdrv/store.go:158-208 | a delta and its link are applied whole or, when a uid is refused, not at all; what that means for the link over runs is `StoreRecords.LinkIsTheLastDeltas` |
| `GraphStore.Store.Report` | internal/graphdrv/store.go:168-199 | one item: removed, new under the next uid and modseq, changed flags under a new modseq, or only its categories rewritten |
| `GraphStore.Store.Status` | internal/graphdrv/store.go:210-226 | the UIDVALIDITY, UIDNEXT, modseq and count of a known folder keep what IMAP says of STATUS: as many messages are listed as counted, every uid lies below UIDNEXT, and nothing has changed since the modseq reported |
| `GraphStore.Store.SetFlags` | internal/graphdrv/store.go:277-281 | flags and categories are rewritten without touching any modseq |
| `GraphStore.Store.Place` | internal/graphdrv/store.go:285-307 | a message already in the folder keeps its uid and row; another gets the next uid and modseq |
| `GraphStore.Store.Drop` | internal/graphdrv/store.go:309-312 | the row of a uid goes |
| `DeltaMeaning.ItemPlain` | internal/graphdrv/store.go:168-199 | an item does to the plain map from Graph id to flags what it says, whatever uids and modseqs are handed out |
| `DeltaMeaning.DeltaMeans` | internal/graphdrv/store.go:158-208 | a delta does to the plain map what its items say in order |
| `DeltaMeaning.ItemCounters` | internal/graphdrv/store.go:168-199 | with a uid to spare an item succeeds, keeps the folder sound and moves the modseq exactly when it is news |
| `DeltaMeaning.DeltaCounters` | internal/graphdrv/store.go:158-208 | with uids enough a delta succeeds and the modseq counts its news |
| `DeltaMeaning.ReplayIsNoOpIff` | internal/graphdrv/store.go:158-208 | applying a delta a second time changes nothing exactly when it says one thing about each message |
| `PlainStore.NextMeans` | internal/graphdrv/store.go:111-312 | every step does to the plain maps from Graph id to flags what its caller means: a folder emptied, a delta told, a message added, flagged or removed |
| `PlainStore.StoreIsThePlainMap` | internal/graphdrv/store.go:111-312 | at every moment of every run the store holds exactly the plain maps those meanings lead to |
| `StoreRecords.RefusedIff` | internal/graphdrv/store.go:168-199 | a delta is refused exactly when a message new to the folder finds its uid taken |
| `StoreRecords.LinkIsTheLastDeltas` | internal/graphdrv/store.go:111-208 | over any run a folder goes on from the link of the last delta that went through since it was made, and from the beginning when none has; a refused delta and every other step leave it alone |
| `StoreRecords.EveryLinkHasASource` | internal/graphdrv/store.go:111-208 | a folder is known exactly when there is such a last word on it |
| `StoreRecords.FolderIsTheOneNamed` | internal/graphdrv/store.go:111-145 | a name stands for the Graph folder it was last made for |
| `StoreRecords.CategoriesAreTheLastWord` | internal/graphdrv/store.go:168-307 | the categories remembered of a message are those of the last delta, placement or write to say any |
| `GraphHistory.ResetRaisesValidityIff` | internal/graphdrv/store.go:126-145 | a reset raises the UIDVALIDITY of a known folder unless the old one was the last 32-bit value; then it starts again at nought |
| `GraphHistory.NewFolderGoesByTheClock` | internal/graphdrv/store.go:132-137 | a folder new to the store, as after the store is lost, gets the clock as its UIDVALIDITY, a higher one than it had from an earlier second |
| `GraphHistory.InsertKeepsSoundIff` | internal/graphdrv/store.go:283-307 | a placement keeps every uid below UIDNEXT exactly when it does not take the last 32-bit uid |
| `GraphHistory.NextGrows` | internal/graphdrv/store.go:111-312 | every step with room in the counters keeps the store sound and lets UIDVALIDITY, uids and modseq only grow |
| `GraphHistory.RunsStaySound` | internal/graphdrv/store.go:111-312 | at every moment of every run uids lie below UIDNEXT and modseqs at or below the folder's |
| `GraphHistory.OneMessagePerName` | internal/graphdrv/store.go:111-208 | section 2.3.1.1 of RFC 3501: over any run, clock going anywhere, a folder name, UIDVALIDITY and uid never come to name two Graph messages |
| `GraphHistory.GoneUidsStayGone` | internal/graphdrv/store.go:111-312 | a uid that has left a folder never returns under the same UIDVALIDITY |
| `MailSync.CountsRevealEveryExpunge` | internal/sync/mailsync/reconciler.go:240-365 | when nothing arrived and every uid of the folder is held, equal counts mean equal uid sets: no deletion hides behind a count |
| `MailSync.CycleCatchesUpIff` | internal/sync/mailsync/plan.go:44-87 | an incremental cycle leaves exactly the folder's uids and flags if and only if everything out of date has a modseq past the remembered one, and everything missing also a uid at or past the remembered UIDNEXT |
| `MailSync.CycleCatchesUp` | internal/sync/mailsync/reconciler.go:156-365 | from a coherent state one cycle, full or incremental, ends current and coherent, as long as the folder holds still while it runs |
| `MailSync.AnnouncedKeepsCoherent` | internal/sync/mailsync/reconciler.go:223-365 | a change announced by a higher UIDVALIDITY or modseq keeps the mirror able to catch up |
| `MailRefinement.DestinationStaysCoherentIff` | internal/sync/mailsync/write.go:89-126 | after a move the destination can still be caught up with exactly when the store had no row for the message there, or the flags carried over are the row's |
| `MailRefinement.LostAcknowledgementIff` | internal/graphdrv/mail.go:568-617 | a flag write the mirror never heard of leaves it able to catch up exactly when it changed nothing the mirror had not |
| `MailRefinement.FlagWriteKeepsCoherent` | internal/sync/mailsync/write.go:64-85 | an acknowledged flag write keeps every folder coherent |
| `MailRefinement.UnheardWriteKeepsCoherent` | internal/graphdrv/mail.go:568-617 | an unheard flag write that leaves nothing stale keeps every folder coherent |
| `MailRefinement.SourceStaysCoherent` | internal/sync/mailsync/write.go:89-126 | dropping the moved uid on both sides keeps the source coherent |
| `MailRefinement.MoveKeepsCoherent` | internal/graphdrv/mail.go:623-655 | a move that does not land on a row the store already has keeps every folder coherent |
| `MailRefinement.ServerSideKeepsCoherent` | internal/graphdrv/store.go:111-312 | every step of the store but a flag write that leaves a placement stale keeps every folder coherent |
| `MailRefinement.NextKeepsCoherent` | internal/sync/mailsync/reconciler.go:80-178 | one event of any kind keeps every folder coherent |
| `MailRefinement.RunsStayCoherent` | internal/sync/mailsync/reconciler.go:80-178 | coherence holds at every moment of every run from an empty store and mirror, of all events but flag writes and moves that leave a placement stale |
| `MailRefinement.EveryCycleEndsCurrent` | internal/sync/mailsync/reconciler.go:80-365 | the refinement: wherever such a run has got to, a cycle leaves the mirror equal to the store, uid for uid and flag for flag |
| `MailRefinement.StalePlacementIsNeverRepaired` | internal/graphdrv/mail.go:568-617 | over any run of deltas, cycles and writes a stale placement stays wrong until a write or a move touches it or the store holds something new there |
| `MailRefinement.OwnReportChangesNothing` | internal/graphdrv/store.go:168-199 | a delta that only repeats what the store holds leaves a row with its modseq as it was |
| `MailRefinement.StaleCarryExample` | internal/sync/mailsync/write.go:89-126 | a coherent store and mirror whose next move leaves a stale placement |
| `MailRefinement.LostAcknowledgementExample` | internal/graphdrv/mail.go:568-617 | an input on which the mirror stays unread for good |
| `MailFlags.MakePatch` | internal/graphdrv/mail.go:568-603 | the PATCH for a write: flags named, and the categories whole when they change |
| `MailFlags.WriteIsAStore` | internal/graphdrv/mail.go:212-234 | with current categories, a write adds the flags named, then removes, and changes no other |
| `MailFlags.FlagsAre` | internal/graphdrv/mail.go:209-234 | a message read, a draft or followed up has that flag, and of its categories those that can be spelled as keywords; no other |
| `MailFlags.CategoryKeptIff` | internal/graphdrv/mail.go:568-617 | a category on the server survives a write exactly when no word of the write changes the remembered categories, or the store knew it, or the write adds it |
| `MailFlags.NotSentIff` | internal/graphdrv/mail.go:568-603 | the categories are not sent exactly when the write takes off none of those remembered, and adds none but such as it takes off again |
| `MailBatch.Batch` | internal/graphdrv/mail.go:375-429 | rounds are sent until nothing is pending or an answer breaks it off |
| `MailBatch.TakeAnswers` | internal/graphdrv/mail.go:405-419 | one round's answers settle what they name |
| `MailBatch.FourRoundsAreEnough` | internal/graphdrv/mail.go:385-420 | a fourth round that answers for all it was asked ends it |
| `MailBatch.OverIff` | internal/graphdrv/mail.go:385-429 | the batch ends exactly when a round breaks it off or every message wanted has been answered for |
| `MailBatch.FailsIff` | internal/graphdrv/mail.go:405-419 | it fails exactly when an answer in a round it was sent is a refusal, or from the fourth round on says the server is busy |
| `MailBatch.LeftOutIsAskedForever` | internal/graphdrv/mail.go:385-429 | a message no answer names stays pending after any number of rounds |
| `MailBatch.EveryFoundMessageIsReturned` | internal/graphdrv/mail.go:372-429 | what is returned is every message found, with its first answer that was not busy, and no other |
| `FetchBodies.NeverMoreThanFour` | internal/graphdrv/mail.go:443-470 | in every interleaving of taking a token, starting, finishing and giving it back, at most four fetches are under way, three while the loop holds a token |
| `FetchBodies.CollectSlots` | internal/graphdrv/mail.go:471-481 | the slots are read in request order, the first error winning |
| `FetchBodies.WorkersAgreeWithOneByOne` | internal/graphdrv/mail.go:443-481 | whatever order the workers finish in, the result is the sequential loop's: request order, vanished messages skipped, lowest-index error |
| `RuleTables.DomainsRoundTrip` | internal/graphdrv/rules.go:75-116 | domains written as tests read back exactly when none is empty |
| `RuleTables.ReadsBackIff` | internal/graphdrv/rules.go:75-140 | a rule just written reads back as the decision exactly when the rules can carry it and its folder reads back under the name the decision gives |
| `RuleSync.RuleServer.Post` | internal/graphdrv/rules.go:204-225 | a create that is carried out, refused, or carried out with its answer lost |
| `RuleSync.RuleServer.Delete` | internal/graphdrv/rules.go:250-262 | a delete likewise; one already gone is fine |
| `RuleProtocol.BuildRules` | internal/graphdrv/rules.go:166-203 | every rule is resolved before anything is sent, numbered after the highest in use; what the rules then do to mail is `RuleDelivery.MailLandsAsAsked` |
| `RuleProtocol.DeleteRules` | internal/graphdrv/rules.go:250-262 | every id is tried; ok when each went or was gone, and every state on the way only thins our rules |
| `RuleProtocol.CreateRules` | internal/graphdrv/rules.go:204-225 | rules are created in order until one errs |
| `RuleProtocol.Install` | internal/graphdrv/rules.go:204-225 | all are created, or those that were are taken back and all old rules are still there |
| `RuleProtocol.Retire` | internal/graphdrv/rules.go:226-236 | the old rules go only once the new set is whole |
| `RuleProtocol.Replace` | internal/graphdrv/rules.go:204-236 | the calls of a write keep the promise whatever fails |
| `RuleProtocol.SetRules` | internal/graphdrv/rules.go:151-236 | at every state the server is seen in all old or all wanted rules are present and foreign rules untouched; success exactly when every call said so, and then foreign rules followed by the wanted list in order; a refused create with working rollback and no lost answer restores the original |
| `RuleProtocol.ForeignAreTheOthers` | internal/graphdrv/rules.go:239-247 | the rules left alone are those whose name does not begin with the program's |
| `RuleReading.WriteThenReadIff` | internal/graphdrv/rules.go:53-140 | reading after a write that went through gives the wanted list in order exactly when every rule carries our prefix, a decision rules can carry, and folders that read back under their names |
| `RuleReading.RerunMends` | internal/graphdrv/rules.go:151-236 | after failed deletes, a second write that goes through ends with the foreign rules of before the first and the wanted list |
| `RoutingLists.Lists.Set` | internal/routing/routing.go:206-230 | a decision recorded, taken back or refused, and whether it changed anything |
| `RoutingLists.AcceptedIff` | internal/routing/routing.go:298-318 | a decision is accepted exactly for a clean address or domain and one of the destinations |
| `RoutingLists.Lists.Rules` | internal/routing/rules.go:25-51 | for every destination its addresses, then for every one its domains, sorted, then the catch-all |
| `RoutingLists.RulesAreNamed` | internal/routing/rules.go:52-58 | each rule's name, which says whom it is about and is one of ours |
| `RoutingRoundTrip.RulesReadBackIff` | internal/routing/rules.go:25-89 | the Routing read out of its rules is the Routing exactly when no domain in it begins with white space |
| `RuleDelivery.MailLandsAsAsked` | internal/graphdrv/rules.go:151-236 | after a write that went through, mail lands as the first wanted rule about its sender says: Inbox unread, Paper Trail and Feed read, bin read, else Screener unread |
| `RuleDelivery.RuledAsDecidedIff` | internal/routing/routing.go:185-202 | the rules do as was decided about a sender exactly when no domain that only occurs in its address belongs to an earlier destination |
| `RuleDelivery.MailLandsAsDecidedIff` | docs/DESIGN.md:585-612 | so mail of a decided sender lands in its box, or in the bin, and is read exactly for Paper Trail, Feed and Block, under that condition and no other |
| `RuleDelivery.LookalikesAreBinned` | internal/graphdrv/rules.go:21-25 | every address a blocked domain occurs in is binned |
| `RuleDelivery.LookalikeExample` | internal/graphdrv/rules.go:21-25 | one that was never decided about |
| `CalendarTables.EachHrefOnce` | internal/graphdrv/dav.go:330-336 | no href is handed over twice |
| `CalendarSync.Gathered.Add` | internal/graphdrv/dav.go:330-336 | the last change of an href wins, in the place of its first |
| `CalendarSync.Gathered.Items` | internal/graphdrv/dav.go:380-384 | the gathered changes in order of first naming |
| `CalendarSync.Driver.EventHref` | internal/graphdrv/dav.go:390-401 | an event keeps its href, or gets one from its iCalUId or its id's hash, and the pair is remembered |
| `CalendarSync.Driver.SingleChange` | internal/graphdrv/dav.go:403-414 | the row is remembered even when the object cannot be written; what the mirror then holds is `CalendarContents.MirrorHoldsTheLastTelling` |
| `CalendarSync.Driver.Item` | internal/graphdrv/dav.go:337-369 | one item of the delta: forgotten, marked, remembered, read again or described |
| `CalendarSync.Driver.Series` | internal/graphdrv/dav.go:418-449 | a series read again; gone means forgotten |
| `CalendarSync.Driver.SyncCalendar` | internal/graphdrv/dav.go:309-385 | a round does to tables and changes what its items and then its marked series, each once in any order, do; an error hands nothing over but keeps the tables |
| `CalendarToken.TokenReadsBack` | internal/graphdrv/dav.go:218-248 | a token reads back with its window, its issue and its link, bars in the link included |
| `CalendarToken.OldTokenIsSpent` | internal/graphdrv/dav.go:226-244 | a token from before tokens were dated is spent |
| `CalendarToken.WindowsFollowTheClock` | internal/graphdrv/dav.go:309-325 | over any run of rounds under a clock that does not go back, no round goes by a token more than a day old or by a window that has fallen behind, and age is all that spends a token |
| `CalendarActs.RoundIsItsActs` | internal/graphdrv/dav.go:309-449 | a round does what the list of its drops and descriptions does, whatever order its series are read in |
| `CalendarActs.TablesAfter` | internal/graphdrv/dav.go:309-449 | after a round that says one thing of each id, failed or not, an href is in the tables exactly when it was told, or was known and not dropped |
| `CalendarActs.NamesIff` | internal/graphdrv/dav.go:330-384 | such a round hands over exactly the hrefs its items name |
| `CalendarMirror.OneChangePerHrefIsEnough` | internal/sync/davsync/davsync.go:297-325 | handing over the last change of each href leaves the mirror as every change in turn would have |
| `CalendarMirror.RoundAccounts` | internal/graphdrv/dav.go:309-385 | after a round every href is in the tables as its last change says, or as before |
| `CalendarMirror.AtHomeIff` | internal/graphdrv/dav.go:390-414 | all a round hands over is filed in its own calendar exactly when every id it drops or describes was unknown or filed there before |
| `CalendarMirror.CalendarsAgreeIff` | internal/graphdrv/dav.go:309-449 | a successful round keeps mirror and tables in agreement in every calendar exactly when none of the ids it is told of was filed in another before it |
| `CalendarMirror.MovedEventExample` | internal/graphdrv/dav.go:390-414 | an event known in another calendar breaks the agreement |
| `CalendarMirror.RetryAgreesIff` | internal/graphdrv/dav.go:338-377 | after a failed round the next successful one restores agreement exactly when it describes anew every href the failed one dropped and names every href it added |
| `CalendarMirror.RemovalIsLost` | internal/graphdrv/dav.go:338-377 | a removal a failed round had got to stays in the mirror after the retry, unless something else is given its href |
| `CalendarMirror.LostRemovalExample` | internal/graphdrv/dav.go:338-361 | a removal followed by an unreadable event leaves a ghost |
| `CalendarMirror.StartingOverAgreesIff` | internal/sync/davsync/davsync.go:297-325 | a round without a token leaves every mirrored object resolvable whatever was there before, and equal to the tables exactly when its items name all the tables knew |
| `CalendarMirror.CleanCycleResolves` | internal/sync/davsync/davsync.go:244-325 | a cycle whose round succeeds naming nothing filed elsewhere, or fails having dropped nothing mirrored, keeps every mirrored object resolvable |
| `CalendarMirror.FailedCycleResolvesIff` | internal/sync/davsync/davsync.go:244-260 | a failed one keeps them so exactly when it dropped none the mirror holds |
| `CalendarMirror.RunsStayResolved` | internal/sync/davsync/davsync.go:244-325 | over any run of clean cycles every mirrored object can still be changed, deleted and answered |
| `CalendarMirror.SeriesNamedIsRead` | internal/graphdrv/dav.go:339-352 | whatever a delta says of a series, also the bare removal of an occurrence known before or named earlier in the same delta, gets it read again |
| `CalendarContents.RoundMakesWhatItSays` | internal/graphdrv/dav.go:337-449 | which ids a round drops and which events it tells, from the delta and the server's answers |
| `CalendarContents.MirrorHoldsTheLastTelling` | internal/graphdrv/dav.go:403-449 | after a successful round the mirror's object of every event told that still has an href is its last change key and text |
| `CalendarContents.OtherRowsAreAsTheyWere` | internal/sync/davsync/davsync.go:297-325 | rows of events not told, and of other calendars, are as they were |
| `CalendarContents.LostRowsAreGone` | internal/sync/davsync/davsync.go:297-325 | and those whose href was lost are gone |
| `CalendarContents.EveryEventToldIsThere` | internal/graphdrv/dav.go:387-414 | every event told is found under the href it had, or its iCalUId, or the hash of its id; two of different names are two objects |
| `SeriesIcal.WriteSeries` | internal/graphdrv/ical.go:250-293 | the overrides written beside a master |
| `SeriesIcal.OverridesOf` | internal/vcal/vcal.go:270-295 | overrides by the start they replace, the later winning |
| `SeriesIcal.ExpandRule` | internal/vcal/vcal.go:230-246 | each start of the rule with its override applied |
| `SeriesIcal.Occurrences` | internal/vcal/vcal.go:182-261 | the list is exactly the instances that take up some instant of the window, each start once |
| `SeriesIcal.StartShown` | internal/graphdrv/ical.go:250-293 | start by start the object shows what the server lists, and besides exactly the ghosts |
| `SeriesIcal.ShowsTheServersIff` | internal/graphdrv/ical.go:250-293 | an object shows the server's instances exactly when no start is a ghost, dates read in UTC |
| `SeriesIcal.TimedSeriesAreExact` | internal/graphdrv/ical.go:245-293 | a timed series read one duration into its window is exactly the server's, moved instances included |
| `SeriesIcal.AllDayDeletionExample` | internal/graphdrv/ical.go:276-291 | a deleted all-day instance is shown |
| `SeriesIcal.AllDayExceptionIsShownTwice` | internal/vcal/vcal.go:404-428 | away from UTC an exception of an all-day series is shown and so is the instance it replaces |
| `Recurrence.WriteRule` | internal/graphdrv/ical.go:319-383 | the rule of a recurrence, part by part |
| `Recurrence.WritePattern` | internal/graphdrv/ical.go:323-367 | the parts its pattern gives |
| `Recurrence.ReadRecurrence` | internal/graphdrv/ical.go:393-464 | the recurrence of a rule, or the refusal of one Outlook has no words for |
| `Recurrence.RefusedIff` | internal/graphdrv/ical.go:397-455 | a rule is refused exactly for a part there is no field for, several days, months or positions, a frequency finer than a day, or weekdays without a word for which |
| `Recurrence.ReadDays` | internal/graphdrv/ical.go:407-414 | the days of a rule and the word of its last numbered one |
| `Recurrence.ReadsBackIff` | internal/graphdrv/ical.go:319-464 | a recurrence written and read again is itself exactly when it is as Outlook writes it, weeks from Monday |
| `RuleMeaning.DaysByName` | internal/graphdrv/ical.go:311-314 | a name of a pattern's days stands for the dates that are that weekday, counted from Thursday, 1 January 1970, case apart |
| `RuleMeaning.PositionsByName` | internal/graphdrv/ical.go:316 | and an index for the position it says; no other word is one |
| `RuleMeaning.OneCycleDecides` | internal/graphdrv/ical.go:393-464 | for every rule there is a pattern for: the pattern has its days for ever exactly when it has them for one cycle of the calendar, 400 years times the interval |
| `RecurrenceMeaning.DailyKeptIff` | internal/graphdrv/ical.go:397-427 | a daily rule keeps its days exactly when each part that is dropped lets every one of them through |
| `RecurrenceMeaning.WeeklyKeptIff` | internal/graphdrv/ical.go:397-434 | a weekly rule keeps its days exactly when no week is skipped or its days lie on one side of its week start with the first occurrence, and each part that is dropped lets every one of them through |
| `MonthlyMeaning.AbsoluteMonthlyKeptIff` | internal/graphdrv/ical.go:415-448 | a monthly rule by the day of the month keeps its days exactly when it does not count from the end and, with a BYMONTH, comes to no other month that can have the day |
| `MonthlyMeaning.RelativeMonthlyKeptIff` | internal/graphdrv/ical.go:407-446 | a monthly rule with one position among plain days, or one numbered day, keeps its days exactly when it has no BYMONTH or goes by whole years |
| `MonthlyMeaning.TwoDaysAMonthAreLost` | internal/graphdrv/ical.go:407-414 | a rule by weekdays that has two days in one month is never kept |
| `MonthlyMeaning.WeekdayOnADateIsLost` | internal/graphdrv/ical.go:393-446 | nor is one for a weekday and a date that cannot be its nth, as Friday the 13th read as the first Friday |
| `YearlyMeaning.AbsoluteYearlyKeptIff` | internal/graphdrv/ical.go:415-452 | a yearly rule on one date keeps its days exactly when it names no day of the month, or one of a month it names that is not counted from the end |
| `YearlyMeaning.RelativeYearlyKept` | internal/graphdrv/ical.go:407-450 | a yearly rule with one position or one numbered day keeps its days, of a named month or of the year |
| `OccurrencesKept.RangeKeptIff` | internal/graphdrv/ical.go:456-463 | when the days are kept the occurrences are, exactly if UNTIL leaves out none on its own day and, beside a COUNT, none at all |
| `OccurrencesKept.EndlessKeptIff` | internal/graphdrv/ical.go:456-463 | a rule without end keeps its occurrences exactly when it keeps its days |
| `OccurrencesKept.WrittenRuleKeeps` | internal/graphdrv/ical.go:319-383 | the rule written for a recurrence of Outlook's has exactly its occurrences, for every type of pattern and of range, at any time of day and offset |
| `BubbleServer.ReturnStripsIff` | internal/daemon/bubble.go:205-224 | the STORE of a return leaves no return keyword exactly when the server had none the mirror did not show |
| `BubbleServer.RetimeLeavesOneIff` | internal/daemon/bubble.go:147-171 | setting a bubble leaves a mail exactly the one return keyword when the server had none but it and the one the mirror showed |
| `BubbleReturn.NextKeepsTidy` | internal/daemon/bubble.go:292-327 | no daemon ever has an Inbox placement in hand |
| `BubbleReturn.InboxMailIsLeftAlone` | internal/daemon/bubble.go:195-239 | from the moment a mail is in the Inbox no daemon moves or re-flags it, in any interleaving: read mail is never made unread |
| `BubbleReturn.UidsAreUsedOnce` | internal/daemon/bubble.go:195-239 | a vacated uid stays vacant |
| `BubbleReturn.BubbledMailIsOnItsWay` | internal/daemon/bubble.go:195-327 | in every interleaving of two daemons whose mirrors hold anything, calls failing or answers lost, a bubbled mail left to them is where it was, or in the Inbox unread and marked returned; of its keywords exactly those the STOREs named are gone |
| `BubbleReturn.NamedKeywordStaysOff` | internal/daemon/bubble.go:209-229 | a return keyword once taken off never comes back |
| `BubbleReturn.BubbledMailComesBackOnce` | internal/daemon/bubble.go:195-327 | the first MOVE that finds it puts it in the Inbox, marked and unread, and no later STORE or MOVE of either daemon changes it |
| `BubbleReturn.OneMoveFindsIt` | internal/daemon/bubble.go:230-236 | no other MOVE of a run finds it: the second daemon has "no such uid" |
| `BubbleReturn.NoKeywordIsLeft` | internal/daemon/bubble.go:195-327 | when each mirror that holds the mail shows what the server has of return keywords, it comes back with none |
| `BubbleReturn.StrandedMailStays` | internal/daemon/bubble.go:292-327 | a mail without its keyword outside the Inbox is never brought back |
| `BubbleReturn.LeavingOffStrandsIff` | internal/daemon/bubble.go:209-236 | a thread left off after its STOREs, by dying, a failed call or a lost placement, strands a mail exactly when neither the server nor its own mirror has a return keyword on it any more and the other daemon is not aware of it |
| `BubbleReturn.StoredAndLeftStrandsIff` | internal/daemon/bubble.go:209-229 | leaving off right after a STORE does so exactly when that STORE named every return keyword the server had and the other daemon is not aware of the mail |
| `BubbleReturn.UnheardStoreIsTriedAgain` | internal/daemon/bubble.go:220-223 | a STORE carried out whose answer is lost strands nothing: the next scan may find the mail, and does once every time it shows has come |
| `BubbleReturn.AnsweredCallsAreMirrored` | internal/sync/mailsync/write.go:64-133 | a call that is answered leaves the mirror right wherever it was right, the uid a mail moved to included |
| `BubbleDaemon.Account.MarkAll` | internal/daemon/bubble.go:209-229 | the loop of STOREs, ended by a placement the mirror has lost or a call that fails; the mails before it are marked and perhaps the one it failed on, no other |
| `BubbleDaemon.Account.MoveAll` | internal/daemon/bubble.go:230-236 | the MOVE, of all the mails or, when it fails, of the first so many |
| `BubbleDaemon.Account.BringBack` | internal/daemon/bubble.go:205-239 | when it says so every mail of a thread is in the Inbox, marked, unread, labels kept, keyword gone if the mirror showed it; others untouched; whatever fails, no mail moves before all are marked |
| `BubbleSetting.DropKeywords` | internal/daemon/bubble.go:149-166 | the old keywords come off, each as the mirror showed it, until a call fails |
| `BubbleSetting.AddKeyword` | internal/daemon/bubble.go:167-171 | the new one goes on, on a server that keeps it, until a call fails |
| `BubbleSetting.SetBubble` | internal/daemon/bubble.go:132-193 | refused before anything is written when a placement is lost or there is no Aside box; otherwise, when it says so, every mail of the thread has its old keyword replaced and the Inbox ones are set aside; with a failed call or a server that keeps no keyword each is somewhere on that way; others untouched |
| `BubbleKeyword.KeywordReadsBack` | internal/bubble/bubble.go:38-57 | a keyword reads back as the minute it names |
| `BubbleKeyword.ProjectionKeepsOrder` | internal/bubble/bubble.go:30-36 | texts of the projected column compare as the moments do |
| `BubbleKeyword.DueByTextIsDue` | internal/mirror/bubble.go:36-56 | due by text comparison is due by the clock |
| `BubbleClock.OnlyDueMailIsTouched` | internal/daemon/bubble.go:292-327 | over any run every placement stored or moved was found by an earlier scan whose clock had come to a time its mirror showed there |
| `BubbleClock.NoMailComesEarly` | internal/daemon/bubble.go:286-327 | while every scan's clock stays before the times shown on a mail it is left where it is, as it is |
| `BubbleClock.MinutesKeepOrder` | internal/bubble/bubble.go:20-36 | moments counted in minutes through the calendar keep their order |
| `BubbleClock.TextScanIsAScan` | internal/mirror/bubble.go:25-60 | the scan by texts finds what a scan by minutes of the same flags may find |
| `TreeBuilder.Parser.HandleStartTag` | internal/htmlmd/htmlmd.go:106-132 | closes what the tag closes, appends to the top, opens unless void |
| `TreeBuilder.Parser.HandleEndTag` | internal/htmlmd/htmlmd.go:134-144 | closes to the innermost open element of that name, or does nothing |
| `TreeBuilder.Parser.AppendChild` | internal/htmlmd/htmlmd.go:146-149 | a new last child of the top |
| `TreeBuilder.Parser.Feed` | internal/htmlmd/htmlmd.go:68-89 | the tree and stack after all tokens |
| `TreeBuilder.StackIsTheRightEdge` | internal/htmlmd/htmlmd.go:57-155 | for every token stream the stack is the root-first prefix of the tree's rightmost path |
| `TreeBuilder.NothingLostOrMoved` | internal/htmlmd/htmlmd.go:57-155 | the pre-order of the tree is the order elements and texts came in |
| `TreeBuilder.TreesAreWellNested` | internal/htmlmd/htmlmd.go:27-39 | void elements stay empty and no element is in one its start tag closes |
| `TreeBuilder.ListsAndTablesNest` | internal/htmlmd/htmlmd.go:27-39 | no item, paragraph, cell, row or term is the child of one its start tag ends |
| `TreeBuilder.StartTagEndsOnly` | internal/htmlmd/htmlmd.go:106-132 | a start tag ends what it may on top, down to the first it may not, and nothing else |
| `TreeRoundTrip.ProperDocumentsComeBack` | internal/htmlmd/htmlmd.go:106-155 | a document nested as it should be is read back exactly |
| `CodeSpans.LongestRun` | internal/htmlmd/htmlmd.go:1202-1215 | the longest run |
| `CodeSpans.LongestIsLongest` | internal/htmlmd/htmlmd.go:1202-1215 | no stretch of backticks is longer |
| `CodeSpans.SpanReadsBack` | internal/htmlmd/htmlmd.go:1168-1200 | section 6.1 of CommonMark: every non-blank content is read back from its code span, and reading goes on after it |
| `CodeSpans.NormalKeeps` | internal/htmlmd/htmlmd.go:1168-1200 | every character that is neither a control nor a line ending is kept, in order |
| `CodeSpans.NormalOfOne` | internal/htmlmd/htmlmd.go:1168-1200 | a line ending is a space and any other control nothing |
| `CodeSpans.NormalOfBoth` | internal/htmlmd/htmlmd.go:1168-1200 | stretch by stretch, unless a line ending is cut in two |
| `CodeSpans.NoLineCloses` | internal/htmlmd/htmlmd.go:1185-1200 | section 4.5: no line of a code block closes its fence |
| `CodeSpans.BlockReadsBack` | internal/htmlmd/htmlmd.go:738-753 | a code block is read back line for line |
| `EscapedText.EscapeText` | internal/htmlmd/htmlmd.go:397-416 | the escaped text, character by character |
| `EscapedText.EscapedTextReadsBack` | internal/htmlmd/htmlmd.go:397-416 | section 2.4 of CommonMark: taking escapes off gives the text, and no inline metacharacter or ampersand is left bare |
| `EscapedText.NothingIsMeant` | internal/htmlmd/htmlmd.go:397-416 | no mark of code, emphasis, a link, HTML, a reference, a strikethrough or a cell is left bare |
| `EscapedText.ListMarkerSlipsInIff` | internal/htmlmd/htmlmd.go:479-496 | a line not yet a list item becomes one exactly when it is one to nine digits and the text starts with a dot or parenthesis |
| `EscapedText.FreshLineStartsNothing` | internal/htmlmd/htmlmd.go:405-410 | on a fresh line no text starts a block |
| `MarkdownBlocks.HeadingIff` | internal/htmlmd/htmlmd.go:198 | a heading is one to six hashes, a space and a title, and nothing else is |
| `MarkdownBlocks.NumberedIff` | internal/htmlmd/htmlmd.go:200 | a numbered item is digits, a full stop and a space |
| `MarkdownBlocks.MarkerIff` | internal/htmlmd/callout.go:47-65 | a callout's kind is what its first line names, case apart, alone or before white space |
| `MarkdownBlocks.LineIff` | internal/htmlmd/htmlmd.go:199-212 | fences, quotations and items by their first characters |
| `MarkdownBlocks.ReadBlocks` | internal/htmlmd/htmlmd.go:214-290 | the blocks of a text, quotations and callouts recursively |
| `MarkdownBlocks.ReadBlock` | internal/htmlmd/callout.go:67-105 | one block with what it holds; the text handed down is strictly smaller |
| `MarkdownGrammar.EveryLineIsInOneBlock` | internal/htmlmd/htmlmd.go:214-290 | every line that is not blank is in exactly one block |
| `MarkdownGrammar.BlocksAreAReading` | internal/htmlmd/htmlmd.go:214-290 | the blocks tile the text and each is as its kind has to be, recursively |
| `MarkdownGrammar.OneReading` | internal/htmlmd/htmlmd.go:214-290 | and there is no other such reading |
| `MarkdownGrammar.ParagraphsStartNothing` | internal/htmlmd/htmlmd.go:205-212 | no line of a paragraph starts a block |
| `Reconcile.Daemon.StopAccount` | internal/daemon/account.go:125-147 | the first account of that name, but for case, goes, and the answer says whether there was one |
| `Reconcile.Daemon.StartAccount` | internal/daemon/account.go:97-120 | an account joins the list |
| `Reconcile.Daemon.FindGraphChange` | internal/daemon/reconcile.go:179-192 | a Microsoft 365 account added, removed or changed, if there is one |
| `Reconcile.Daemon.RestartReason` | internal/daemon/reconcile.go:27-56 | a reason exactly when the files differ in something not applied in place |
| `Reconcile.Daemon.BringEach` | internal/daemon/reconcile.go:58-79 | the loop over the new file |
| `Reconcile.Daemon.DropEach` | internal/daemon/reconcile.go:81-118 | the loop over the old file |
| `Reconcile.Daemon.ApplySettings` | internal/daemon/reconcile.go:120-130 | collections, by the keys of their colours only, and defaults |
| `Reconcile.Daemon.Reconcile` | internal/daemon/reconcile.go:27-132 | with a restart nothing has changed; without, exactly the two loops and the settings, and what was in use of the old file is in use of the new, but for colours |
| `AccountFates.EveryAccountHasItsFate` | internal/daemon/reconcile.go:58-118 | a name's running accounts and problem, if no other name differs from it only in case, are decided by the two files, its own build and its own outbox |
| `AccountFates.RunsOneOfEachIff` | internal/daemon/reconcile.go:58-79 | such a name does not run twice exactly when it is not newly added while still running |
| `AccountFates.StopTakesItsOwnIff` | internal/daemon/account.go:125-147 | stopping a name leaves every other name as it was exactly when the first running account the name folds to bears that very name |
| `AccountTwins.TwinsHaveTheirFatesIff` | internal/daemon/reconcile.go:58-118 | a daemon that runs what its file says gives every one of the names that differ only in case its own fate exactly when those to be stopped were started before the rest of them |
| `AccountTwins.ProblemsAreTheirOwn` | internal/daemon/reconcile.go:58-118 | the problem shown for a name is its own, whatever other names there are |
| `AccountTwins.RunsTheNewFileIff` | internal/daemon/reconcile.go:27-132 | a daemon that ran the old file runs the new one exactly when no build and no outbox declined and, of every set of names alike but for case, those stopped stood first |
| `AccountFates.GraphAccountsAreLeftAlone` | internal/daemon/reconcile.go:42-47 | no Microsoft 365 account is rebuilt in place |
| `AccountFates.SameFileChangesNothing` | internal/daemon/reconcile.go:27-132 | the same file again does nothing and says nothing |
| `AccountFates.ExitIff` | internal/daemon/reconcile.go:27-56 | a reload goes without an exit exactly when every setting not applied in place, each by name, is as it was |
| `AccountFates.ReportIff` | internal/daemon/reconcile.go:58-132 | a reload says exactly what came up, failed, went or was kept, and which settings changed |
| `AccountFates.ColoursFollowIff` | internal/daemon/reconcile.go:120-125 | after a reload the colours in use are the file's exactly when they were, or the exclusions or the set of coloured collections changed |
| `AccountFates.KeptAccountsStayKept` | internal/daemon/reconcile.go:81-110 | a kept account whose name no other differs from only in case is untouched through every reload that leaves it out |
| `AccountFates.CaseTwinsExample` | internal/daemon/account.go:125-131 | editing one of two names that differ in case stops the other |
| `MessageId.WhatANameNames` | internal/daemon/id.go:159-186 | the Inbox by its own name, then a mirrored box outright, then one under the Inbox, then a word of the routing, and otherwise the name itself |
| `MessageId.WhatIsPrinted` | internal/daemon/id.go:189-213 | no box for the Inbox, the part after "INBOX/" where no other box is called that, and any other box in full |
| `MessageId.WhoseIdItIs` | internal/daemon/id.go:20-99 | the first account called what comes before the first slash, else the Primary; an account's name alone is no id |
| `MessageId.ShortNameReadsBack` | internal/daemon/id.go:164-203 | a printed box name resolves to its box |
| `MessageId.NamedOutrightWins` | internal/daemon/id.go:159-175 | a box named outright is never shadowed by an Inbox child |
| `MessageId.MessageIdReadsBackIff` | internal/daemon/id.go:140-213 | a printed id reads back exactly when its box is not another one called inbox |
| `MessageId.AttachmentIdReadsBackIff` | internal/daemon/id.go:119-138 | and so does an attachment's, index included |
| `MessageId.MessageIdAsAttachmentIff` | internal/daemon/id.go:125-138 | without an index, exactly when the box's printed name is not itself an id |
| `MessageId.YearBoxExample` | internal/daemon/id.go:125-138 | a box called 2024 |
| `MessageId.SecondaryIdReadsBackIff` | internal/daemon/id.go:82-117 | a secondary account's id reads back exactly when its box can be told and its name can be read off an id and is the first to fold to it |
| `MessageId.PrimaryIdReadsBackIff` | internal/daemon/id.go:20-112 | the Primary's unqualified id reads back exactly when its box can be told and no account is taken to be named in it, or the Primary itself is and what is left still means the box |
| `Cycles.Account.KickAccount` | internal/daemon/daemon.go:246-254 | a request is kept if none is, and the caller never waits |
| `Cycles.Account.Take` | internal/daemon/daemon.go:274-284 | the loop takes the request that is kept, with no cycle under way |
| `Cycles.EveryKickIsAnswered` | internal/daemon/daemon.go:240-290 | in every interleaving, once nothing is pending a cycle has begun after every request |
| `Cycles.CyclesAreAskedForAndApart` | internal/daemon/daemon.go:240-290 | never more cycles than requests, and one at a time |

## Left out

- HTTP, OAuth, JSON, SQLite, sockets and the clock: a transaction is one step, a
  server is a state whose calls may fail, times are parameters.
- The reconciler, the plan and the writers are modelled on values: the order of
  their transactions with each other is kept, the update in place of their rows is
  not. A cycle sees a folder that does not change while it runs, and envelopes carry
  the flags the store has.
- Message bodies, thread grouping and the identity by Message-ID in the mirror: a
  placement is a uid with its flags.
- modseq is unbounded; the code's is 64 bits wide.
- Every box is taken to be mirrored; a move to a box that is not would take the
  message out of the mirror.
- The order of rows a query returns; the id of a rule is a number.
- `sort.SliceStable` is specified as a stable insertion by sequence number.
- How Exchange runs inbox rules is not part of the repository: `RuleDelivery` has a rule
  act when the sender meets each kind of condition it has, a test on the sender look at
  the address alone, and compare without case. A rule of the Routing has one kind.
  Sieve, the same lists rendered to a script, is left out.
- Time zones: one fixed offset. A rule's text is taken apart by rrule-go, which is
  not part of this model; the model starts from its parts, and the frequencies finer
  than a day, which are refused, are one.
- A pattern's day of the month in a month that does not have it is taken to be skipped,
  as section 3.3.10 of RFC 5545 does in a rule; what Outlook does is not part of this
  model.
- `MonthlyMeaning.AbsoluteMonthlyKeptIff`: the first occurrence is one of the rule's, as
  section 3.8.5.3 of RFC 5545 asks, which leaves any other unspecified.
- `MonthlyMeaning.RelativeMonthlyKeptIff`: the same, and one position among plain days
  or one numbered day. A rule that numbers several weekdays, or has weekdays and a day
  of the month, is decided by `RuleMeaning.OneCycleDecides` alone: on which days the
  months of an interval begin, and so whether such a rule is kept, has no shorter form.
- `YearlyMeaning.AbsoluteYearlyKeptIff`: the same; a position among the twelve months of
  a rule that names none is decided by `RuleMeaning.OneCycleDecides`.
- `YearlyMeaning.RelativeYearlyKept`: the same as for monthly rules.
- iCalendar's text form, and every property of an event that does not decide when
  an instance is shown.
- Contacts, whose round is the calendar's without series.
- `CalendarMirror.CalendarsAgreeIff`: one round at a time; over runs the invariant
  proved is that every mirrored object resolves, because a full sweep may leave rows
  in the tables that the mirror no longer has.
- `CalendarMirror.RetryAgreesIff`: rounds that say one thing of each id, drop it or
  describe it, and the retry names nothing filed in another calendar.
- `CalendarMirror.StartingOverAgreesIff`: such rounds too.
- `CalendarMirror.FailedCycleResolvesIff`: such rounds too.
- `SeriesIcal.ShowsTheServersIff`: an all-day series is read in UTC; elsewhere a date is
  read at local midnight, and `SeriesIcal.AllDayExceptionIsShownTwice` is what is proved.
- `AccountFates.EveryAccountHasItsFate`: a name without another that differs only in
  case; `AccountTwins` has the rest for a daemon that runs what its file says.
- Case is ASCII case. `terminal.SanitizeText` is any function; `EscapedText` starts
  from the text it leaves.
- `mdInline`, the regex clean-up of `cleanMarkdown`, hidden elements, trackers,
  tables and the walk of a tree into Markdown: heuristics without an inverse. A
  block's HTML is left out; its lines are what is kept.
- The Go HTML tokenizer: the tree builder starts from tokens.
- `bubbleWhen`, the no-reply reminder and the listing of bubbled threads. In the
  interleavings the owner's own flag changes, moves, deletions and deliveries are steps
  of any kind.
- `reclaimPiled`, which selects placements by box and keyword, and the goroutines an
  account starts.
- Logging, `Forget` after a removal, and the wording of problems and changes.
- The Qt client, themes, command-line printers, systemd units and setup.
