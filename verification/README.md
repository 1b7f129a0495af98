# Verified model of the send scheduler, the sync leases and the mail plumbing

This Dafny project models four parts of the system and proves what they
guarantee, and where a guarantee stops.

- **The send scheduler** (`rust-email-sender/src/scheduler.rs`).  `redistribute`
  and `distribute_leads` split counts over mailboxes with limited room,
  `calc_spacing` lays the sends of a day on a time line, `calc_daily_plan` splits
  a daily cap.  Modules `EvenSplit`, `Redistribute`, `Distribute`, `Spacing`,
  `DailyPlan`.
- **The mailbox sync lease and the lead merge** (`shared/lib/mysql.ts`).  `Leases`
  has the table with its statements as methods, `LeaseProtocol` lets any number
  of workers run them step by step under row locks, with crashes, stale recovery
  and API upserts in between.  `LeadMerge` is the merge of recovered leads,
  `ColumnNames` the camel-case and snake-case maps.
- **Template substitution** (`shared/lib/template-variables.ts`).  Module
  `Templates`.
- **The IMAP mailbox monitor** (`rust-imap-worker/src/mailbox_monitor.rs`).
  `FetchParser` is the line-driven parser, `UidMonitor` the UID tracking over
  sessions, `SelectResponse` the reading of UIDVALIDITY and UIDNEXT in
  `rust-imap-worker/src/imap_client.rs`.

Loops and in-place updates of the source are methods here, proved equal to
functions; the properties are lemmas about those functions.  Where the source
walks a hash map or an object, the order is an input and the results are proved
for every order.  `Common`, `Text` and `Mailboxes` hold shared definitions.

## What the proofs say about the code

- One `redistribute` call may leave sends that would have fitted.  Feeding the
  carry back reaches the best possible result in at most as many calls as there
  are mailboxes with room; one call is enough exactly when no even share exceeds
  the room it meets.
- `distribute_leads` does not update `sent_today` between domains.  The daily
  caps hold for every number of leads exactly when no mailbox with room is a
  candidate of two requested domains.
- `calc_spacing` keeps the minimum gap, after rounding, exactly for gaps up to
  120 minutes.  The first minute of the day gets a send exactly when the gap is at
  most 100 minutes plus the start minute, or an initial is rushed out in the
  deadline window; the 100 comes from the start value of the last-sent times.  When
  the interval clears the gaps (`Spacing.Steady`), the whole schedule has a closed
  form, which starts one step later when the first send is lost.
- The class budgets of `calc_daily_plan` alone keep the daily cap for a set of
  percentages exactly when all of them give the same warm-up budget; the total
  remainder keeps it always.
- The lease gives at most one live holder as long as nobody clears the busy mark
  under a live holder, and every step that clears it is safe exactly when there is
  none.  The activate and sync routes
  (`services/api-gateway/src/routes/lead-recovery-routes.ts:157-164` and `:199-208`)
  clear it without looking for a holder, and then the next claim is a second one.
  Stale recovery (`services/lead-recovery-worker/src/worker.ts:90-104`) goes by the
  age of the row.  If it looked at the row as it writes, no run would have two
  holders exactly when no sync leaves its row unwritten for more than 15 minutes; but
  it reads a list first and writes without looking again, and then two workers that
  have seen the row of a dead one can both hold the mailbox, however short the syncs.
  A mailbox whose holder died stays unclaimable until somebody clears the mark, and
  clearing it then is enough.
- A mailbox is claimed at most as often as syncs are asked for, exactly when what
  clears its busy mark from outside asks for a sync itself.
- The chain of replacements means one simultaneous substitution on every text, for
  values without `$` patterns, when no value completes the placeholder of a later
  variable; without opening braces in the values that follow it is an if-and-only-if.
  An empty value always completes one, so it fails for every lead without a city, an
  industry, a niche or a website; on templates whose opening braces all belong to
  placeholders it holds all the same.
- A comment at `rust-imap-worker/src/mailbox_monitor.rs:507-508` says that folded
  headers are handled.  The lines are trimmed first, so that branch is never
  reached: a continuation line is read like any other line, and dropped or taken for
  a header of its own.  The model follows the code.
- The parser looks for a UID before anything else, in header lines too: a line adds
  its header to the message exactly when it announces no UID, and a header value such
  as `UID 7 x` starts a message of its own.
- A push that is handled after the mailbox was removed publishes nothing twice,
  whatever it lists, exactly when nothing was published on its connection before.
- A number in a SELECT response is read only when a blank follows it.  With the
  usual closing bracket UIDVALIDITY reads as zero, a zero resets the tracking in
  every session, and reconnects publish old messages again; with any other number
  they do not.

## Model

| member | source | states |
|---|---|---|
| EvenSplit.SharesAreEven | rust-email-sender/src/scheduler.rs:219-228 | the even shares add up to the total and differ by at most one |
| EvenSplit.SplitIsExactIffSharesFit | rust-email-sender/src/scheduler.rs:347-363 | the cut shares never exceed the total or the capacities, and reach the total exactly when every share fits |
| Redistribute.Redistribute | rust-email-sender/src/scheduler.rs:319-380 | the loop with its running clamp returns the response defined without that clamp, on every path |
| Redistribute.NothingMovesIff | rust-email-sender/src/scheduler.rs:324-336 | nothing is assigned exactly for a follow-up, for nothing to move, or when every mailbox has reached its cap; a follow-up request is carried over whole |
| Redistribute.EveryMailboxGets | rust-email-sender/src/scheduler.rs:338-374 | each mailbox gets an even part of what fits, one more for the first ones with room in request order, cut to its room |
| Redistribute.OutcomeConserves | rust-email-sender/src/scheduler.rs:338-379 | assigned plus carried over is the request, and no mailbox gets more than its spare capacity |
| Redistribute.CallKeepsExcess | rust-email-sender/src/scheduler.rs:319-380 | after a call booked by its caller, every mailbox has lost exactly what it was assigned and the excess of demand over room is unchanged |
| Redistribute.UnfinishedCallFillsAMailbox | rust-email-sender/src/scheduler.rs:360-374 | a call that leaves more than the excess fills some mailbox completely |
| Redistribute.RoundsConverge | rust-email-sender/src/scheduler.rs:319-380 | with distinct ids, repeated calls reach max(0, total − total capacity) within as many calls as there are mailboxes with room |
| Redistribute.OneCallSufficesIff | rust-email-sender/src/scheduler.rs:338-374 | one call is optimal exactly when no even share is larger than the room it falls to |
| Redistribute.OneCallMayNotSuffice | rust-email-sender/src/scheduler.rs:338-374 | a request that fits and whose first call still carries over |
| Distribute.OwnDomainIsMatchedIff | rust-email-sender/src/scheduler.rs:181-196 | a mailbox can be matched by its own domain exactly when that is stored in lower case, is not empty and does not go by the provider |
| Distribute.DomainCaseIsIgnored | rust-email-sender/src/scheduler.rs:179-205 | spellings of a recipient domain that differ in case have the same candidates |
| Distribute.UpperCaseDomainsAreIgnored | rust-email-sender/src/scheduler.rs:181-198 | when every stored domain has an upper-case letter, every mailbox is a candidate of every domain outside the provider lists |
| Distribute.CandidateMembers | rust-email-sender/src/scheduler.rs:181-205 | candidates are the matching mailboxes or all when none match, so they are never missing in a non-empty request |
| Distribute.OpenHasRoom | rust-email-sender/src/scheduler.rs:205-217 | the test on the total capacity never decides anything |
| Distribute.SpreadDomain | rust-email-sender/src/scheduler.rs:219-242 | the inner loop, with its summed shortfall, gives the part of one domain |
| Distribute.DistributeLeads | rust-email-sender/src/scheduler.rs:164-250 | the nested loops give the answer for the order in which the map yields its domains |
| Distribute.GmailLeadsAreSpread | rust-email-sender/src/scheduler.rs:185-242 | leads of gmail.com and googlemail.com go, under the domain as written, to mailboxes of provider gmail with room, in even parts in request order; to all with room when there is no such mailbox |
| Distribute.OutlookLeadsAreSpread | rust-email-sender/src/scheduler.rs:187-242 | the same for outlook.com, hotmail.com, live.com and msn.com and provider outlook |
| Distribute.OtherLeadsAreSpread | rust-email-sender/src/scheduler.rs:191-242 | the same for every other domain and the mailboxes with exactly that domain in lower case |
| Distribute.AssignmentsAreOfLeads | rust-email-sender/src/scheduler.rs:228-234 | every assignment is of a requested domain and hands something out |
| Distribute.DomainConserves | rust-email-sender/src/scheduler.rs:219-242 | per domain, handed out plus unassigned is the count, and unassigned is the sum of the overshoots over capacity |
| Distribute.AnswerConserves | rust-email-sender/src/scheduler.rs:164-250 | over the request no lead is lost, and the exhausted flag means that some domain found no room |
| Distribute.AnswerIsOrderIndependent | rust-email-sender/src/scheduler.rs:178-249 | any two map orders give the same assignments up to order, the same unassigned count and the same flag |
| Distribute.ReceivedBound | rust-email-sender/src/scheduler.rs:178-243 | a mailbox gets at most its room times the number of domains that have it as a candidate |
| Distribute.CapsHoldForAllCountsIff | rust-email-sender/src/scheduler.rs:178-243 | the daily caps hold for all lead counts exactly when no mailbox with room is a candidate of two domains |
| Spacing.CalcSpacing | rust-email-sender/src/scheduler.rs:252-317 | the loop over minutes, which ends, emits the schedule defined step by step |
| Spacing.EveryStepIs | rust-email-sender/src/scheduler.rs:279-314 | for every request and every step in the hours: each class goes out exactly when the counts of the entries before it, the minutes of the last entry and the last warm-up, and the deadline window say so |
| Spacing.IdleStepHasReason | rust-email-sender/src/scheduler.rs:279-314 | a step without a send has a reason for each class: none left, or a gap not yet passed |
| Spacing.TimeLineIs | rust-email-sender/src/scheduler.rs:258-266 | the minute starts at the start hour and grows by an interval of at most two hours that is the even interval, the minimum gap, or the cap |
| Spacing.ScheduleListsEntries | rust-email-sender/src/scheduler.rs:252-316 | the answer lists the entries in order with the nearest whole minutes, and is empty without sends or hours |
| Spacing.RunInOrder | rust-email-sender/src/scheduler.rs:279-314 | emitted steps increase inside the active hours and no class is sent more often than asked |
| Spacing.ScheduleIsOrderly | rust-email-sender/src/scheduler.rs:258-316 | for every request: minutes in the active hours and non-decreasing, initials before follow-ups, warm-ups max(gap, 10) apart after rounding |
| Spacing.GapKeptIff | rust-email-sender/src/scheduler.rs:261-313 | all requests with a minimum gap keep it after rounding, deadline branch included, exactly when the gap is at most 120 |
| Spacing.FirstSendIff | rust-email-sender/src/scheduler.rs:273-304 | for every plannable request: the first minute gets a send exactly when the gap is at most 100 minutes plus the start minute, or an initial is there and the hours are at most twice the gap |
| Spacing.SteadyScheduleIs | rust-email-sender/src/scheduler.rs:261-316 | a steady request gets min(total, ceil(active / interval) − lost) slots, each with the minute and class of a closed form; `lost` is one when the first minute gets no send |
| Spacing.SteadySchedulesAllIff | rust-email-sender/src/scheduler.rs:261-316 | a steady request gets all its sends exactly when the last one starts inside the active hours |
| Spacing.RoomForAllSchedulesAllIff | rust-email-sender/src/scheduler.rs:261-316 | for a steady request whose even interval is at least the minimum gap, every class gets all it asked for exactly when the first minute is used or the even interval is above two hours |
| Common.RoundIsNearest | rust-email-sender/src/scheduler.rs:120 | rounding gives the nearest whole number, of two the one away from zero |
| DailyPlan.WarmupBudgetIs | rust-email-sender/src/scheduler.rs:120-121 | the warm-up budget is the nearest whole number to its percentage of the cap, at least one and at most the cap |
| DailyPlan.CalcDailyPlan | rust-email-sender/src/scheduler.rs:119-162 | budgets share out the cap, the freed-warm-up branch never fires, and the total left is strictly below the remainders exactly when one class is overspent while the other has room |
| DailyPlan.ClassBudgetsKeepTheCap | rust-email-sender/src/scheduler.rs:119-162 | replanning before every send and sending within the class keeps both budgets and the daily cap, while the warm-up budget stays the same |
| DailyPlan.ClassBudgetsKeepTheCapIff | rust-email-sender/src/scheduler.rs:119-162 | over all days with percentages of a set, sending within the class keeps the cap exactly when all of them give the same warm-up budget |
| DailyPlan.TotalKeepsTheCap | rust-email-sender/src/scheduler.rs:159 | checking the total remainder keeps the cap for any sequence of percentages |
| DailyPlan.ChangedPercentageBreaksTheCap | rust-email-sender/src/scheduler.rs:120-135 | so a cap of two is exceeded on a day with 100 and 50 percent |
| LeaseProtocol.StepKeepsInv | shared/lib/mysql.ts:391-469 | every step of every worker keeps locks, tested rows, busy marks and exclusivity in order |
| LeaseProtocol.AtMostOneHolder | shared/lib/mysql.ts:391-469 | in every interleaving where the busy mark is cleared from outside only after the holder is gone, a mailbox has at most one live holder |
| LeaseProtocol.ClearingIsSafeIff | shared/lib/mysql.ts:835-846 | any step that clears the busy mark from outside keeps exclusivity in all safe continuations exactly when the mailbox has no live holder |
| LeaseProtocol.RoutesAreSafeIff | services/api-gateway/src/routes/lead-recovery-routes.ts:157-208 | so for the sync route, the activate route and stale recovery |
| LeaseProtocol.StepKeepsPending | shared/lib/mysql.ts:391-469 | every safe step keeps the request of a live holder open |
| LeaseProtocol.NextClaimIsSecond | services/api-gateway/src/routes/lead-recovery-routes.ts:157-208 | under a live holder, after either route or after recovery of an active row, the next claim makes a second holder without any new request |
| LeaseProtocol.TimedLeaseIff | services/lead-recovery-worker/src/worker.ts:90-104 | with recovery looking at the row as it writes, no run has two live holders exactly when no holder leaves its row unwritten for longer than the cutoff |
| LeaseProtocol.EarlyLookBreaksLease | services/lead-recovery-worker/src/worker.ts:90-104 | with recovery writing rows that it saw stale earlier, there is a run with two live holders under every bound on the syncs |
| LeaseProtocol.OrphanStaysOrphan | shared/lib/mysql.ts:401-409 | while nobody clears the mark of a dead holder, no worker gets the mailbox again, whatever is requested |
| LeaseProtocol.RecoveryFreesOrphan | shared/lib/mysql.ts:835-846 | after stale recovery any waiting worker can claim the request the dead holder left behind |
| LeaseProtocol.StepIsAtomic | shared/lib/mysql.ts:399-429 | each step under the row lock is an enabled step of a machine whose claims are atomic, the commit being the claim |
| LeaseProtocol.RunsAreAtomic | shared/lib/mysql.ts:391-469 | the visible images of the steps of any run form a run of the atomic machine, with the same claims of every mailbox |
| LeaseProtocol.ClaimsNeedRequests | shared/lib/mysql.ts:401-409 | while the mark is cleared only together with a request, a mailbox is claimed at most as often as a sync was asked for |
| LeaseProtocol.ClaimsNeedRequestsIff | shared/lib/mysql.ts:401-409 | for any way to clear the mark from outside: all runs keep that bound exactly when it is an upsert that asks for a sync |
| LeaseProtocol.EndedSyncNeedsRequest | shared/lib/mysql.ts:439-469 | after a sync is completed or failed the mailbox is neither pending nor claimed, in any run, before a later request |
| LeaseProtocol.FailedSyncCoolsDown | shared/lib/mysql.ts:454-469 | after a failed sync nobody claims the mailbox for an hour, unless an upsert clears the time stamp or recovery replaces it |
| LeaseProtocol.ClaimGoesThroughIff | shared/lib/mysql.ts:401-415 | an undisturbed claim goes through exactly when the row is there, active, not busy, requested since the last sync and not cooling down |
| LeaseProtocol.InactiveIsNotClaimed | shared/lib/mysql.ts:401-409 | in every run a mailbox that is missing or switched off is never claimed before an upsert switches it on |
| LeaseProtocol.RoutesOpenIff | services/api-gateway/src/routes/lead-recovery-routes.ts:157-208 | which mailboxes the sync route and the activate route open to a claim, and the status and message they leave |
| LeaseProtocol.WorkerRecoversIff | services/lead-recovery-worker/src/worker.ts:90-104 | which rows count as stale, column by column, and that a recovered one can be claimed |
| LeaseProtocol.EndedSyncReopensIff | shared/lib/mysql.ts:439-469 | after a completed sync the next request opens an active mailbox at once, after a failed one only an hour later |
| LeaseProtocol.OutcomeIsStored | shared/lib/mysql.ts:439-469 | in every run the stored status and message tell a success from a failure until the next upsert or recovery |
| LeaseProtocol.UndisturbedClaimIsClaim | shared/lib/mysql.ts:391-437 | a claim transaction that nobody disturbs leaves the rows of the claim that runs alone, and holds the mailbox exactly when that returns a row |
| LeadMerge.MergeMessageIds | shared/lib/mysql.ts:620-626 | the loop over ids gives the merged list |
| LeadMerge.MergedIdsAre | shared/lib/mysql.ts:620-626 | the old list is a prefix, the ids are the union, duplicates never appear |
| LeadMerge.MergeObjections | shared/lib/mysql.ts:627-635 | the loop with its set of seen rules gives the merged list |
| LeadMerge.MergedObjectionsAre | shared/lib/mysql.ts:627-635 | the old objections are a prefix and rules stay unique |
| LeadMerge.FirstObjectionWins | shared/lib/mysql.ts:627-635 | for every rule the stored objection is the first one offered |
| LeadMerge.RecoveredLeads.UpsertRecoveredLead | shared/lib/mysql.ts:607-656 | one upsert merges both lists into the row, starting from empty lists when there is none |
| LeadMerge.RunIsOneUpsert | shared/lib/mysql.ts:607-656 | a serial run of upserts equals one upsert of everything it offers |
| LeadMerge.RunKeepsLead | shared/lib/mysql.ts:607-656 | what every serial run guarantees about prefixes, unions, uniqueness and first entries |
| LeadMerge.RunIsIdempotent | shared/lib/mysql.ts:607-656 | repeating a run changes nothing |
| ColumnNames.CamelRoundTripIff | shared/lib/mysql.ts:13-19 | property to column and back is the identity exactly without an underscore before a lower-case letter |
| ColumnNames.SnakeRoundTripIff | shared/lib/mysql.ts:13-19 | column to property and back is the identity exactly without upper-case letters |
| ColumnNames.SnakeOfWords | shared/lib/mysql.ts:13-15 | a capital after a word becomes an underscore and its small letter |
| ColumnNames.MapRowToCamelCase | shared/lib/mysql.ts:21-27 | the loop builds the object with converted keys, the last one of equal keys winning |
| ColumnNames.BuildKeepsLast | shared/lib/mysql.ts:21-41 | an object has the keys written to it, each with the value written last |
| ColumnNames.MapDataToSnakeCase | shared/lib/mysql.ts:29-41 | the loop builds the object of the allowed columns |
| ColumnNames.CamelRow | shared/lib/mysql.ts:21-27 | lower-case columns do not collide as properties |
| ColumnNames.WriteBack | shared/lib/mysql.ts:21-41 | reading a lower-case row and writing it back, in any property order, is the row cut down to the allowed columns |
| Templates.ReplaceIsScan | shared/lib/template-variables.ts:39-53 | one global replacement with a value free of dollar patterns is a scan for one placeholder |
| Templates.ReplaceIsLiteralIff | shared/lib/template-variables.ts:39-53 | a replacement inserts its value literally in every text exactly when the value holds no dollar pattern |
| Templates.PatternMeans | shared/lib/template-variables.ts:39-53 | what each of the four dollar patterns in a value puts in place of a placeholder |
| Templates.ChainIsSubstitution | shared/lib/template-variables.ts:39-53 | on templates of text without opening braces and placeholders, known or not, with values free of opening braces and dollar patterns, the chain is one simultaneous substitution |
| Templates.ChainIsIdempotent | shared/lib/template-variables.ts:39-53 | the chain leaves no known placeholder behind: it does nothing to its own result |
| Templates.ChainIsSubstitutionIfApart | shared/lib/template-variables.ts:39-53 | for values without dollar patterns, whatever their braces: the chain is one simultaneous substitution of every text when no value completes the placeholder of a later variable |
| Templates.ChainIsSubstitutionIff | shared/lib/template-variables.ts:39-53 | and only then, for distinct names, when no value with an opening brace comes after one that completes a later placeholder |
| Templates.OwnPlaceholderHides | shared/lib/template-variables.ts:39-53 | why that is asked: a completing value goes unnoticed in every text when a later variable puts back its own placeholder |
| Templates.CompletesIsWithin | shared/lib/template-variables.ts:39-53 | for a value without braces, completing is being a piece of the name |
| Templates.NamesFitTogether | shared/lib/template-variables.ts:25-29 | a name of several words is first name, blank and last name; a single word has no last name |
| Templates.NamePlaceholders | shared/lib/template-variables.ts:25-29 | what the four name placeholders resolve to, as words of the trimmed name, and "there" for no name or "Unknown" |
| Templates.CompanyPlaceholders | shared/lib/template-variables.ts:30-35 | what the company, city, industry, niche and website placeholders resolve to, metadata before the city of the lead |
| Templates.SenderPlaceholders | shared/lib/template-variables.ts:36-53 | what the four sender placeholders resolve to |
| Templates.ResolveIsSubstitution | shared/lib/template-variables.ts:20-56 | resolving a proper template for a lead and sender without opening braces and dollar patterns is one substitution of the fourteen placeholders, and idempotent |
| Templates.SubjectIsSubstitution | shared/lib/template-variables.ts:58-68 | body and subject are resolved alike, each in its place |
| Templates.ResolveIsSubstitutionIff | shared/lib/template-variables.ts:20-56 | over all texts, for such a lead and sender, that holds exactly when no value completes the placeholder of a later variable |
| Templates.AbsentFieldBreaksResolve | shared/lib/template-variables.ts:31-36 | it fails for every lead without a city, an industry, a niche or a website |
| FetchParser.UidLineIsRead | rust-imap-worker/src/mailbox_monitor.rs:516-529 | the usual FETCH line is read as its UID |
| FetchParser.LineJoinsBlockIff | rust-imap-worker/src/mailbox_monitor.rs:515-560 | at the end of any block of any response, a line adds the header it holds exactly when it announces no UID |
| FetchParser.HeaderLineIsReadIff | rust-imap-worker/src/mailbox_monitor.rs:515-560 | a line of header form sets its lower-cased name to its value exactly when it announces no UID |
| FetchParser.BlanksAroundColon | rust-imap-worker/src/mailbox_monitor.rs:552-559 | blanks around the colon of a header line do not matter |
| FetchParser.OddNameIsNoHeaderIff | rust-imap-worker/src/mailbox_monitor.rs:552-554 | a line whose first colon comes first or after fifty characters or more adds nothing, exactly when it announces no UID |
| FetchParser.FrameIsNoHeaderIff | rust-imap-worker/src/mailbox_monitor.rs:534-540 | a closing bracket or a FETCH response line adds nothing, exactly when it announces no UID |
| FetchParser.HeaderValueStartsMessage | rust-imap-worker/src/mailbox_monitor.rs:515-531 | a header value with a UID in it starts a message of that UID with no headers |
| FetchParser.NeverFolded | rust-imap-worker/src/mailbox_monitor.rs:534-550 | the branch for folded headers is unreachable |
| FetchParser.ParseFetchResponse | rust-imap-worker/src/mailbox_monitor.rs:509-568 | the loop, without that branch, computes a function of the lines |
| FetchParser.ParseKeys | rust-imap-worker/src/mailbox_monitor.rs:515-567 | the messages are exactly the announced UIDs |
| FetchParser.ParseIs | rust-imap-worker/src/mailbox_monitor.rs:515-567 | each message has the headers of the block after its last UID line |
| FetchParser.HeadersAre | rust-imap-worker/src/mailbox_monitor.rs:552-559 | a header has the value of the last line of the block with its key |
| FetchParser.ParseAppend | rust-imap-worker/src/mailbox_monitor.rs:509-568 | a part that starts with a UID line overrides what came before and is not influenced by it |
| FetchParser.FoldingIsIgnored | rust-imap-worker/src/mailbox_monitor.rs:534-560 | in any response, a continuation line means what it would mean without the blank or tab that folds it |
| FetchParser.ContinuationIsAHeaderIff | rust-imap-worker/src/mailbox_monitor.rs:515-560 | a continuation line of header form sets that header, in place of an earlier one, exactly when it announces no UID |
| FetchParser.ContinuationIsDroppedIff | rust-imap-worker/src/mailbox_monitor.rs:515-560 | a continuation line without a colon changes nothing exactly when it announces no UID |
| FetchParser.ExistsLineIsRead | rust-imap-worker/src/mailbox_monitor.rs:495-499 | the usual EXISTS line is read as its count |
| FetchParser.OtherLinesCountNothing | rust-imap-worker/src/mailbox_monitor.rs:493-497 | a line that does not start with an asterisk counts nothing |
| FetchParser.ParseExistsCount | rust-imap-worker/src/mailbox_monitor.rs:492-505 | the result is the highest announced count, or zero |
| UidMonitor.Monitor.HandlePush | rust-imap-worker/src/mailbox_monitor.rs:370-483 | the loop over the fetched messages, in any order, publishes and stores what the tracker function says |
| UidMonitor.DeliveredAre | rust-imap-worker/src/mailbox_monitor.rs:388-428 | a push publishes exactly the new messages that are to be delivered, each once |
| UidMonitor.AddedStartsAtUidnext | rust-imap-worker/src/mailbox_monitor.rs:306-483 | a mailbox added for the first time or again publishes exactly what arrives from the UIDNEXT of its first session on |
| UidMonitor.KeptSessionContinues | rust-imap-worker/src/mailbox_monitor.rs:306-483 | after a session that keeps the stored UID the next push publishes exactly what is above it, and all it listed counts as seen |
| UidMonitor.AtMostOnce | rust-imap-worker/src/mailbox_monitor.rs:306-483 | nothing is published twice in any run of sessions, pushes, removals and re-adding whose resets are safe and whose late pushes find nothing published on the connection |
| UidMonitor.SessionIsSafeIff | rust-imap-worker/src/mailbox_monitor.rs:306-316 | no safe continuation publishes a message twice exactly when the mailbox is removed, or the session keeps a non-zero UIDVALIDITY, or it reads a UIDNEXT above all that was published under the one it reads |
| UidMonitor.StandardRunsPublishOnce | rust-imap-worker/src/mailbox_monitor.rs:306-483 | with a non-zero UIDVALIDITY that never decreases, each (UIDVALIDITY, UID) is published at most once over all sessions |
| UidMonitor.LastUidGrows | rust-imap-worker/src/mailbox_monitor.rs:306-483 | over every standard run that ends with the UIDVALIDITY it began with, the stored UID has not gone back |
| UidMonitor.SameNumbersPublishOnceIff | rust-imap-worker/src/mailbox_monitor.rs:303-316 | when every session reads the same numbers, no run publishes a message twice exactly when the UIDVALIDITY read is not zero |
| UidMonitor.ZeroPublishesAgain | rust-imap-worker/src/mailbox_monitor.rs:310-314 | with a UIDVALIDITY of zero, a reconnect publishes again any message that is not below the UIDNEXT read |
| UidMonitor.ServerAnswerPublishesOnceIff | rust-imap-worker/src/imap_client.rs:126-139 | a server that announces a positive UIDVALIDITY has its messages published once in every run exactly when a blank follows the number |
| UidMonitor.PushIsSafeIff | rust-imap-worker/src/mailbox_monitor.rs:370-483 | a push publishes nothing twice, whatever its messages, exactly when the mailbox is not removed or nothing was published on its connection |
| UidMonitor.RemovedPublishesAgain | rust-imap-worker/src/mailbox_monitor.rs:370-374 | a push handled after removal publishes an old message of its connection again |
| SelectResponse.GetNumber | rust-imap-worker/src/imap_client.rs:110-139 | the first line that yields a number decides, and zero stands for none |
| SelectResponse.NumberIsReadIff | rust-imap-worker/src/imap_client.rs:110-139 | digits after the key are read exactly when white space up to a blank follows them and they fit in 32 bits |
| SelectResponse.ServerLineIsReadIff | rust-imap-worker/src/imap_client.rs:126-139 | in the lines servers write the number is read when a blank follows it and not when a bracket or anything else visible does |

## Left out

- DailyPlan.CalcDailyPlan: does not model `f64` rounding error, infinities and NaN, or overflow of the sum of sent counts; percentages are real numbers.
- Spacing.CalcSpacing: does not model `f64` rounding error; minutes are real numbers, and rounding half away from zero is applied to the emitted minute.
- Redistribute.Redistribute: does not model 32-bit overflow of the capacity sum; everything returned is bounded by the request by `Redistribute.OutcomeConserves`.
- Distribute.DistributeLeads: does not model 32-bit overflow of sums of leads or capacities, nor lower-casing beyond ASCII.
- LeaseProtocol.AtMostOneHolder: does not model SQL text, lock timeouts or deadlocks; one clock stands for the database and the workers, time stamps are not cut to whole seconds, and those of a claim are taken at its commit.
- Leases.RecoveryTable.ClaimMailboxForSync: does not model a missing connection pool; row ids stand for their (tenant, mailbox) key.
- LeadMerge.RecoveredLeads.UpsertRecoveredLead: does not model the scalar columns, and two first inserts of one lead at the same time.
- Templates.ChainIsSubstitutionIff: does not decide lists in which a value with an opening brace comes after one that completes a later placeholder; the two can then agree by chance (`Templates.OwnPlaceholderHides`).
- Templates.ResolveIsSubstitution: does not model metadata values that are not strings, nor white space beyond ASCII in `trim`.
- FetchParser.ParseFetchResponse: does not model the splitting of the response into lines, nor text beyond ASCII, where byte and character positions differ.
- UidMonitor.StandardRunsPublishOnce: does not promise delivery; a failed full fetch or a failed publish is skipped, as in the source, and the mailbox is not removed in these runs.
- UidMonitor.AtMostOnce: does not model the old task of a mailbox that was re-added before the task noticed its removal; such a mailbox has one task here.
- `dispatch` of the scheduler is a switch on a tag and would only add an easy member.
- The other readers and writers of shared/lib/mysql.ts (pending list, backlog count, statistics, events) are single queries.
- Redis, SMTP, TLS, DNS, job queues, HTTP routes other than their upserts, IMAP framing in rust-imap-worker/src/imap_client.rs, and body extraction are not part of this model.
- Seed monitoring, DMARC parsing, telemetry, plan and pricing tables are finite tables or one-branch checks.
