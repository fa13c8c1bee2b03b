# A verified model of the scan platform's core

Small systems at the core of the repository, modelled in Dafny and proved. Each module names the file it follows.
SQL tables are sequences or maps held in classes; a statement, or a step between two commits, is one step.
Methods follow the source's loops and are proved against functions; the lemmas are about those functions.

| system | modules |
|---|---|
| Android binary XML decoder | `Bytes`, `Unicode`, `Text`, `AxmlDecoder`, `AxmlDocument`, `AxmlPool`, `AxmlRoundTrip`, `AxmlScopes`, `AxmlEncode`, `XmlReader`, `XmlConforming` |
| AI wallet, reservation reaper, opening-row migration | `WalletLedger`, `ReaperProtocol`, `ReaperTask`, `ReaperEffects`, `WalletOpening` |
| Fallback ranking | `Ranking`, `Fallbacks`, `FallbackEffects` |
| Billing sweeps | `Lifecycle`, `Reminders`, `ReminderTurns`, `ReminderCrash`, `Renewals`, `RenewalEffects`, `Numbering` |
| On-box helper | `Paths`, `Jail`, `Quarantine`, `AuditCursor`, `Watch` |
| Migration graph check | `Lineage` |
| Overhead allocation and margins | `Overhead`, `Percent` |
| Credit refunds | `Refunds`, `RefundEffects` |
| Scheduled host scans | `Admission`, `AdmissionRace` |
| shared definitions | `Common` |

`dafny verify dfyconfig.toml` checks everything. Many proofs start with `hide`, which keeps each one small.

## What the code does not promise

Where a property one would expect is false, the code is kept as it is: a lemma gives the failing case, and
another the condition under which the property holds.

- A namespace URI declared again inside its own scope: the decoder's table is a plain map, so the end of the
  inner scope ends the outer one (`AxmlRoundTrip.RedeclarationLosesPrefix`;
  `AxmlScopes.DecodesExactlyWhenNothingIsLost` has the condition).
- The rank offset of 1000 assumes small ranks, but the create route takes any rank from 1 up; ranks exactly a
  thousand apart can trip the unique constraint (`Ranking.OffsetSafeIff`, `Fallbacks.CreatesCanLeaveATrap`).
- Invoice numbers are counted, not stored: after a gap in a month's numbers the next one can be taken, and then
  every run with a renewal to draft in that month aborts (`Numbering.GapsCollide`, `Numbering.StuckForEver`;
  `Numbering.RunAbortsIff` has the condition).
- The audit cursor delivers bytes, not characters: a poll that ends inside a character garbles it
  (`AuditCursor.SplitCharacter`; `AuditCursor.EachCharacterOnce` has the condition). A cursor lost in a failed
  write repeats the log (`AuditCursor.EachByteOnce`), and a replaced log that has outgrown the old offset loses its
  beginning (`AuditCursor.ReplacedLog`).
- The watch leaves a request that fails to the periodic poll. A change whose debounce runs out during the cooldown
  posts no request at all, then or later (`Watch.CooldownLosesChange`; `Watch.ExpiredRootRequestsIff` has the
  condition); a root nested in an earlier one is never fired (`Watch.NestedRootIsShadowed`; `Watch.TouchableIff`);
  and a cooldown write that fails lets the next request through early (`Watch.IgnoredWriteRepeats`;
  `Watch.RequestsAreSpacedIff`).
- Attribute values are written as they are, so a conforming XML reader turns their tabs and line ends to spaces
  (`XmlConforming.ConformingReadsBackIff` has the condition).
- A reminder sweep that dies after its mails is delivered again and mails again (`ReminderCrash.CrashMailsTwice`,
  `ReminderCrash.DeathsMailAgain`; `ReminderCrash.RemindersOnceIff` has the condition).
- A refunded job that is started again can be refunded again (`Refunds.RestartRefundsTwice`;
  `Refunds.RefundedAtMostOnceIff` has the condition).
- Scheduled scans go to the oldest enabled sites only; those behind the limit get none
  (`Admission.LaterSitesStarve`; `Admission.OnlyTheOldest`). The cap of two and the spacing hold for one
  sweep at a time; n at once can reach n + 1 and no more (`AdmissionRace.TwoSweepsExceed`,
  `AdmissionRace.CapSafeIff`, `AdmissionRace.CapUnderConcurrency`; `AdmissionRace.SpacedIffNoClash` and
  `AdmissionRace.CapIffNoExcess` have the conditions for a run).
- The migration check merges by union, so a base revision that the branch deletes still counts. The check can fail
  for a second head that is gone (`Lineage.DeletedHeadStillCounts`), and it can pass while the merge leaves two heads
  (`Lineage.DeletedMergePasses`); `Lineage.VerdictRightIff` and `Lineage.PassingIsDeployableIff` have the conditions.
  One head is the whole history only if it reaches every cycle (`Lineage.CycleHides`;
  `Lineage.OneHeadIsWholeHistoryIff`).
- Percentages are rounded from a floating-point quotient: for dividends below 2^52 that is the exact quotient rounded,
  beyond it need not be (`Percent.RoundedQuotientIsExact`, `Percent.LargeQuotientMoves`).

Assumptions of the environment are parameters: clocks, the mail server, operating system errors, the catalog,
which characters the regular expression class `\w` holds (`Jail.WordClass`), the order in which a database
visits rows.

## Model

| member | source | states |
|---|---|---|
| `AxmlDecoder.AxmlToXml` | workers/utils/axml.py:33-88 | the chunk loop computes `Decode`: it stops at a chunk that is too small or runs out of the data, and a bad chunk fails the whole decode |
| `AxmlDecoder.HandleChunk` | workers/utils/axml.py:57-84 | one chunk's effect on strings, namespace table, depth and output, for every chunk kind and for unknown ones |
| `AxmlDecoder.ParseStringPool` | workers/utils/axml.py:97-131 | the pool loop computes `Pool`: flag bit, offset table, strings cut at the chunk's end, or failure |
| `AxmlDecoder.ReadOffsets` | workers/utils/axml.py:108-114 | the offset table is read entry by entry |
| `AxmlDecoder.ParseAttributes` | workers/utils/axml.py:191-217 | the attribute loop computes `Attributes`: it steps by the declared record size and drops nameless ones |
| `AxmlDecoder.ParseStartElement` | workers/utils/axml.py:171-218 | the start element parser computes `StartElement`, tag and attribute list, or failure |
| `AxmlDecoder.DecodersStayInside` | workers/utils/axml.py:134-168 | for any bytes, what either string decoder returns depends only on the bytes inside the chunk |
| `Unicode.Utf8RoundTrip` | workers/utils/axml.py:134-156 | decoding UTF-8 (with replacement of malformed bytes) undoes encoding, for every string |
| `Unicode.Utf16RoundTrip` | workers/utils/axml.py:159-168 | decoding UTF-16 (surrogates included) undoes encoding, for every string |
| `Unicode.DecodedLength` | workers/utils/axml.py:134-156 | any bytes decode to at least as many characters as they have leading bytes, and to more if they start inside a character |
| `Unicode.BoundaryIff` | packaging/host-protect-helper/sinexis_host_scan.py:686-693 | in encoded text the character boundaries are exactly the places of leading bytes, and the end |
| `Unicode.PiecesText` | packaging/host-protect-helper/sinexis_host_scan.py:686-693 | text cut into pieces that are decoded one by one comes back if and only if no piece starts inside a character |
| `AxmlPool.PoolRoundTrip` | workers/utils/axml.py:97-168 | every list of strings with encoded lengths below 0x8000 survives a pool chunk: both encodings, the strings in any order or shared, any header length, flags and gaps, at any offset |
| `Text.EscapeRoundTrip` | workers/utils/axml.py:74 | an escaped value is a legal double-quoted XML attribute value, and resolving its references gives the original back |
| `Text.DecimalRoundTrip` | workers/utils/axml.py:221-241 | a printed signed integer reads back as the integer |
| `AxmlRoundTrip.RunForest` | workers/utils/axml.py:57-84 | running a forest's events prints exactly that forest and restores depth and namespace scope |
| `AxmlRoundTrip.WalkItems` | workers/utils/axml.py:47-86 | walking encoded chunks runs their events; chunks without an event between them change nothing |
| `AxmlRoundTrip.DecoderRunsEvents` | workers/utils/axml.py:33-88 | the byte-level decoder refines a small event machine, for every event list, balanced or not |
| `AxmlRoundTrip.DecoderInvertsEncoder` | workers/utils/axml.py:33-241 | decoding any layout of a forest (string order, header and record lengths, nameless attributes, dead chunks, trailing bytes) gives exactly the printed forest: indentation is depth, tags closed by name, attributes named by a rule of their own, values escaped, integers recovered |
| `AxmlRoundTrip.RedeclarationLosesPrefix` | workers/utils/axml.py:59-69 | the condition of the round trip is needed: an inner redeclaration of a URI strips the outer prefix from what follows |
| `AxmlScopes.RunPrintsTable` | workers/utils/axml.py:57-84 | running any forest's events, redeclarations included, prints it with the table's prefixes |
| `AxmlScopes.ForestLoss` | workers/utils/axml.py:59-69 | the table's lines are the tree's exactly when nothing is lost, and shorter otherwise |
| `AxmlScopes.WellFormedLosesNothing` | workers/utils/axml.py:59-69 | without redeclarations nothing is lost |
| `AxmlScopes.DecodesExactlyWhenNothingIsLost` | workers/utils/axml.py:33-241 | decoding gives the printed tree if and only if no attribute follows the end of an inner scope of its own prefixed namespace |
| `AxmlEncode.EncodeThenDecode` | workers/utils/axml.py:33-241 | a concrete encoder followed by the decoder gives the printed forest, whichever pool encoding |
| `XmlReader.ForestReads` | workers/utils/axml.py:70-88 | an XML reader gets a forest's elements back from its printed text, with anything after it |
| `XmlReader.DocumentReadsBack` | workers/utils/axml.py:43-88 | a printed document reads back as its elements (names, attributes with their values, nesting) if and only if its tags and attribute names are XML names and no element has an attribute twice |
| `XmlReader.DecodedReadsBack` | workers/utils/axml.py:33-241 | from bytes to elements: where no prefix is lost, the decoder's text of any layout of a document is read back as the document under the same condition |
| `XmlConforming.LineEndsFirst` | workers/utils/axml.py:74 | a conforming reader ends lines before it parses: on every text that is the same as ending them in each attribute value |
| `XmlConforming.ValueReadsBackIff` | workers/utils/axml.py:74 | a conforming reader recovers an escaped value if and only if it holds no tab, line feed or carriage return |
| `XmlConforming.ConformingReads` | workers/utils/axml.py:43-88 | of a readable document a conforming reader gets the elements with every value's line ends and tabs turned to spaces, or refuses it for a character XML does not allow |
| `XmlConforming.ConformingReadsBackIff` | workers/utils/axml.py:43-88 | a conforming reader gets a printed document of one root back if and only if it is readable and every value has legal characters only and no tab, line feed or carriage return |
| `XmlConforming.DecodedConformsIff` | workers/utils/axml.py:33-241 | the same from bytes, for any layout of a document that loses no prefix |
| `ReaperProtocol.ExactlyOnce` | workers/tasks/ai_reservations.py:55-83 | over every interleaving a reservation has at most one ledger row of each kind, and its release row exactly when it is released and paid back |
| `ReaperProtocol.WorthMoves` | workers/tasks/ai_reservations.py:63-81 | balance plus held money of an organisation changes only by top-ups and settlements, by exactly their amounts |
| `ReaperProtocol.WorthAtRest` | workers/tasks/ai_reservations.py:63-67 | between transactions worth is the balance plus the open holds |
| `ReaperProtocol.WorthOverRun` | workers/tasks/ai_reservations.py:63-81 | worth at the end of any run is worth at the start less what was spent |
| `ReaperProtocol.LedgerExplainsBalances` | backend/app/services/ai_wallet.py:218-240 | over any run no wallet drifts from its ledger, each `balance_after` is the running balance, and none goes below zero |
| `ReaperProtocol.ReapersReturnWhatTheyRefunded` | workers/tasks/ai_reservations.py:52-85 | a reaper's refund total is the sum of the holds it credited, each once and by no other; its snapshot ends closed |
| `ReaperTask.SnapshotRight` | workers/tasks/ai_reservations.py:41-50 | the snapshot holds stale open rows only, oldest first, and leaves one out only when the batch of 100 is full of rows at least as old |
| `ReaperTask.Session.ReapStale` | workers/tasks/ai_reservations.py:33-85 | the loop computes the specification `Reap` on the three tables and returns its two counters |
| `ReaperTask.Session.Task` | workers/tasks/ai_reservations.py:89-101 | on an exception nothing is changed and no counters are returned |
| `ReaperTask.TaskIsARun` | workers/tasks/ai_reservations.py:33-85 | the reaper alone is a run of the interleaving protocol, so it keeps what the protocol keeps |
| `ReaperTask.ReapCloses` | workers/tasks/ai_reservations.py:54-60 | run alone, the reaper leaves every selected row closed |
| `ReaperTask.SecondSweepIdle` | workers/tasks/ai_reservations.py:41-50 | a second sweep at the same time finds nothing, unless the first filled its batch |
| `ReaperEffects.SnapshotIs` | workers/tasks/ai_reservations.py:41-50 | the snapshot, on the rows alone: distinct waiting rows older than the cutoff, in order of age and place, and all of them unless there are a hundred |
| `ReaperEffects.SweepLeaves` | workers/tasks/ai_reservations.py:33-85 | a sweep run alone fails exactly if a row it takes has no wallet; otherwise exactly the rows taken are released, each balance grows by its holds and the ledger by one row each |
| `ReaperEffects.TopUpIff` | backend/app/services/ai_wallet.py:243-262 | a top-up is booked if and only if it is at least one |
| `ReaperEffects.ReserveIff` | backend/app/services/ai_wallet.py:265-316 | a reservation succeeds if and only if its hold is at least one and covered, and takes exactly the hold |
| `ReaperEffects.ReleaseIff` | backend/app/services/ai_wallet.py:403-419 | an undisturbed release pays the hold back if and only if the reservation is open |
| `ReaperEffects.SettleIff` | backend/app/services/ai_wallet.py:330-400 | an undisturbed settlement closes an open reservation only, pays back what was not used, or takes what the balance covers of the excess |
| `WalletOpening.Migration.Upgrade` | backend/alembic/versions/add_ai_wallet_ledger_opening.py:30-54 | the insert adds one opening row per wallet without one, carrying the missing amount |
| `WalletOpening.Migration.Downgrade` | backend/alembic/versions/add_ai_wallet_ledger_opening.py:57-60 | the downgrade removes exactly the opening rows |
| `WalletOpening.UpgradeRows` | backend/alembic/versions/add_ai_wallet_ledger_opening.py:34-54 | every row added opens one wallet that had no opening row, with its balance after it and the difference to its ledger as amount; each such wallet gets one |
| `WalletOpening.DowngradeRows` | backend/alembic/versions/add_ai_wallet_ledger_opening.py:57-60 | a row is left exactly if it was there and is no opening row, as often as it was |
| `WalletOpening.UpgradeSettles` | backend/alembic/versions/add_ai_wallet_ledger_opening.py:34-54 | every wallet that had no opening row then agrees with its ledger; the other drifts are what they were |
| `WalletOpening.UpgradeIdempotent` | backend/alembic/versions/add_ai_wallet_ledger_opening.py:34-54 | running the upgrade again, in any order of wallets, adds nothing |
| `WalletOpening.DowngradeUndoes` | backend/alembic/versions/add_ai_wallet_ledger_opening.py:57-60 | the downgrade gives back the ledger without opening rows |
| `WalletOpening.MetricStaysZero` | backend/app/metrics.py:167-187 | after the migration the drift metric reads zero after every later interleaving of reapers and requests |
| `Ranking.RewriteSafeIff` | backend/app/api/admin_ai_routes.py:141-189 | a rank rewrite never holds two equal ranks, in any write order, exactly when old and new ranks are distinct and no new rank is another row's old one |
| `Ranking.OffsetSafeIff` | backend/app/api/admin_ai_routes.py:141-147 | the offset statement is safe in every visiting order if and only if no two ranks differ by exactly a thousand |
| `Ranking.SmallRanksOffset` | backend/app/api/admin_ai_routes.py:141-147 | it is safe for ranks in 1..1000 |
| `Ranking.ThousandApartBreaks` | backend/app/api/admin_ai_routes.py:488-497 | it is not safe for every rank the create route accepts: 1 and 1001 trip it |
| `Ranking.CompactionSafe` | backend/app/api/admin_ai_routes.py:168-170 | compaction after the offset never trips the constraint for up to a thousand rows |
| `Ranking.MoveOutcome` | backend/app/api/admin_ai_routes.py:173-189 | after a move the ranks are 1..n, the moved row is at its clamped target and the others keep their order |
| `Ranking.ResequenceOutcome` | backend/app/api/admin_ai_routes.py:165-170 | resequencing leaves 1..n in the old order |
| `Fallbacks.Table.WriteRanks` | backend/app/api/admin_ai_routes.py:141-147 | writing ranks row by row either ends with all the new ranks or stops at the first collision, which happens only if the rewrite is unsafe |
| `Fallbacks.Table.Resequence` | backend/app/api/admin_ai_routes.py:165-170 | the two phases end with the specified ranks, or report a collision |
| `Fallbacks.Table.MoveUpstream` | backend/app/api/admin_ai_routes.py:173-189 | a move ends with the specified ranks, or reports a collision |
| `Fallbacks.FallbacksStayDistinct` | backend/app/api/admin_ai_routes.py:398-590 | over any sequence of requests targets stay distinct and unlike the primary, ranks distinct, and the candidate limit holds |
| `FallbackEffects.CreateEffect` | backend/app/api/admin_ai_routes.py:473-504 | a create is refused exactly on the named conflicts; otherwise it appends the requested target at the requested rank or one above all others |
| `FallbackEffects.UpdateEffect` | backend/app/api/admin_ai_routes.py:514-558 | an update changes only the row with the id, to the requested target and its rank clamped to 1..n, the others keeping their order; each refusal has its exact conflict |
| `FallbackEffects.DeleteEffect` | backend/app/api/admin_ai_routes.py:570-591 | a delete answers not found exactly when no row has the id; when done the rows left are exactly the others, ranks 1..n in their old order |
| `FallbackEffects.SetPrimaryEffect` | backend/app/api/admin_ai_routes.py:395-412 | a new primary is refused exactly when it cannot be used or is a fallback; otherwise only the primary changes |
| `FallbackEffects.DropEffect` | backend/app/api/admin_ai_routes.py:287-303 | a provider that is deleted takes exactly its fallbacks with it |
| `FallbackEffects.IdsStayDistinct` | backend/app/api/admin_ai_routes.py:395-591 | over any sequence of requests with fresh ids, ids stay distinct |
| `Fallbacks.CreatesCanLeaveATrap` | backend/app/api/admin_ai_routes.py:488-497 | two creates reach ranks from which the next reordering can trip the constraint |
| `Lifecycle.Billing.Close` | workers/tasks/billing.py:51-64 | the first statement ends exactly the live subscriptions whose period is over under a cancel request, and counts them |
| `Lifecycle.Billing.Mark` | workers/tasks/billing.py:66-88 | the second statement marks exactly the active subscriptions whose latest invoice is past the grace days |
| `Lifecycle.Billing.Terminate` | workers/tasks/billing.py:90-114 | the third statement ends exactly the past due subscriptions whose latest invoice is past the cancel days |
| `Lifecycle.Billing.FinalizePeriods` | workers/tasks/billing.py:123-138 | the three statements together are `SweepAll`, and each count is the number of rows its statement selects in the table the ones before it left |
| `Lifecycle.CadenceDoesNotMatter` | workers/tasks/billing.py:51-138 | whatever earlier sweeps ran, one sweep at a time no earlier leaves the same status and cancel flag as if it were the only one |
| `Lifecycle.SweepIdempotent` | workers/tasks/billing.py:123-138 | a second sweep at the same time changes nothing, timestamps included |
| `Lifecycle.SweepsMoveForward` | workers/tasks/billing.py:51-114 | over any run status only moves towards canceled and a canceled row's dates stay |
| `Lifecycle.WhenSweepCancels` | workers/tasks/billing.py:51-114 | exactly when one sweep cancels a subscription, said without the order of the statements |
| `Lifecycle.SweepEffect` | workers/tasks/billing.py:51-114 | what one sweep makes of a row, by its period, its status and how late its latest sent invoice is |
| `Lifecycle.CountsAre` | workers/tasks/billing.py:123-155 | the three counts are the rows closed, marked and terminated, judged on the table the sweep started from |
| `Lifecycle.CanceledAtFirstChance` | workers/tasks/billing.py:51-114 | the end date is the time of the first sweep that would cancel the untouched subscription |
| `Reminders.ComputeDueStage` | backend/app/services/billing_reminders.py:37-44 | the loop over stages finds the last stage reached |
| `Reminders.StageAdvances` | backend/app/services/billing_reminders.py:37-44 | the stage due never goes back as time passes |
| `Reminders.ReminderTask.RecordRow` | workers/tasks/billing.py:237-264 | recording an attempt inserts or updates the one row of the invoice and stage, with the error text cut to 500 characters |
| `Reminders.ReminderTask.SendDueReminders` | workers/tasks/billing.py:268-366 | the sweep's loop computes `Sweep` on the reminder rows and the mails, and returns its three counters |
| `Reminders.CountersAddUp` | workers/tasks/billing.py:285-349 | the sent counter is the mails sent, and every invoice with a stage is either skipped or has its mails go out |
| `Reminders.RemindersOnce` | workers/tasks/billing.py:237-349 | over any run: one delivery and three attempts at most per stage, rows rise in rank, and a delivered row is never touched again |
| `Reminders.RemindersEscalate` | workers/tasks/billing.py:289-349 | while the clock does not run backwards mails only escalate, none is early, and late invoices start with an ordinary notice |
| `ReminderTurns.VisitIff` | workers/tasks/billing.py:289-366 | a visit mails a stage exactly once if and only if it is the due stage by its offset and its row is unsent with under three attempts, or there is none and all others rank lower; otherwise nothing changes |
| `ReminderTurns.FailedIsTriedAgain` | workers/tasks/billing.py:289-366 | over a run in which a stage is due, it is attempted in each sweep until one delivers it or the third has failed, and no more |
| `ReminderCrash.RemindersOnceIff` | workers/tasks/billing.py:267-366 | over any run of executions, crashed ones included, a stage of an invoice reaches somebody at most once if and only if no execution delivers it after one whose delivery was rolled back |
| `ReminderCrash.DeathsMailAgain` | workers/tasks/billing.py:267-366 | nothing bounds the repeats: a sweep that dies n times after its mails and then commits mails the stage n + 1 times |
| `ReminderCrash.CrashMailsTwice` | workers/tasks/billing.py:267-366 | the smallest failing run: one invoice, a sweep that dies after its mail, and the same sweep again |
| `Renewals.NextPeriod` | backend/app/services/invoice_math.py:30-46 | the next period starts on the first of a month strictly after the current end, within a month, and runs twelve months to the microsecond |
| `Renewals.SelectedRows` | workers/tasks/billing.py:413-427 | the query selects exactly the annual, active, uncancelled subscriptions that end after now and by the horizon |
| `Renewals.RenewalTask.DraftAnnualRenewals` | workers/tasks/billing.py:396-505 | the loop computes `DraftAll`; an exception rolls the whole run back |
| `Renewals.RunKeepsDisjoint` | workers/tasks/billing.py:449-461 | a committed run keeps live scan invoices of an organisation pairwise non-overlapping |
| `Renewals.SecondRunCreatesNothing` | workers/tasks/billing.py:449-461 | a later run over any of the same subscriptions, drafts still live, creates nothing |
| `Renewals.NumbersStayDense` | workers/tasks/billing.py:384-461 | where numbers are 1..k under every prefix they stay so, every number is fresh, and a run aborts exactly when a renewal leaves the calendar or finds several overlapping invoices |
| `RenewalEffects.PeriodIs` | backend/app/services/invoice_math.py:30-46 | a renewal covers the twelve months after the month of the old end, to the last microsecond; there is none exactly at the end of the calendar |
| `RenewalEffects.RunDrafts` | workers/tasks/billing.py:396-505 | a committed run drafts exactly one invoice, for the renewal period, per priced subscription without a live scan invoice in it, and skips the others |
| `RenewalEffects.NumberSpells` | workers/tasks/billing.py:384-393 | an invoice number spells year, month and one more than the invoices that begin alike |
| `Numbering.NthNumberFreshIff` | workers/tasks/billing.py:384-392 | the (n+1)-th number a run issues under a prefix is the starting count plus n plus 1, and is fresh if and only if no invoice the run started from carries it |
| `Numbering.RunAbortsIff` | workers/tasks/billing.py:396-505 | on any invoices, a run aborts if and only if some renewal leaves the calendar, finds several overlapping invoices, or would take a number that an invoice already carries |
| `Numbering.StuckForEver` | workers/tasks/billing.py:384-505 | once the next number under a prefix is taken it stays taken over any runs, and each run with a renewal to draft under it aborts |
| `Numbering.GapsCollide` | workers/tasks/billing.py:384-392 | the smallest failing case: with only number 0002 under a prefix the next number is 0002 |
| `Paths.ComputeNormalized` | packaging/host-protect-helper/sinexis_host_scan.py:71 | the component loop of `os.path.normpath` computes the normal form |
| `Paths.NormPathAppend` | packaging/host-protect-helper/sinexis_host_scan.py:410-417 | joining a relative part without `..` to a normal path and normalising appends its components |
| `Paths.ParentsCancel` | packaging/host-protect-helper/sinexis_host_scan.py:71 | a component followed by `..` drops out of a normal form, anywhere in a path |
| `Paths.StartsWithIsPrefix` | packaging/host-protect-helper/sinexis_host_scan.py:74-75 | `startswith(root + "/")` is exactly "a proper prefix, component by component" |
| `Jail.RootIsSpelled` | packaging/host-protect-helper/sinexis_host_scan.py:61-76 | an accepted root is a slash and plain components: those of the stripped input without empty ones and dots |
| `Jail.RootComponentsAllowed` | packaging/host-protect-helper/sinexis_host_scan.py:61-76 | the string allowlist is a component allowlist |
| `Jail.ValidateRootIdempotent` | packaging/host-protect-helper/sinexis_host_scan.py:61-76 | validating an accepted root gives it back |
| `Jail.RootAcceptedIff` | packaging/host-protect-helper/sinexis_host_scan.py:61-76 | a root is accepted if and only if its stripped text is absolute without a NUL, and normalises below an allowed prefix; with the exact value |
| `Jail.JailStaysInside` | packaging/host-protect-helper/sinexis_host_scan.py:410-417 | the jail join refuses a relative path for what it is, or appends its components to the root's: the escape branch is never taken |
| `Jail.QuarantineDirShape` | packaging/host-protect-helper/sinexis_host_scan.py:420-432 | the quarantine directory is one component, the site id, below the normalised quarantine root |
| `Jail.QuarantineDirInjective` | packaging/host-protect-helper/sinexis_host_scan.py:420-432 | different site ids have different directories |
| `Jail.QuarantineDirAcceptedIff` | packaging/host-protect-helper/sinexis_host_scan.py:420-432 | a quarantine directory is accepted if and only if the site id and the quarantine root are, each by its characters |
| `Quarantine.Disk.RunAction` | packaging/host-protect-helper/sinexis_host_scan.py:439-491 | the checks, then the command, computed on a file tree; a failed check changes nothing |
| `Quarantine.Disk.RunQuarantine` | packaging/host-protect-helper/sinexis_host_scan.py:450-464 | the quarantine body computes `Exec`: codes 0 and 6 and the new tree |
| `Quarantine.Disk.RunRestore` | packaging/host-protect-helper/sinexis_host_scan.py:478-491 | the restore body computes `Exec` |
| `Quarantine.CommandMovesOneFile` | packaging/host-protect-helper/sinexis_host_scan.py:439-491 | a command creates directories only, or also moves one file to a free place; everything else stays |
| `Quarantine.QuarantineSucceedsIff` | packaging/host-protect-helper/sinexis_host_scan.py:450-464 | on a tree, exactly when a quarantine moves the file, returns 0 or 6, makes directories only or changes nothing, by the file map alone |
| `Quarantine.RestoreSucceedsIff` | packaging/host-protect-helper/sinexis_host_scan.py:478-491 | the same for a restore |
| `Quarantine.RunKeepsCopies` | packaging/host-protect-helper/sinexis_host_scan.py:439-491 | over any run of commands with repeats and failures every content is stored in as many places as before |
| `Quarantine.CommandIdempotent` | packaging/host-protect-helper/sinexis_host_scan.py:439-491 | a second delivery changes nothing and returns the same code |
| `Quarantine.RepeatedDelivery` | packaging/host-protect-helper/sinexis_host_scan.py:439-491 | at-least-once delivery leaves the same disk as exactly-once |
| `Quarantine.RestoreUndoesQuarantine` | packaging/host-protect-helper/sinexis_host_scan.py:439-491 | restore after a successful quarantine gives the file system back, up to the created quarantine directory |
| `Quarantine.CheckedCommand` | packaging/host-protect-helper/sinexis_host_scan.py:439-449 | a command that passes the checks works below an accepted root and in the site's quarantine directory |
| `Quarantine.CheckedIff` | packaging/host-protect-helper/sinexis_host_scan.py:439-449 | the checks pass exactly for an accepted root, relative path, quarantine directory and file name |
| `AuditCursor.ReplacedLog` | packaging/host-protect-helper/sinexis_host_scan.py:683-688 | a replaced log is delivered whole exactly when the offset is 0 or beyond its end |
| `AuditCursor.CursorFile.ReadNewAuditText` | packaging/host-protect-helper/sinexis_host_scan.py:672-695 | a poll returns the text from the cursor on and stores the new end; a refused write keeps the cursor, a write that fails half way loses it, and both return nothing |
| `AuditCursor.PollEffect` | packaging/host-protect-helper/sinexis_host_scan.py:672-695 | what a poll delivers and where the cursor then stands, by the number the cursor file reads as |
| `AuditCursor.EachByteOnce` | packaging/host-protect-helper/sinexis_host_scan.py:672-695 | while the log grows, the bytes of any run of polls are those from the first cursor to the end of the last written poll, once each, if and only if no written poll follows the loss of a cursor past the beginning |
| `AuditCursor.NegativeCursorSticks` | packaging/host-protect-helper/sinexis_host_scan.py:679-695 | a negative cursor delivers nothing and is never replaced |
| `AuditCursor.EachCharacterOnce` | packaging/host-protect-helper/sinexis_host_scan.py:672-695 | the polls of such a run return the encoded text if and only if every written poll ended between two characters, and too many characters otherwise |
| `AuditCursor.CutText` | packaging/host-protect-helper/sinexis_host_scan.py:686-693 | for one cut: the parts decode to the text if and only if the cut is between two characters |
| `AuditCursor.SplitCharacter` | packaging/host-protect-helper/sinexis_host_scan.py:686-693 | the smallest failing case: two bytes, two polls, two replacement characters |
| `Watch.Watcher.Run` | packaging/host-protect-helper/sinexis_host_scan.py:1029-1057 | the event loop, turn by turn, computes `Watched` |
| `Watch.Watcher.Round` | packaging/host-protect-helper/sinexis_host_scan.py:1033-1055 | one turn: route the line, sweep the pending sites, fire those that are quiet |
| `Watch.Watcher.Sweep` | packaging/host-protect-helper/sinexis_host_scan.py:1048-1053 | the pass over the sites removes and returns those whose debounce has run out |
| `Watch.Watcher.FireSite` | packaging/host-protect-helper/sinexis_host_scan.py:959-996 | a firing posts a request and marks the cooldown, or does neither, and goes on to a scan under the reply's id, a poll, or a return code |
| `Watch.ChangeIs` | packaging/host-protect-helper/sinexis_host_scan.py:1040-1047 | a line is a change of the first listed root that it is or lies below, and of none if it is empty or has a NUL |
| `Watch.FiringEffect` | packaging/host-protect-helper/sinexis_host_scan.py:959-996 | exactly when a firing posts and marks, and how it goes on |
| `Watch.RequestsAreSpaced` | packaging/host-protect-helper/sinexis_host_scan.py:970-975 | over any run with writable cooldown files, two requests for a site are at least the cooldown apart, whatever the clock does |
| `Watch.RequestsAreSpacedIff` | packaging/host-protect-helper/sinexis_host_scan.py:970-975 | over any run, whichever cooldown writes fail, requests are spaced if and only if none comes within a cooldown of an earlier one of its site whose mark was not stored |
| `Watch.IgnoredWriteRepeats` | packaging/host-protect-helper/sinexis_host_scan.py:970-975 | the smallest failing run: the first write fails and the next change is requested a second later |
| `Watch.FiresOnlyWhenQuiet` | packaging/host-protect-helper/sinexis_host_scan.py:1048-1055 | a site is fired only when its latest change is at least the debounce old |
| `Watch.ChangeFiresOrWaits` | packaging/host-protect-helper/sinexis_host_scan.py:1036-1055 | a noted change is fired in the turn its debounce runs out, and stays pending until then |
| `Watch.ChangeFiresInFirstTurn` | packaging/host-protect-helper/sinexis_host_scan.py:1033-1055 | over any run, a change is fired in the first turn at least a debounce after it, if no other change of the root comes before |
| `Watch.PendingIff` | packaging/host-protect-helper/sinexis_host_scan.py:1033-1057 | after any run a root is pending if and only if its last change is less than the debounce old; at the end of the stream these are the changes dropped |
| `Watch.NoDebounceNothingPending` | packaging/host-protect-helper/sinexis_host_scan.py:1058-1061 | without a debounce nothing is ever pending after a turn, so the single-pass branch is never taken |
| `Watch.TouchableIff` | packaging/host-protect-helper/sinexis_host_scan.py:1041-1047 | some path is taken for a change of a root if and only if no site listed before the first one of that root covers it |
| `Watch.OnlyForemostIsPending` | packaging/host-protect-helper/sinexis_host_scan.py:1041-1055 | over any run only such roots are pending, so only they are fired |
| `Watch.NestedRootIsShadowed` | packaging/host-protect-helper/sinexis_host_scan.py:1043-1047 | in particular a root listed after one that contains it never is |
| `Watch.ExpiredRootRequestsIff` | packaging/host-protect-helper/sinexis_host_scan.py:959-980 | in the turn a root's debounce runs out, one request comes from it if and only if its site is usable, has an id and is not cooling after the firings before it in that turn |
| `Watch.UntouchedRequestsNothing` | packaging/host-protect-helper/sinexis_host_scan.py:1029-1057 | a root that is not pending and not changed again requests nothing, over any run and whatever other sites do |
| `Watch.CooldownLosesChange` | packaging/host-protect-helper/sinexis_host_scan.py:972-973 | so a change whose debounce runs out while its site is cooling never brings a request |
| `Lineage.Ancestry` | scripts/check-alembic-lineage.py:86-95 | the worklist ends on every graph, cyclic ones too, and returns exactly the reachable revisions present |
| `Lineage.EveryRevisionHasAHead` | scripts/check-alembic-lineage.py:81-83 | without cycles every revision is an ancestor of a head |
| `Lineage.OneHeadIsWholeHistory` | scripts/check-alembic-lineage.py:81-95 | without cycles a revision is the only head exactly when its ancestry is the whole history |
| `Lineage.OneHeadIsWholeHistoryIff` | scripts/check-alembic-lineage.py:81-95 | on any graph a single head's ancestry is the whole history if and only if the head reaches every cycle |
| `Lineage.CycleHides` | scripts/check-alembic-lineage.py:81-95 | a cycle beside the head hides behind it, one below does no harm: the smallest case of each |
| `Lineage.ExitCodeIs` | scripts/check-alembic-lineage.py:98-147 | the exit code by the revisions: no revision, a long id, a union without exactly one head, or a base that cannot be read |
| `Lineage.BehindIsNoProblem` | scripts/check-alembic-lineage.py:126-134 | a branch that only lacks base revisions passes exactly when the base has one head |
| `Lineage.DeletionsAreNotSeen` | scripts/check-alembic-lineage.py:125-134 | for a branch that deletes revisions and leaves none without its parents, the heads of the union are those of what the merge leaves if and only if nothing was deleted |
| `Lineage.DeletedHeadStillCounts` | scripts/check-alembic-lineage.py:125-134 | the harmless failing case: the branch deletes the base's second head and the check still fails |
| `Lineage.DeletedMergePasses` | scripts/check-alembic-lineage.py:125-134 | the harmful one: the branch deletes the revision that merged two heads, the check passes, and the merge leaves both |
| `Lineage.HeadsLeft` | scripts/check-alembic-lineage.py:81-83 | what a deletion leaves has for heads the remaining heads and the revisions it exposes, whose children were all deleted |
| `Lineage.VerdictRightIff` | scripts/check-alembic-lineage.py:125-140 | the exit code is right about what the merge leaves if and only if the union has one head exactly when its remaining heads and the exposed revisions are one together |
| `Lineage.PassingUnionIsOneHistory` | scripts/check-alembic-lineage.py:126-134 | a passing check means one revision's ancestry is the whole union of base and branch |
| `Lineage.PassingIsDeployableIff` | scripts/check-alembic-lineage.py:126-134 | without cycles and orphans, a passing check is right about what the merge leaves if and only if the branch deletes nothing or exposes exactly one revision |
| `Lineage.UpToDateIsRightIff` | scripts/check-alembic-lineage.py:126-134 | for a branch up to date with its base the merge leaves the branch's own graph, and a passing check is right if and only if that has one head |
| `Lineage.SiblingSplits` | scripts/check-alembic-lineage.py:126-140 | a branch that does not continue the base's head leaves two heads and fails |
| `Lineage.IndependentBranchesSplit` | scripts/check-alembic-lineage.py:4-8 | two branches that continue the same head pass alone and split together |
| `Lineage.MergeRevision` | scripts/check-alembic-lineage.py:154-158 | a new revision is the only head exactly when it names all heads and nothing names it |
| `Overhead.Allocate` | backend/app/api/admin_routes.py:536-547 | the allocation loop computes `Shares` |
| `Overhead.SharesAddUp` | backend/app/api/admin_routes.py:536-547 | the shares add up to the overhead when there is work, to nothing otherwise |
| `Overhead.SharesAreFair` | backend/app/api/admin_routes.py:541-547 | each share but the last is the floor of its proportion; the last exceeds its own by less than one per other key with work; none is negative |
| `Overhead.MoreWorkMoreShare` | backend/app/api/admin_routes.py:541-547 | less work never bears a larger share, the last key's remainder aside |
| `Overhead.BuildReport` | backend/app/api/admin_routes.py:518-571 | the report's lines and totals are the sums of the specification |
| `Overhead.TotalsAgree` | backend/app/api/admin_routes.py:549-571 | fully loaded total plus unallocated overhead is direct total plus overhead |
| `Overhead.UnitCost` | backend/app/api/admin_routes.py:551-569 | the unit cost is the fully loaded cost per piece of work, rounded down; a key without work bears nothing |
| `Overhead.ProductCogsAddUp` | backend/app/api/admin_routes.py:573-577 | the four products' costs add up to the fully loaded total |
| `Overhead.CappedCost` | backend/app/api/admin_routes.py:666-667 | the displayed host cost is below the real one exactly when the cap applies to a positive cost |
| `Overhead.Margin` | backend/app/api/admin_routes.py:631-643 | every organisation is counted once, priced or unpriced, margin plus cost is revenue, and the percentage is the machine's quotient rounded |
| `Percent.RoundsToNearest` | backend/app/api/admin_routes.py:643 | the rounded exact quotient is the nearest integer, the even one of two |
| `Percent.RoundedQuotientIsExact` | backend/app/api/admin_routes.py:643 | below 2^52, rounding the nearest double of a quotient gives the exact quotient rounded, whichever of two doubles is taken |
| `Percent.LargeQuotientMoves` | backend/app/api/admin_routes.py:643 | beyond 2^52 it does not: a quotient just below 3/2 becomes 3/2 and is rounded up |
| `Overhead.PercentIsExact` | backend/app/api/admin_routes.py:643 | so the percentage of a margin below 2^52 / 100 is the exact one |
| `Refunds.TakeStale` | workers/tasks/maintenance.py:105-127 | the stale rows are failed, the log rows are theirs in order, and the per-user sums are the log's sums |
| `Refunds.Desk.FailStaleAndRefund` | workers/tasks/maintenance.py:93-172 | the statement computes `Sweep` on jobs, credits and log, and returns the two counts |
| `Refunds.Desk.FailJobNoRetry` | workers/utils/scan_fail.py:12-43 | failing one job computes `FailOne`, rolled back when credits would go below zero |
| `Refunds.Desk.RefundCredits` | workers/utils/scan_fail.py:60-83 | a refund is paid only for a known job with a cost, a user and no refund yet |
| `Refunds.OneLogPerRefund` | workers/tasks/maintenance.py:136-149 | a sweep logs one refund for each refundable job and none for others |
| `Refunds.LoggedIsOwed` | workers/tasks/maintenance.py:119-149 | the refunds logged for a user are the sum of their refundable jobs' costs |
| `Refunds.SweepOutcome` | workers/tasks/maintenance.py:103-149 | each user gains what is owed and logged; exactly the stale jobs are failed, others untouched |
| `RefundEffects.SweepEffect` | workers/tasks/maintenance.py:93-172 | what a sweep does to each job, to each user and to the log, by the fields of the tables it started from |
| `RefundEffects.GiveUpEffect` | workers/utils/scan_fail.py:12-83 | exactly when a job given up is refunded, and the whole new state in each case |
| `Refunds.SweepTwice` | workers/tasks/maintenance.py:105-112 | repeating a sweep changes nothing and finds nothing |
| `Refunds.SweepsCommute` | workers/tasks/maintenance.py:175-205 | the pending and the running sweep commute |
| `Refunds.CreditsMatchLog` | workers/tasks/maintenance.py:124-149 | over any run each user's credits less their log total never change |
| `Refunds.RefundedAtMostOnceIff` | workers/tasks/maintenance.py:103-149 | over any run a job is refunded at most once if and only if no sweep takes it, with a cost to refund, after it was refunded |
| `Refunds.AtMostOneRefund` | workers/utils/scan_fail.py:60-83 | a refunded job that is never started again stays closed and is refunded once |
| `Refunds.SoundRunNeverRepeats` | workers/utils/scan_fail.py:60-83 | never starting a refunded job again meets the condition |
| `Refunds.CallsRefundOnce` | workers/utils/scan_fail.py:12-43 | any number of calls raises credits by the cost at most once, and not at all after a refund |
| `Refunds.RestartRefundsTwice` | workers/tasks/maintenance.py:105-127 | started again after its refund, a job is refunded a second time by the next sweep |
| `Admission.Beat.RunDueHostScans` | workers/tasks/host_protect.py:70-140 | the loop computes `Sweep` on the scan rows, with its counters, and stops at a task that cannot be sent |
| `Admission.EveryRowIsCounted` | workers/tasks/host_protect.py:84-140 | enqueued and both skip counters add up to the rows examined, and one scan is added per row enqueued |
| `Admission.ExaminedIff` | workers/tasks/host_protect.py:84-131 | examining a row adds its scan if and only if under two scans of its organisation are queued or running and every scheduled one of the site is at least 3600 or 86400 seconds old |
| `Admission.SweepCompletes` | workers/tasks/host_protect.py:84-140 | a sweep whose tasks can be sent examines every row on the table the rows before left; each counter is the number of rows with that ruling |
| `Admission.SweepBreaks` | workers/tasks/host_protect.py:84-140 | a sweep stops at the first admitted row whose task cannot be sent, with the table as it stands there |
| `Admission.SweepIsARun` | workers/tasks/host_protect.py:84-135 | a sweep is a run of row examinations, so what holds of every run holds of it |
| `Admission.CapIsKept` | workers/tasks/host_protect.py:90-102 | over any run, one sweep at a time, sweeps never raise an organisation above two in flight |
| `AdmissionRace.CapUnderConcurrency` | workers/tasks/host_protect.py:90-130 | with n sweeps at once, however their counting and inserting interleave, an organisation has at most n + 1 in flight |
| `AdmissionRace.TwoSweepsExceed` | workers/tasks/host_protect.py:90-130 | the bound is reached: two sweeps make three in flight, two of the same site at the same time |
| `AdmissionRace.SpacedIffNoClash` | workers/tasks/host_protect.py:90-130 | with any number of sweeps at once scheduled scans stay spaced if and only if no sweep inserts one closer than the interval to the last one its site has by then |
| `AdmissionRace.CapIffNoExcess` | workers/tasks/host_protect.py:90-130 | every prefix of a run stays within the cap of two if and only if no sweep inserts for the organisation while it has two in flight |
| `AdmissionRace.SweepsReach` | workers/tasks/host_protect.py:90-130 | for every n there is a run of n sweeps that ends with n + 1 in flight |
| `AdmissionRace.CapSafeIff` | workers/tasks/host_protect.py:90-130 | so the cap holds over all runs of n sweeps if and only if n is at most one |
| `Admission.ScansAreSpaced` | workers/tasks/host_protect.py:104-122 | over any run two scheduled scans of a site are at least its interval apart, whatever the clock does |
| `Admission.NothingLeftDue` | workers/tasks/host_protect.py:90-122 | after a sweep no examined site is admissible at its time |
| `Admission.RepeatAdmitsNothing` | workers/tasks/host_protect.py:84-135 | a sweep delivered again at the same times admits nothing |
| `Admission.OnlyTheOldest` | workers/tasks/host_protect.py:72-83 | an enabled site is examined exactly when fewer than the limit are older |
| `Admission.LaterSitesStarve` | workers/tasks/host_protect.py:72-83 | a site behind the limit is never scanned on schedule, over any number of sweeps |

## Left out

- AxmlRoundTrip.DecoderInvertsEncoder: leaves out files with several string pools, strings cut short by the end of the pool, and indices outside it; floats and dimensions are values of an unnamed type, which the decoder prints by their number.
- XmlConforming.ConformingReadsBackIff: is about XML 1.0 without namespaces; the decoder prints no namespace declarations, so prefixes are part of the names.
- ReaperProtocol.LedgerExplainsBalances: models committed transactions only; one that is rolled back leaves no trace in a database, so it has no step here.
- Lifecycle.CadenceDoesNotMatter: fixes the invoices; two invoices of the same due date and creation time are ordered by their place in the table.
- Reminders.RemindersOnce: is about sweeps that commit; `ReminderCrash.RemindersOnceIff` is about those that do not.
- AuditCursor.CursorFile.ReadNewAuditText: takes Python's `int` as a parameter that reads back the decimal numbers the helper writes; which other spellings it accepts is left open.
- Renewals.NextPeriod: leaves out naive timestamps (taken as UTC); the horizon is a parameter, prices, taxes and due dates are left out.
- Numbering.RunAbortsIff: models the numbering of the renewal sweep; the request path's twin in the invoice service is the same count under other transactions.
- Quarantine.CommandIdempotent: is about a delivery without operating system errors; after one, the next delivery is a first delivery.
- Quarantine.RunKeepsCopies: models regular files and directories on one volume; symbolic links, moves across volumes and other processes between the check and the move are left out.
- Jail.RootIsSpelled: takes paths of any number of leading slashes and the two-slash case as `os.path.normpath` does; file system lookups are left out.
- Watch.RequestsAreSpaced: is about writable cooldown files; `Watch.RequestsAreSpacedIff` covers the others. The hash in the file name is taken as one name per site.
- Watch.Watcher.Run: ends with the event stream; the changes still pending then (those `Watch.PendingIff` names) are dropped, as in the source. The single-pass branch is left out because it is never taken (`Watch.NoDebounceNothingPending`); so are the modification-time fallback and the lock.
- Overhead.Margin: takes the machine's division as a parameter, and leaves out the interval table behind the host cap.
- Refunds.AtMostOneRefund: leaves out the refund helpers inside the individual scan tasks, which do not look for an earlier refund.
- Admission.ScansAreSpaced: is about one sweep at a time; `AdmissionRace.SpacedIffNoClash` has the condition for several.
- Lineage.Ancestry: models the graph; parsing migration files and reading git are left out, and `heads` is a set rather than a sorted list.
- Integer widths: database integers are unbounded here; only the binary XML fields have their width.
- HTTP routes, authentication, rate limits, task queue wiring, mail and subprocess calls, signature packs, WAF parsing, price snapshots, promotions and payments: input and output, or only easy members.
