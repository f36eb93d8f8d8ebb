# Verification of the Jobs source-control protocol and its neighbours

This project models, in Dafny, the parts of the repository whose correctness spans several steps, several
writers or a whole run, and proves what they promise. `dafny verify dfyconfig.toml` checks all of it.

**Source control of the Jobs corpus.** `SourceControl` holds the two transactions, `revoke` and the fenced
insert, as the database operations they perform, one after another, on a snapshot and a set of writes;
`Interleaving` runs any number of them against a committed store with document versions, first committer wins,
abort at any time; `Safety` follows the invariants over all runs. `Lineage` has the raw posting fields, the
three revoke filters, the gate's filter and the repair of a row; `LineageRepair` is the repair run against a live
database with its marker and the compensation. `AuditHistory` and `DeployGate` are the gate: the audit machine,
the one-pass cursor, the reconciliation and the verdict; `GateMeaning` says outright what passes it. `Ledger` joins
the two: what a commit writes, the audit ledger over all runs, which transactions are refused, and runs that begin
at a store the gate has passed.

**Resumable sequences.** `Handoff` is one browser tab through any sequence of loads, reloads, answers and
retries, `HandoffClient` the client's own code from wait to wait, proved to take exactly those steps, and
`RuntimeStorage` its storage sweep. `SlugPlan`, `SlugOrder`, `SlugBackfill`, `SlugFixpoint` and `SlugVerdict` are
the sign-in slug planner, its writes, its fixpoint and when it succeeds, over the slug rules of `SignInSlug`.
`KeysetScan` is the paging that rewrites the rows it pages over; `EvidenceProvenance`, `EvidenceRepair` and
`TrackerRepair` use it.
`ResumableRuns` and `IndexSwap` are the create-verify-drop sequence that may be stopped anywhere, and
`Phase2Indexes` the preflighted creation of missing indexes, both over `Indexes`.

**Algorithms.** `JsonExtract` (the bracket scanner against a printer of RFC 8259, sections 4, 5 and 7),
`Bisect`, `Pcm`, `Binding` and `MongoAuthority` (the length-framed identity stream), `Inventory`, and
`PinnedClient` with `PinnedFetch` (the pinned client and the retry loop as a trace). `Seqs` and `Wrappers` are shared.

Parameters, with what is asked of them: SHA-256 is injective (a hash is the digest of one slug or of none);
`pinnedAddressOf`, including `isGlobalUnicastAddress`, is any function from answers to addresses;
`isModelExecutionProvenance` is a constructor of the raw value; lower-casing, trimming, Unicode folding and white
space are functions, of which only `Naming.Lawful` and nothing else is used; the clock is an argument, and so are
what the network, the permission callback, the abort signals and the JSON parser answer. That every sign-in slug
candidate parses to itself is not assumed but proved.

Where a promise does not hold of the code as it stands, the code is kept and the exact condition proved:

- A code whose authentication is ambiguous *can* be exchanged again. A run avoids it exactly when no step lets a
  page past its reset whose code has been ambiguous (`Handoff.NeverExchangedAgainIff`). A run that opens every link
  before that, or while the tab holds its record with authentication progress, always avoids it
  (`Handoff.OpenedInTimeSuffices`), and after any run that did, one more opening does exactly on that condition
  (`Handoff.OpeningKeepsPromiseIff`). Two ways lose the record: another link opened in the same tab
  (`Handoff.AnotherLinkForgets`), and the record given up, for instance on a refused session
  (`Handoff.ClearedRecordForgets`).
- Applying a slug plan fails when an unnamed workspace has a `signInSlug` that is null or empty, because the
  planner looks for a falsy value and the write for an absent field; otherwise it goes through
  (`SlugFixpoint.ApplySucceedsIff`; one such workspace alone suffices, `SlugFixpoint.FalsyFieldFails`).
- Lineage repair can release a posting from a revoke: exactly when its `sourceIds` was missing or empty and complete
  provenance names other sources (`Lineage.RepairReleasesExactly`; such a row: `Lineage.RepairCanRelease`).
- An insert keeps the restriction invariant exactly when no revoked source selects the inserted posting while it is
  open (`Safety.InsertKeepsConsistentIff`; one that is selected: `Safety.SharedPostingEscapes`); postings that carry
  only their own source always meet this.
- The deploy gate does not look for negative revisions. The store behind a passing gate meets the invariant of the
  transactions exactly when it has none (`Ledger.PassingStoreIsConsistentIff`; one that passes:
  `Ledger.NegativeRevisionPasses`).
- A marker with unsafe generations is reported only after it has been stamped, and stays stamped
  (such a marker: `LineageRepair.UnsafeMarkerIsStamped`); when nobody interferes, an apply succeeds exactly when the
  generations of the old marker are not too large (`LineageRepair.Database.Run`).
- The phase-2 preflight looks for duplicate rows under two of its three unique definitions. An apply that it lets
  through stops half-way exactly when the third is missing and has duplicate rows; the four definitions before it
  are then exact, and it and the later ones are as they were (`Phase2Indexes.Preparation.Prepare`). Such a database
  passes the preflight (`Phase2Indexes.PreflightMissesTheWave`).

## Model

| member | source | states |
|---|---|---|
| SourceControl.PassesDisjoint | scripts/smoke-jobs-source-control.ts:115-153 | The three revoke filters select pairwise disjoint postings, and together exactly those the gate holds restricted |
| SourceControl.PassesCloseRestricted | scripts/smoke-jobs-source-control.ts:232-273 | The three passes, each run only if its count was positive, close exactly the restricted postings and count each once |
| SourceControl.RevokeRealizes | scripts/smoke-jobs-source-control.ts:186-286 | All operations of the revoke callback against one snapshot fail, or leave the store and the count, that the specification of a revoke names |
| SourceControl.InsertRealizes | scripts/smoke-jobs-source-control.ts:288-350 | The same for the fenced insert, with its authority, duplicate and capacity errors |
| SourceControl.CallbackRealizes | scripts/smoke-jobs-source-control.ts:186-350 | Either callback, run to its end, has exactly its specified outcome and has written the shared meta document |
| SourceControl.CallbackStep | scripts/smoke-jobs-source-control.ts:195-282 | A callback part-way through either gets one operation further or has already failed the way the whole callback fails |
| Interleaving.CommitSeesLatest | scripts/smoke-jobs-source-control.ts:212-217 | The meta fence: a commit without a write conflict means that nothing was committed since the snapshot |
| Interleaving.Serializable | scripts/smoke-jobs-source-control.ts:186-350 | Every interleaving, each snapshot being of any store committed so far, leaves the store of the serial execution in commit order, each transaction succeeding there; rejected transactions would have been rejected there too |
| Interleaving.CommitsIffAlone | scripts/smoke-jobs-source-control.ts:303-323 | A finished attempt commits exactly when no other transaction committed since its snapshot |
| Interleaving.CommitsAreRecorded | scripts/smoke-jobs-source-control.ts:186-350 | In every run there are as many commits as committed processes, among them one of each one's operation: no conflict or abort passes for a commit |
| Safety.RevokeKeepsConsistent | scripts/smoke-jobs-source-control.ts:196-280 | A revoke keeps counters, revisions, the bound and the restriction of revoked postings |
| Safety.InsertRestrictionsIff | scripts/smoke-jobs-source-control.ts:297-345 | An insert keeps the restrictions exactly when no revoked source selects an open new posting |
| Safety.InsertKeepsConsistentIff | scripts/smoke-jobs-source-control.ts:297-345 | The same for the whole invariant: counters, bound, revisions and restrictions |
| Safety.SharedPostingEscapes | scripts/smoke-jobs-source-control.ts:297-345 | A consistent store with a revoked source, and an insert that succeeds and breaks the invariant |
| Safety.ReachableConsistent | scripts/smoke-jobs-source-control.ts:186-350 | From a consistent seed, with postings carrying only their own source, every reachable committed store is consistent |
| Safety.RevokedSourceIsFinal | scripts/smoke-jobs-source-control.ts:219-223 | After a revoke of a source commits, no later commit of any run acts for that source |
| Safety.InsertBeforeRevokeIsClosed | scripts/smoke-jobs-source-control.ts:240-250 | In every run a posting inserted before its source was revoked ends closed as source-revoked without a purge date |
| Ledger.RevokeDisables | scripts/smoke-jobs-source-control.ts:219-224 | A revoke that goes through leaves its source disabled and revoked at revision 1 and every other config as it was |
| Ledger.RevokeRecords | scripts/smoke-jobs-source-control.ts:274-280 | It adds one audit row, its own, which says "revoke", the operation id and the time, and is the action that the deploy gate expects of that revision |
| Ledger.RevokeRestricts | scripts/smoke-jobs-source-control.ts:240-273 | It closes exactly the postings it restricts, as source-revoked, dated, without a purge date, and reports their number; no other posting changes |
| Ledger.RevokeCounts | scripts/smoke-jobs-source-control.ts:196-239 | The control sequence, which was the number of audit rows, goes up by one, and the retained count is the number of postings |
| Ledger.InsertWrites | scripts/smoke-jobs-source-control.ts:288-350 | An insert adds its posting as it is, for a source in service without audit rows, and raises two write sequences and the retained count by one |
| Ledger.LatestNamesRevoked | scripts/smoke-jobs-source-control.ts:219-280 | Where ledger and configs agree, a source is revoked exactly when the row of its revision says so |
| Ledger.ReachableLedger | scripts/smoke-jobs-source-control.ts:186-350 | In every run ledger and configs stay agreed: one row for each revision of each source, naming the action of that revision |
| Ledger.RevokesAreRecorded | scripts/smoke-jobs-source-control.ts:274-280 | In every run the row of a committed revoke is there at the end, unchanged |
| Ledger.RevokeGoesThroughIff | scripts/smoke-jobs-source-control.ts:195-282 | On a sound store a revoke goes through exactly for a source in service whose operation id no row carries; otherwise the error says which of the two it was |
| Ledger.InsertGoesThroughIff | scripts/smoke-jobs-source-control.ts:297-345 | On a sound store an insert goes through exactly for a source in service, a new id and fewer than 25,000 postings; otherwise the error says which |
| Ledger.RefusalsInRuns | scripts/smoke-jobs-source-control.ts:186-350 | In every run, however interleaved, transactions are refused for these reasons alone: none for a drifted sequence, a moved fence or a corpus too large |
| Ledger.PassingLedgerAgrees | scripts/check-jobs-source-control.ts:497-551 | The store behind a passing gate has a ledger that agrees with its configs |
| Ledger.PassingStoreIsConsistentIff | scripts/check-jobs-source-control.ts:580-606 | It has the counters and restrictions of the transactions' invariant, and meets all of it exactly when no source has a negative revision |
| Ledger.NegativeRevisionPasses | scripts/check-jobs-source-control.ts:477-490 | A deployment that passes the gate with a source of negative revision |
| Ledger.RunsFromAPassingGate | scripts/check-jobs-source-control.ts:580-606 | Every run from a store that passes the gate, that case apart, keeps the invariant and the ledger |
| Lineage.PassesPartitionRestricted | scripts/check-jobs-source-control.ts:553-562 | Per row: the three filters exclude one another and their union is the gate's filter |
| Lineage.RewrittenIds | scripts/repair-jobs-source-lineage.ts:264-289 | The ids after the rewrite are the canonical ids of both fields, plus the sentinel exactly when no entry is left, something was malformed, or there were eight entries or more |
| Lineage.RewriteMeetsInvariants | scripts/repair-jobs-source-lineage.ts:264-300 | Any rewritten row, whatever its fields held, meets all three posting invariants |
| Lineage.RepairMeetsInvariants | scripts/repair-jobs-source-lineage.ts:174-182 | A repaired row needs no repair, and repairing twice is repairing once |
| Lineage.RepairKeepsCanonicalIds | scripts/repair-jobs-source-lineage.ts:267-298 | No canonical id of either field is lost, no id but the sentinel appears, and the canonical provenance entries stay |
| Lineage.RepairedRowsNeedOnlyFirstPass | scripts/smoke-jobs-source-control.ts:138-153 | On rows that need no repair the second and third revoke filters select nothing |
| Lineage.RepairReleasesExactly | scripts/repair-jobs-source-lineage.ts:273-285 | When repair takes a row out of a revoke's reach and when it brings one in, each in both directions |
| Lineage.RepairCanRelease | scripts/repair-jobs-source-lineage.ts:273-285 | A row that repair takes out of a revoke's reach |
| Lineage.ProvenanceMatchIsMembership | scripts/check-jobs-source-control.ts:558-559 | On valid provenance the path query matches exactly the ids of the entries |
| Lineage.PathQueryIff | scripts/check-jobs-source-control.ts:558-559 | On any value the path query matches exactly a lone document, or one in the array, whose id is the text or an array holding it |
| LineageRepair.CountsAreZeroIff | scripts/repair-jobs-source-lineage.ts:184-210 | The three counts are zero exactly when the repair would select no row |
| LineageRepair.RepairedRowsAreClean | scripts/repair-jobs-source-lineage.ts:264-300 | The update leaves no row that the invariants reject |
| LineageRepair.RepairedIsUnknownIff | scripts/repair-jobs-source-lineage.ts:306-309 | Which repaired rows the marker counts as of unknown lineage: those that held the sentinel or were rewritten with loss |
| LineageRepair.Database.ReadCounts | scripts/repair-jobs-source-lineage.ts:184-210 | Four queries, each answered at a moment of its own: the counts are zero exactly when each passed there; behind the drain the rows then are clean at the end |
| LineageRepair.StampsSafelyIff | scripts/repair-jobs-source-lineage.ts:330-346 | The old marker decides whether the stamped generations are safe |
| LineageRepair.UnsafeMarkerIsStamped | scripts/repair-jobs-source-lineage.ts:316-346 | A marker whose stamp is ready with unsafe generations |
| LineageRepair.Database.StampMarker | scripts/repair-jobs-source-lineage.ts:316-336 | The stamp sets version and counts and raises, never lowers, the two generations; the marker then is ready and still the one stamped |
| LineageRepair.Database.WithdrawMarker | scripts/repair-jobs-source-lineage.ts:359-368 | Only the version is removed, and only from the marker with the stamped generations and date; any other is untouched, and no generation is lowered |
| LineageRepair.Database.StampAndConfirm | scripts/repair-jobs-source-lineage.ts:306-372 | Success exactly when the generations are safe and every query of the last reading passed; after a failed reading what was stamped is ready no more, and without another repair the marker stays ready exactly if a fenced write advanced it |
| LineageRepair.Database.ApplyRepair | scripts/repair-jobs-source-lineage.ts:264-373 | Nothing is stamped unless every posting query of the verification passed; the order of writes and readings; the result behind the drain, and when nobody interferes |
| LineageRepair.Database.Run | scripts/repair-jobs-source-lineage.ts:225-374 | Whoever writes meanwhile: success means that the last reading passed on states the database was in during the run, and no generation is lowered; behind the drain and without another repair rows are clean, the marker ready, and only unsafe generations fail an apply; alone, exactly those of the old marker |
| AuditHistory.ValidateAuditHistory | scripts/check-jobs-source-control.ts:138-150 | Counts the invalid transitions; the history is valid exactly when the alternating revoke/restore machine accepts it |
| AuditHistory.ValidIffAccepted | scripts/check-jobs-source-control.ts:87-131 | A history without invalid transition is a run of the machine with revisions 1..n, and conversely |
| AuditHistory.FinishAuditHistory | scripts/check-jobs-source-control.ts:428-448 | What one source adds: its head and invalid rows, or all its rows when its id is malformed |
| AuditHistory.ScanAudits | scripts/check-jobs-source-control.ts:455-475 | The one-pass cursor yields the heads and the invalid total of grouping first |
| AuditHistory.GroupsFlatten | scripts/check-jobs-source-control.ts:450-475 | Grouping drops, repeats and moves no row |
| AuditHistory.GroupsAreGroupBy | scripts/check-jobs-source-control.ts:450-475 | On sorted rows each group holds all rows of its source, and no two groups share one |
| DeployGate.Reconcile | scripts/check-jobs-source-control.ts:497-551 | The two loops compute the tallies of every controlled source and the union of the revoked sets |
| DeployGate.CountAccessible | scripts/check-jobs-source-control.ts:553-570 | The count is zero exactly when no restricted posting of a revoked source is reachable |
| DeployGate.OrphanAudits | scripts/check-jobs-source-control.ts:490 | Zero exactly when every audit head has its controlled source |
| DeployGate.Gate | scripts/check-jobs-source-control.ts:580-606 | The gate passes exactly on the deployments its predicate describes; what those are is `GateMeaning.GateIff` |
| DeployGate.SourceAgrees | scripts/check-jobs-source-control.ts:497-548 | Behind a passing gate health, last control and latest audit agree with the parity of the revision |
| DeployGate.RevokedSetsAgree | scripts/check-jobs-source-control.ts:545-551 | Behind a passing gate the three ways of collecting revoked sources give the sources of odd revision |
| DeployGate.RevisionsSumToSequence | scripts/check-jobs-source-control.ts:580-606 | Behind a passing gate the controlled revisions add up to `controlWriteSeq` |
| DeployGate.PassingHistoriesAreRuns | scripts/check-jobs-source-control.ts:477-570 | Behind a passing gate each history is a run as long as its revision, and no posting a revoked source restricts is reachable |
| DeployGate.RevokedSourceCanPass | scripts/check-jobs-source-control.ts:580-606 | The gate's conditions can be met together, with a revoked source under control |
| GateMeaning.TallyZeroIff | scripts/check-jobs-source-control.ts:497-548 | A source's tally is clean exactly when its config and the head of its history say the same: count, revisions, operation, action, actor, reason, date, destination, and the state of that action |
| GateMeaning.GateIff | scripts/check-jobs-source-control.ts:580-606 | The gate passes exactly when the audit rows are, source by source, runs of the machine that the configs repeat, the runs of odd length withhold all postings they restrict, every posting meets the lineage invariants, and the counters are the numbers of rows and postings |
| Handoff.RunKeeps | app/handoff/handoff-client.tsx:261-495 | Over every sequence of loads, answers and retries: what the log says of a code is what storage still holds for it |
| Handoff.ExchangesAreBound | app/handoff/handoff-client.tsx:275-303 | While a code's record is kept, no exchange of it follows its ambiguous state, and every one repeats its nonce |
| Handoff.SubmissionsAreFresh | app/handoff/handoff-client.tsx:342-372 | Every submission directly follows the exchange answer that brought its ticket |
| Handoff.TicketsAreSubmittedOnce | app/handoff/handoff-client.tsx:342-372 | Over every run each ticket is submitted at most once, if the server issues none twice |
| Handoff.SeedsMatchTheExchange | app/handoff/handoff-client.tsx:406-431 | Seeding and navigation happen only for the session that the last exchange of that code returned |
| Handoff.BootstrapSeedsIff | app/handoff/handoff-client.tsx:406-431 | After any run the answer of the bootstrap seeds the interview exactly when it is for the session of the code's last exchange; the page is then in the lobby exactly when seeding did not throw |
| Handoff.OtherAnswers | app/handoff/handoff-client.tsx:304-321 | What every other answer to the exchange and the bootstrap leaves: the record given up and the view that says why, or all as it was for a retry |
| Handoff.ResetAnswers | app/handoff/handoff-client.tsx:281-303 | After any run: the reset lets the exchange out under the page's code and nonce exactly when it went through now or before; the reset after a mismatch ends in a failed session |
| Handoff.LinkReachesLobby | app/handoff/handoff-client.tsx:261-431 | After any run, a link whose record with progress is not held, a ticket issued and a matching bootstrap lead to the lobby, whatever became of the sign-in's own answer |
| Handoff.RecordResumes | app/handoff/handoff-client.tsx:445-495 | A tab that holds its record with progress asks for the bootstrap at once and expects the session of that record |
| Handoff.OpeningExchangesIff | app/handoff/handoff-client.tsx:440-469 | Opening a link starts an exchange exactly when its record with progress is not held |
| Handoff.NeverExchangedAgainIff | app/handoff/handoff-client.tsx:275-303 | Over every run: no code is exchanged after its ambiguous state exactly when no step lets a page past its reset whose code has been ambiguous |
| Handoff.OpenedInTimeSuffices | app/handoff/handoff-client.tsx:450-469 | Whatever else happens, that holds when every link is opened before it was ambiguous or while its record with progress is held |
| Handoff.OpeningKeepsPromiseIff | app/handoff/handoff-client.tsx:450-469 | After any run that kept the promise, one more opening keeps it exactly on that condition |
| Handoff.AnotherLinkForgets | app/handoff/handoff-client.tsx:462-469 | A run in which a code is exchanged again after its ambiguous state, because another link was opened |
| Handoff.ClearedRecordForgets | app/handoff/handoff-client.tsx:388-392 | Another one, without a second link: the record was given up |
| HandoffClient.Client.CompleteHandoff | app/handoff/handoff-client.tsx:261-281 | The refs and storage after the code up to the first wait are those of the state machine |
| HandoffClient.Client.OnExchange | app/handoff/handoff-client.tsx:304-363 | Likewise from the exchange's answer to the submission of its ticket |
| HandoffClient.Client.OnBootstrap | app/handoff/handoff-client.tsx:384-431 | Likewise for every answer of the bootstrap, with the comparison of the sessions |
| HandoffClient.Client.TakeLink | app/handoff/handoff-client.tsx:445-469 | Mounting with a code resumes its record with its nonce, or starts over with a fresh one |
| HandoffClient.Client.Handle | app/handoff/handoff-client.tsx:261-495 | On every event the client does what the state machine does |
| HandoffClient.Live | app/handoff/handoff-client.tsx:261-495 | Over every sequence of events the client's log is that of the run, so every exchange, submission and seeding in it is justified |
| RuntimeStorage.Storage.ClearRuntimeInterview | app/handoff/handoff-client.tsx:208-219 | The backward sweep removes every key of the engine, bare or scoped, skips none, and keeps the others in order |
| RuntimeStorage.Storage.SeedRuntimeInterview | app/handoff/handoff-client.tsx:221-245 | After seeding the two copies of the configuration are the only engine keys, and other keys are untouched |
| SignInSlug.CandidatesParse | modules/hire/models/HireWorkspaceSignInSlug.ts:103-115 | For every company name there are four candidates, each of which parses to itself |
| SignInSlug.ParsesToItselfIff | modules/hire/models/HireWorkspaceSignInSlug.ts:64-67 | A string parses to itself exactly when it is a sign-in slug: 2 to 48 letters, digits and single inner hyphens, no ObjectId, no punycode, no reserved word |
| SignInSlug.BaseIsAllowed | modules/hire/models/HireWorkspaceSignInSlug.ts:76-92 | The base slug is allowed, with or without the company prefix |
| SignInSlug.SuffixedIsAllowed | modules/hire/models/HireWorkspaceSignInSlug.ts:95-100 | Cutting a base and adding a hexadecimal suffix gives an allowed slug |
| SignInSlug.CandidateForms | modules/hire/models/HireWorkspaceSignInSlug.ts:103-115 | The four candidates: the base, its beginning with the last eight and with the last twelve digits of the id, and `workspace-` with the whole id |
| SignInSlug.LastCandidateIsOwn | modules/hire/models/HireWorkspaceSignInSlug.ts:103-115 | Workspaces with different ids never share their last candidate |
| SignInSlug.BaseKeepsLetters | modules/hire/models/HireWorkspaceSignInSlug.ts:76-92 | The base is the hyphenated name where that is allowed, and it keeps every letter and digit in order; a short name that is not allowed gets the company prefix |
| SignInSlug.AllowedIsItsBase | modules/hire/models/HireWorkspaceSignInSlug.ts:79-92 | A folded name that is allowed is its own base |
| SlugPlan.PlanAssignments | scripts/prepare-hire-workspace-signin-slugs.ts:160-244 | The loops compute the specified plan, or the first error in the source's order |
| SlugPlan.FirstFreeIsFirst | scripts/prepare-hire-workspace-signin-slugs.ts:219-223 | The candidate taken is the first free one; none is taken only when all are occupied |
| SlugPlan.SignInPolicyIsLawful | modules/hire/models/HireWorkspaceSignInSlug.ts:64-115 | The slug rules in use satisfy what the planner's theorems ask |
| SlugOrder.PlanIsOrderless | scripts/prepare-hire-workspace-signin-slugs.ts:164-169 | Success and plan do not depend on the order in which either collection is read |
| SlugVerdict.PlanSucceedsIff | scripts/prepare-hire-workspace-signin-slugs.ts:160-244 | The planner succeeds exactly when every reservation is valid and, if active, worn by its owner, every slug in use parses to itself and is its workspace's alone, and every workspace without one finds a candidate |
| SlugBackfill.ScanSettles | scripts/prepare-hire-workspace-signin-slugs.ts:175-207 | A scan that succeeds has found valid, pairwise distinct slugs without reservation conflict |
| SlugBackfill.AssignFits | scripts/prepare-hire-workspace-signin-slugs.ts:218-241 | Every unnamed workspace gets a candidate of its own that nobody holds, pairwise distinct |
| SlugBackfill.Backfill.Apply | scripts/prepare-hire-workspace-signin-slugs.ts:399-435 | The transaction performs all writes or none |
| SlugBackfill.WritesGoThroughIff | scripts/prepare-hire-workspace-signin-slugs.ts:403-430 | Independent writes of unreserved hashes go through exactly when every workspace to write still lacks the field; otherwise the error names one that has it |
| SlugBackfill.WritesLeave | scripts/prepare-hire-workspace-signin-slugs.ts:403-430 | What they leave in both collections, workspace by workspace |
| SlugFixpoint.PlanIsFresh | scripts/prepare-hire-workspace-signin-slugs.ts:168-240 | No planned hash belongs to an active or retired reservation, and all are pairwise distinct |
| SlugFixpoint.ApplySucceedsIff | scripts/prepare-hire-workspace-signin-slugs.ts:415-428 | Applying a successful plan goes through exactly when no unnamed workspace has the field at all |
| SlugFixpoint.FalsyFieldFails | scripts/prepare-hire-workspace-signin-slugs.ts:415-428 | Under the slug rules in use, the plan for one workspace with a null or empty slug succeeds and cannot be applied |
| SlugFixpoint.ReplanIsEmpty | scripts/prepare-hire-workspace-signin-slugs.ts:463-471 | After applying, planning again gives no assignment, all slugs are distinct, and nothing that was named or reserved has changed |
| KeysetScan.PageIsSelected | scripts/repair-jobs-evidence-provenance.ts:237-247 | A page is what the filter selects of the rows it walks over; a short page has walked over all |
| KeysetScan.Advance | scripts/repair-jobs-evidence-provenance.ts:237-249 | One page moves the scan past the rows it walked over, with the cursor behind exactly those |
| KeysetScan.Collection.ScanBatches | scripts/repair-jobs-evidence-provenance.ts:230-250 | Whatever the visits write, every row of the filter at the start is visited once, in id order, and rewritten once |
| EvidenceProvenance.CollectUniqueExecutions | scripts/repair-jobs-evidence-provenance.ts:116-131 | Accepts exactly lists of acceptable executions without a repeated fingerprint |
| EvidenceProvenance.UpToDateRestsOnCurrent | scripts/repair-jobs-evidence-provenance.ts:147-183 | A current snapshot rests on current executions of the right kind without fallback, at the current epoch |
| EvidenceProvenance.ReadinessStateIff | scripts/repair-jobs-evidence-provenance.ts:147-183 | Each state of a snapshot in both directions; up to date exactly when it is well formed, of the current epoch, and names only current executions |
| EvidenceProvenance.EvidenceStateIff | scripts/repair-jobs-evidence-provenance.ts:86-114 | Each state of an evidence row in both directions, on the raw fields |
| EvidenceRepair.CountsDecide | scripts/repair-jobs-evidence-provenance.ts:201-217 | The counts pass exactly on the invariant, and refuse exactly on a malformed row or unsafe revision |
| EvidenceRepair.SelectedCounts | scripts/repair-jobs-evidence-provenance.ts:278-292 | Reading only rows with readiness counts what all rows would |
| EvidenceRepair.QuarantineCounts | scripts/repair-jobs-evidence-provenance.ts:335-363 | The quarantined count rises by exactly the legacy count; the others keep theirs |
| EvidenceRepair.RepairRestoresInvariant | scripts/repair-jobs-evidence-provenance.ts:296-363 | Both passes over a repairable state leave the invariant true |
| EvidenceRepair.RepairRewritesExactly | scripts/repair-jobs-evidence-provenance.ts:296-363 | Exactly the well-formed snapshots that name current executions are kept, untouched; any other is removed and its revision raised by one, from none to 1; exactly the undeclared rows are declared legacy |
| EvidenceRepair.SafeIffRaisable | scripts/repair-jobs-evidence-provenance.ts:192-199 | A revision is safe exactly when its successor is a positive integer that is still exact |
| EvidenceRepair.Repair.Inspect | scripts/repair-jobs-evidence-provenance.ts:252-294 | The two scans count every row once and change nothing |
| EvidenceRepair.Repair.Run | scripts/repair-jobs-evidence-provenance.ts:365-409 | Refused without a change, or the invariant restored with exactly the snapshots removed that do not rest on current executions, each revision raised by one, and exactly the undeclared rows declared |
| TrackerRepair.GroupByUser | scripts/repair-jobs-tracker-status.ts:68-75 | One group for each user, holding that user's candidates in order |
| TrackerRepair.RemainingAreInactive | scripts/repair-jobs-tracker-status.ts:112-148 | What is still invalid afterwards is exactly what belongs to inactive accounts |
| TrackerRepair.Tracker.RepairPages | scripts/repair-jobs-tracker-status.ts:97-143 | Every selected row of an active account is corrected once, and no other row changes |
| TrackerRepair.Tracker.Run | scripts/repair-jobs-tracker-status.ts:77-150 | An apply passes exactly when no row ghosted by mistake belongs to an inactive account; such rows of active accounts go back to the apply click with one more history entry, and no other row changes |
| ResumableRuns.Resume | scripts/prepare-hire-ingestion-revision-protocol.ts:326-349 | A stopped run started again is the run that was not stopped |
| IndexSwap.LegacyUniqueCannotBlock | scripts/prepare-hire-ingestion-revision-protocol.ts:109-158 | Rows that satisfy the legacy key satisfy the key that extends it |
| IndexSwap.SwapsAreWellPlanned | scripts/prepare-hire-ingestion-revision-protocol.ts:109-176 | Each definition has its own collection, and its key extends its legacy key |
| IndexSwap.Migration.CreateAndSwap | scripts/prepare-hire-ingestion-revision-protocol.ts:326-349 | The loop, stopped before any action, is the specified run |
| IndexSwap.StaysGuarded | scripts/prepare-hire-ingestion-revision-protocol.ts:326-349 | Wherever the run stops or fails, a definition that began guarded has its legacy or its new unique index |
| IndexSwap.StaysUnique | scripts/prepare-hire-ingestion-revision-protocol.ts:240-349 | The same in the index's own terms: wherever the run ends, a unique index under the new or the legacy key is there for a definition that began with its legacy one |
| IndexSwap.FinishedIsUnique | scripts/prepare-hire-ingestion-revision-protocol.ts:240-349 | A finished run leaves the unique index of every definition under its name and key, and none under a legacy name |
| IndexSwap.SwapsAreResumable | scripts/prepare-hire-ingestion-revision-protocol.ts:329-347 | Every definition's turn can be resumed and is not undone by the others |
| IndexSwap.ClearRunFinishes | scripts/prepare-hire-ingestion-revision-protocol.ts:326-349 | With nothing in the way two actions a definition suffice, and every legacy index is gone |
| IndexSwap.AnyStopReachesTheSame | scripts/prepare-hire-ingestion-revision-protocol.ts:326-349 | A second run from any stopping point reaches the indexes of an uninterrupted run |
| Phase2Indexes.DefinitionsAreWellPlanned | scripts/prepare-hire-phase2-indexes.ts:110-218 | No two of the fourteen definitions share a name or key within a collection |
| Phase2Indexes.PreflightIff | scripts/prepare-hire-phase2-indexes.ts:466-483 | The preflight passes exactly when every definition is exact or wholly missing |
| Phase2Indexes.FinalCheckIff | scripts/prepare-hire-phase2-indexes.ts:485-495 | The final check passes exactly when every definition is exact |
| Phase2Indexes.VerdictsIff | scripts/prepare-hire-phase2-indexes.ts:466-495 | Both checks on the raw lists of indexes: each definition there once with all its options and no others and no second index of its key, or, for the preflight, nothing of its key and name |
| Phase2Indexes.CreatesMissing | scripts/prepare-hire-phase2-indexes.ts:590-596 | Creating a missing definition never clashes and makes it exact |
| Phase2Indexes.CreateKeepsOthers | scripts/prepare-hire-phase2-indexes.ts:590-596 | It leaves the inspection of every other definition as it was |
| Phase2Indexes.PreflightMissesTheWave | scripts/prepare-hire-phase2-indexes.ts:584-589 | A database that passes the preflight and lacks the unique index that is not checked for duplicate rows |
| Phase2Indexes.Preparation.CreateMissing | scripts/prepare-hire-phase2-indexes.ts:590-596 | All goes through exactly when no missing unique definition has duplicate rows; otherwise what the stop leaves; nothing existing changes; a second run creates nothing |
| Phase2Indexes.Preparation.Prepare | scripts/prepare-hire-phase2-indexes.ts:554-601 | The verdict of every mode, what is left unchanged, exactly when an apply stops, and what it then leaves |
| JsonExtract.ExtractJSON | shared/utils.ts:17-43 | The loop computes the specified extraction |
| JsonExtract.ExtractsPrintedValue | shared/utils.ts:17-36 | Any preamble without an opening bracket, any printed object or array, any suffix: the extraction is the printed value |
| JsonExtract.CutFallsBack | shared/utils.ts:17-42 | Any such object or array cut short anywhere behind its bracket is left to the fallback |
| JsonExtract.FallbackIsBare | shared/utils.ts:38-42 | The fallback leaves no code fence and no white space at either end |
| JsonExtract.UnbracketedIsKept | shared/utils.ts:17-21 | A reply without an opening bracket is given back as it is |
| JsonExtract.FallbackKeepsUnfenced | shared/utils.ts:38-42 | Of a reply without a code fence the fallback takes away white space at the ends only |
| JsonExtract.FallbackKeepsFenced | shared/utils.ts:38-42 | Of a fenced reply, closed or cut short, tagged or not, it keeps the text between the fences but for white space at its ends |
| Bisect.BisectLastLE | shared/utils.ts:49-63 | On sorted offsets the result splits them at the target; on others it is still -1 or a position at most the target |
| Pcm.ConvertInRange | public/pcm-processor.js:64-65 | Conversion never leaves 16 bits and reaches the ends exactly at full scale |
| Pcm.ConvertMonotone | public/pcm-processor.js:64-65 | Conversion keeps order and sign |
| Pcm.PCMProcessor.Store | public/pcm-processor.js:64-77 | One sample more, and a transferred buffer is replaced |
| Pcm.PCMProcessor.Process | public/pcm-processor.js:53-80 | Posted chunks of 4096 followed by the filled part of the buffer are the conversion of all samples in order |
| PinnedClient.VetAnswers | shared/pinnedHttpClient.ts:214-229 | One unsafe answer rejects all; otherwise each pinned address once, in order of first appearance |
| PinnedClient.ResolvePinnedAddresses | shared/pinnedHttpClient.ts:184-230 | The resolution in every case, and that addresses are never empty or repeated |
| PinnedClient.ResolutionIsVetted | shared/pinnedHttpClient.ts:184-230 | A resolution that succeeds has pinned every answer of the literal or of DNS, and names the pinned answers and no others |
| PinnedClient.ReadCappedBody | shared/pinnedHttpClient.ts:304-323 | The whole body exactly when it fits the cap, never a part of it |
| PinnedClient.ConnectInOrder | shared/pinnedHttpClient.ts:446-478 | Every event is the next one that permission, connection and abort signals prescribe; the first vetted addresses in order, as many as reported; a failure that may be retried has tried all of them up to the cap |
| PinnedClient.PinnedRequest | shared/pinnedHttpClient.ts:418-479 | The whole run of one request in every world: what is resolved, asked and connected is what resolution, permission callback and network answered; sockets counted exactly, at most the cap |
| PinnedFetch.OneAttempt | shared/fetchJSONWithRetry.ts:92-173 | The events of one attempt, its classification, and the attempts it adds |
| PinnedFetch.FetchJSONWithRetry | shared/fetchJSONWithRetry.ts:57-196 | Over every world: the trace is the one the world's answers prescribe event by event, the result the one it ends with; attempts equal connections, at most retries times the cap; nothing follows a stopping event |
| PinnedFetch.EndIsUnique | shared/fetchJSONWithRetry.ts:57-196 | In each world only one trace and one result meet that |
| PinnedFetch.ConnectionsAreVetted | shared/pinnedHttpClient.ts:446-463 | Behind every connection: a resolution all of whose answers are safe, one of them pinned to its address, and, directly before it, a callback of its own that returned neither false nor a rejection and did not throw |
| PinnedFetch.ConnectionsAreAdmitted | shared/pinnedHttpClient.ts:418-433 | Nothing is connected but for an https URL, a GET without a body or a POST, and a positive exact body cap |
| PinnedFetch.EndingsAreDecided | shared/fetchJSONWithRetry.ts:104-163 | Authority lost exactly when the last callback returned false or threw, rejected exactly with the rejection it returned, fetched exactly when the body parsed, with the status 200 to 299 of the last connection |
| PinnedFetch.PausesAreWorthIt | shared/fetchJSONWithRetry.ts:174-192 | The fetch pauses only without an abort, with attempts left, and after an attempt that tried all it could and may be retried |
| PinnedFetch.GivesUpOnlyWhen | shared/fetchJSONWithRetry.ts:174-196 | It fails only on an abort, on an answer or one of the named codes that is not to be retried, or after the last of its attempts |
| PinnedFetch.FailureNamesItsCause | shared/fetchJSONWithRetry.ts:115-173 | What a failure reports is what the world answered last: the code of DNS or of the connection, the timeout, the status, or the body |
| PinnedFetch.NoConnectionAfter | shared/fetchJSONWithRetry.ts:104-163 | No connection follows an authority change, a rejection, a success that was read, or a status below 500 other than 429 |
| Binding.UnitsOfScalars | scripts/inventory-hire-candidate-bulk-operations.ts:362 | A well-formed UTF-16 text is determined by its scalar values |
| Binding.Utf8Injective | scripts/inventory-hire-candidate-bulk-operations.ts:362 | UTF-8 is injective on scalar values |
| Binding.UnframeStream | scripts/inventory-hire-candidate-bulk-operations.ts:358-367 | Reading frames back inverts the framing, whatever their number and lengths |
| Binding.UpdateLengthFramed | scripts/inventory-hire-candidate-bulk-operations.ts:358-367 | What carried some frames then carries one more, readable again; a length of 2^32 and more is refused |
| Binding.FeedFields | scripts/inventory-hire-candidate-bulk-operations.ts:396-399 | The loop feeds exactly the framed names and values |
| Binding.FeedIdentity | scripts/inventory-hire-candidate-bulk-operations.ts:369-401 | The bytes fed for an identity are read back as its fourteen names and values |
| Binding.EqualFields | scripts/inventory-hire-candidate-bulk-operations.ts:380-399 | Equal streams mean equal values, field by field |
| Binding.StreamDeterminesIdentity | scripts/inventory-hire-candidate-bulk-operations.ts:369-401 | The stream determines all thirteen inputs |
| MongoAuthority.JoinInjective | scripts/inventory-hire-candidate-bulk-operations.ts:330 | Joining host texts by commas loses nothing |
| MongoAuthority.AuthorityIffSameHosts | scripts/inventory-hire-candidate-bulk-operations.ts:316-331 | The authority text is equal exactly when the lower-cased host sets are |
| MongoAuthority.HostAuthorityFailsIff | scripts/inventory-hire-candidate-bulk-operations.ts:284-292 | It is refused exactly when no host is named, or one is empty or holds a separator |
| MongoAuthority.CanonicalAuthorityFailsIff | scripts/inventory-hire-candidate-bulk-operations.ts:294-345 | A client is refused exactly for its hosts or SRV name, an empty replica option, or its service name |
| MongoAuthority.SameAuthorityIff | scripts/inventory-hire-candidate-bulk-operations.ts:312-345 | Two clients have the same authority exactly when they name the same servers and agree in service, replica option and flags |
| MongoAuthority.StreamIffSameServers | scripts/inventory-hire-candidate-bulk-operations.ts:312-401 | The binding feeds equal bytes exactly for the same deployment and the same servers |
| MongoAuthority.ConstantsSpell | scripts/inventory-hire-candidate-bulk-operations.ts:308-343 | The code units of the scheme, the default service and the flags spell their texts |
| Inventory.UnresolvedMeansWorkRemains | scripts/inventory-hire-candidate-bulk-operations.ts:634-709 | An accepted row is unresolved exactly when queued or processing, and exactly when something remains |
| Inventory.InspectIff | scripts/inventory-hire-candidate-bulk-operations.ts:634-709 | A row is accepted exactly when it has an id, both states and counters of 1 to 5000 items, each in one place, that its status allows; it is entered as it is |
| Inventory.CountersDetermineStatus | scripts/inventory-hire-candidate-bulk-operations.ts:667-690 | The counters determine the status, except that an untouched operation may be called queued or processing |
| Inventory.Accumulator.Finalize | scripts/inventory-hire-candidate-bulk-operations.ts:722-752 | Succeeds exactly on the expected number of rows, with every collected entry kept and sorted |
| Inventory.Summarize | scripts/inventory-hire-candidate-bulk-operations.ts:754-764 | A summary exists exactly when every row is well formed and their number is the expected one; it lists each unresolved operation as often as it was read |

## Left out

- The hand-written commit orders of the smoke script's `main`: they repeat the two transactions inline with a reduced posting update; the barriers that force the orders, the timing thresholds and the 60,000-row run are not modelled.
- SourceControl: MongoDB itself. A transaction is a snapshot and a write set, a write conflict is any change of a written document since the snapshot, found at commit; aborts for any other reason may happen at any time. One reading of the clock serves `closedAt` and the audit row of an attempt.
- Lineage: `$setUnion` gives the ids in an order nothing here depends on; the pattern's `$` is the end of the text; numbers, dates and other BSON values are told apart only from texts, arrays and documents.
- LineageRepair.Database.Run: all rows are rewritten at one moment, and counts that are only printed are left out. While writers that bypass the fence are about, the four queries may pass on four different states, so that clean rows are promised only behind the drain, and a ready marker only without another repair.
- DeployGate: the index and topology probes are booleans; dates, actors and reasons are compared as opaque values; revisions that are not whole numbers count as no number.
- HandoffClient: codes, nonces, tickets and ids stand for strings that match their patterns, an absent or malformed one is missing; storage that throws, two `completeHandoff` calls at once, and the clearing of the replay database are not modelled.
- RuntimeStorage.Storage.ClearRuntimeInterview: removing a key is taken to leave the order of the other keys as it was.
- SlugPlan: workspace ids are numbers in the order of their hexadecimal text; the index checks of the slug script repeat those of `Phase2Indexes` in a simpler form.
- EvidenceRepair.Repair.Run: without concurrent writers, so the compare-and-set filters of the writes always match; progress counts that are only printed are left out, as in TrackerRepair.Tracker.Run.
- TrackerRepair.Tracker.Run: whether an account is active is fixed for the run; history entries without a status or a source are not modelled.
- IndexSwap: a create fails when its name or its key is taken by another index; the backfill of the attempt numbers and the drain window are not modelled.
- Indexes: a default index name is taken to determine its key pattern.
- JsonExtract: raw text whose first bracket begins neither a printed value nor the beginning of one is covered by the specification of the scanner only; numbers and literals are printed as their texts.
- Bisect.BisectLastLE: arrays of at most 2^31 elements, for which the unsigned shift is exact.
- Pcm: samples are real numbers, so NaN is not among them; the transfer of the buffer is its replacement by a fresh one.
- PinnedClient: URL canonicalisation, header filtering, TLS, content encodings and the check of the remote address are inside the answer of a connection; an abort is looked at where the code looks at it.
- PinnedFetch: backoff times, logging and the composition of error texts.
- Binding: the HMAC over the stream and the comparison of digests; an unpaired surrogate is encoded as the replacement character, so texts that are not well formed are determined only up to their scalar values.
- Inventory: the sentinel document, the collection identity and the snapshot session.
- Pages, layouts, middleware, the interview engine, pricing and launch scripts, and the index scripts that repeat the phase-2 pattern.
