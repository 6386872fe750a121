# Verification of the launcher's readers, protocols and transactions

A Dafny 4.11 model of the parts of the launcher that are algorithms or protocols, with proofs of what
they promise. `dafny verify dfyconfig.toml` checks all of it.

| files | component |
|---|---|
| `Bytes`, `Utf8`, `Text`, `TextOrder`, `JsonValue` | octets, RFC 3629 well-formedness, cutting at `=`, octet order, value trees and what they mean |
| `JsonReader`, `JsonParser` | the strict reader of `internal/fragment/json.go`: suffix functions, and the parser object proved equal to them |
| `Ccj1`, `JsonRoundTrip`, `JsonRange`, `JsonCanonical` | the CCJ-1 printer and its inverse relation with the reader |
| `JsonGrammar`, `JsonGrammarRead`, `JsonGrammarExact`, `JsonShortest` | RFC 8259 as a grammar of written documents, apart from reader and printer: the reader accepts just its spellings, and canonical bytes are the shortest of them |
| `WireLexer`, `WireGrammar`, `WireMachine`, `WireReader` | the tokenizer, the explicit-stack grammar machine and the tree builder of `internal/memberwire/lex.go`, refined to the strict reader |
| `HostedDigest` | the self-verifying digest of `internal/hosted` |
| `Journal`, `JournalSafety`, `JournalBudget`, `Namespace` | the recovery journal as a crash-prone protocol over single system calls |
| `MigratePlan`, `MigrateTransaction`, `MigrateApply`, `MigrateIdempotent` | the migration planner, its apply with rollback, and migrating twice |
| `Lease`, `LeaseReturns`, `LeaseOwner` | the gateway lease, the return of every Finish, and the held signals, as interleaved steps |
| `NativeArgs` | the option-tail scan against a full option parser |
| `StatusDrain` | the framed status stream |
| `GatewayEnv` | environment composition against the gateway's last check |
| `MemberProject`, `Descriptors`, `CustodyAccount`, `Custody` | bounded declarations, the descriptors of a process with a record of what they answered, and custody of a collection |

Code that loops or updates fields is a method or a class proved equal to a function of its inputs or of
the old state; the properties are lemmas about those functions. Protocols are state machines: a run is a
list of events, an event carries the result of the call it stands for, and a theorem about all lists of
events is a theorem about all failures, crashes and interleavings. A step that cannot happen in a state
leaves the state alone.

How the environment enters:

- Hash, JSON struct encoder, option tables, refused and proxy names, case folding, record validator,
  platform flags and each layer's derivation of files to copy are parameters; results hold for all of
  them, under the conditions each `requires` names.
- Every system call of the journal, the migration and the descriptor custody answers anything the call
  could answer. In the journal a rename or unlink that reports an error may still have happened, a
  process may die between any two calls, and a crash leaves any view of a directory since its last sync.
- In the custody model a close gives its descriptor up even when it reports an error. Every answer goes
  into a ghost record that only the kernel's own methods write, so what a success looked at is what the
  record holds, not what a contract claims.
- That nothing is refused without cause is stated for an environment that works: a journal whose calls
  succeed (`calm`), a file system that fails no call (`reliable`), a directory nobody disturbs (`tree`).
- A critical section of the lease is several steps under a modelled mutex; a check of the clock and the
  start of the attempt it admits are one step.

What turned out not to hold as documented:

- Migrating twice is not always migrating once (`internal/migrate/migrate.go:379-389`). Two layers may
  have one destination, as with `XDG_CONFIG_HOME=/etc` under root, since `cmd/curator-run/main.go:93-100`
  does not compare them. `MigrateIdempotent.SharedDestinationFails` is such an input: the first migration
  succeeds and the second refuses. `MigrateIdempotent.MigrationIsIdempotent` says when: planning again plans
  nothing exactly when no two layers derive different bytes for one path, and
  `MigrateIdempotent.ApartLayersAgree` shows that distinct destinations are enough. Nothing is lost, and a
  failure leaves everything as it was, in either case.
- `internal/netproxy/lease.go:109-110` says that no activation attempt starts once the window has passed.
  The activate loop keeps to that, but a renewal that finds the session pending activates again with no
  deadline (`internal/netproxy/lease.go:144-145`). `Lease.WindowKeptExactly` shows that only the empty
  window is kept by every run, and `Lease.WindowKeptFrom` that for a lease started inside its window some
  run always breaks it (`Lease.LateActivation` is one). `Lease.WindowExactly` says which runs keep it, and
  `Lease.OnlyFirstActivationInWindow` which attempts do when the window is no longer than the renewal period.
- That a sent register request stays backed by its envelope until pruning removes it needs a bound on how
  long an issuing caller may wait. `JournalBudget.RegisterGuaranteeExactly` shows that seven awake days, the
  retention interval, is the exact bound; the launcher's own thirty seconds are within it. What the journal
  says about evidence, torn entries and outcomes holds for every deadline.

## Model

| member | source | states |
|---|---|---|
| Utf8.ValidIsWellFormed | internal/fragment/json.go:112-116 | the octet automaton accepts exactly the concatenations of RFC 3629 section 4 characters |
| Utf8.EncodeDecode | internal/fragment/json.go:357-379 | encoding a scalar gives one grammar character that decodes to it |
| JsonParser.ParseJson | internal/fragment/json.go:112-127 | the parser object reads a document exactly as the suffix reader does, error cases included |
| JsonParser.Parser.ParseValue | internal/fragment/json.go:149-178 | one value: same result and same end position as the suffix reader, at every depth |
| JsonParser.Parser.ParseObject | internal/fragment/json.go:188-235 | the member loop, duplicate keys refused, equals the recursive reading |
| JsonParser.Parser.ParseArray | internal/fragment/json.go:237-267 | the element loop equals the recursive reading |
| JsonParser.Parser.ParseNumber | internal/fragment/json.go:269-317 | integers without leading zeros, fraction or exponent, up to 2^53-1 in magnitude |
| JsonParser.Parser.ParseMagnitude | internal/fragment/json.go:276-312 | the digits scanned, bounded and accumulated |
| JsonParser.DigitsValue | internal/fragment/json.go:302-316 | the accumulation gives the decimal value and never leaves an int64 |
| JsonParser.Parser.ParseString | internal/fragment/json.go:323-389 | the string loop with every escape and surrogate pair |
| JsonParser.Parser.ParseEscape | internal/fragment/json.go:337-382 | one escape, exactly as the reader function reads it, which `JsonGrammarExact.TextsAreRead` ties to the written forms |
| JsonParser.Parser.ParseHex4 | internal/fragment/json.go:391-413 | four hex digits or nothing consumed |
| Ccj1.WriteCanonical | internal/fragment/ccj1.go:28-39 | the printing loops produce the canonical bytes: keys sorted, top-level sig dropped |
| Ccj1.AppendCanonical | internal/fragment/ccj1.go:41-85 | appends exactly the printed normal form to what was there |
| Ccj1.AppendObject | internal/fragment/ccj1.go:63-80 | the sorted key list and the key map print the members in key order |
| Ccj1.AppendString | internal/fragment/ccj1.go:87-115 | the octet loop appends the escaped string |
| JsonRoundTrip.ReadPrinted | internal/fragment/ccj1.go:41-115 | reading a printed value back gives it and stops where it ended, at any depth that has room for it |
| JsonRoundTrip.ReadPrintedText | internal/fragment/ccj1.go:87-115 | every octet string survives escaping and reading |
| JsonRoundTrip.ReadPrintedInt | internal/fragment/ccj1.go:50-51 | every safe integer survives printing and reading |
| JsonRange.ReadValueAdmissible | internal/fragment/json.go:149-389 | whatever is read from valid UTF-8 has valid strings, unique keys, safe integers and bounded depth |
| JsonGrammarExact.TextsAreRead | internal/fragment/json.go:323-413 | a string written with raw octets, two-character escapes and hex digits of either case, surrogate pairs above U+FFFF, is read as the characters so written, or refused exactly when they are not UTF-8 |
| JsonGrammar.TextIsRead | internal/fragment/json.go:323-389 | every spelling of a text is read as that text, wherever it stands; a written U+0000 is what the stricter reader refuses |
| JsonGrammar.ReadText | internal/fragment/json.go:323-389 | whatever string body is read, some spelling of its text stood there |
| JsonGrammarRead.TreeIsRead | internal/fragment/json.go:149-321 | every spelling of a value, whitespace anywhere the grammar has it, is read as that value |
| JsonGrammarExact.ReadTree | internal/fragment/json.go:149-321 | whatever value is read, a spelling of it stood there |
| JsonGrammarExact.ReadsExactly | internal/fragment/json.go:112-389 | a document is read as a value exactly when it spells it and the value is admissible: valid UTF-8, unique keys, safe integers, bounded depth |
| JsonCanonical.ReadInvertsPrint | internal/fragment/json.go:112-127 | printing any admissible value and reading the document gives exactly it |
| JsonCanonical.ReaderRange | internal/fragment/json.go:112-389 | the admissible values are exactly the ones some document reads to |
| JsonCanonical.CanonicalReadsBack | internal/fragment/ccj1.go:28-83 | canonical bytes read back to the value with keys sorted and sig dropped, with the same meaning |
| JsonCanonical.CanonicalIdempotent | internal/fragment/ccj1.go:28-39 | reading canonical bytes and printing again changes nothing |
| JsonCanonical.PrintInjective | internal/fragment/ccj1.go:41-115 | printed bytes determine the value they were printed from |
| JsonCanonical.CanonicalExactly | internal/fragment/ccj1.go:28-83 | two values share canonical bytes exactly when they mean the same apart from a top-level sig |
| TextOrder.LessExactly | internal/fragment/ccj1.go:20-27 | the key order: equal up to some octet, and there the first ends or has the smaller octet |
| JsonCanonical.NormAscends | internal/fragment/ccj1.go:63-80 | in every object at every level the keys ascend in that order |
| JsonCanonical.CanonicalAscends | internal/fragment/ccj1.go:28-83 | canonical bytes read back with the keys of every object ascending |
| JsonShortest.PrintIsShortest | internal/fragment/ccj1.go:41-115 | no document that reads to a value is shorter than its printed form, and the only one as short with lower-case hex digits is that form |
| JsonShortest.CanonicalIsShortest | internal/fragment/ccj1.go:20-39 | no document with the same meaning is shorter than the canonical bytes |
| JsonCanonical.SameMeaningSameNorm | internal/fragment/ccj1.go:63-80 | values that differ in member order only have one normal form |
| WireLexer.Tokenize | internal/memberwire/lex.go:50-122 | the index loop finds exactly the token list, faults and encoding errors of the input |
| WireLexer.NumberToken | internal/memberwire/lex.go:124-142 | numeral, overflow and value of a word; the overflow test keeps the accumulator in range |
| WireLexer.StringToken | internal/memberwire/lex.go:163-222 | accepts a string body exactly when the strict string reader does without U+0000, same text, same end |
| WireLexer.EscapeToken | internal/memberwire/lex.go:178-219 | one escape as the strict reader reads it |
| WireLexer.HexQuad | internal/memberwire/lex.go:143-162 | four hex digits as the strict reader reads them |
| WireGrammar.TakeFlatten | internal/memberwire/lex.go:229-310 | a tree is recovered from its own token sequence, whatever follows |
| WireGrammar.FlattenTake | internal/memberwire/lex.go:229-310 | tokens that descend to a tree are that tree's sequence |
| WireGrammar.FlattenInjective | internal/memberwire/lex.go:229-349 | a token list has at most one tree |
| WireMachine.Grammar | internal/memberwire/lex.go:229-310 | the loop over frames computes the machine's verdict and faults |
| WireMachine.GrammarTurn | internal/memberwire/lex.go:239-306 | one token's pushes, pops, state changes and faults |
| WireMachine.MachineValue | internal/memberwire/lex.go:229-310 | with a value due, the machine consumes what a recursive descent consumes and adds that value's faults |
| WireMachine.GrammarExact | internal/memberwire/lex.go:229-310 | accepted exactly when one object tree is all of the tokens; bounds fault exactly for depth over 16 or over 8192 values, duplicate fault exactly when an object repeats a key |
| WireMachine.AcceptsExactlyTrees | internal/memberwire/lex.go:229-310 | the same, by flattening alone |
| WireMachine.BuildValue | internal/memberwire/lex.go:312-349 | on accepted tokens no index leaves the list, the value's tokens are all consumed, and the tree's meaning is built |
| WireMachine.BuildObject | internal/memberwire/lex.go:316-327 | the shared index over members, last key written being the only one |
| WireMachine.BuildArray | internal/memberwire/lex.go:328-337 | the shared index over elements |
| WireReader.ParseObject | internal/memberwire/lex.go:23-45 | encoding before bounds before schema, then the fields |
| WireReader.AcceptedIsRead | internal/memberwire/lex.go:23-45 | whatever the wire reader accepts the strict reader reads to the same fields |
| WireReader.ReadIsAccepted | internal/memberwire/lex.go:23-45 | whatever the strict reader reads within the wire limits the wire reader accepts |
| WireReader.ReadersAgree | internal/memberwire/lex.go:23-45 | acceptance and fields of the wire reader are exactly those of the strict reader within the wire limits |
| WireReader.AcceptsExactlySpellings | internal/memberwire/lex.go:23-45 | the accepted inputs are exactly the spellings of admissible objects within the wire limits, with the fields they denote |
| WireReader.JudgedExactly | internal/memberwire/lex.go:23-45 | which refusal: a length over the limit first, then no object written there, then the bounds whatever else is broken, then the schema |
| HostedDigest.ComputeContentDigest | internal/hosted/digest.go:14-31 | the stripping loop digests the canonical bytes without the digest member |
| HostedDigest.DigestedBytesExactly | internal/hosted/digest.go:22-30 | the digested bytes are a function of the meaning without digest and sig, and determine it |
| HostedDigest.DigestExactly | internal/hosted/digest.go:14-31 | where the hash does not collide, equal digests exactly for equal content |
| HostedDigest.HexDecodes | internal/hosted/digest.go:29-30 | two lower-case digits an octet, the high one first, from which the octets are recovered |
| HostedDigest.SealPayload | internal/hosted/payload.go:200-227 | digest, encode again, canonicalize, then check size, depth and the encoded limits |
| HostedDigest.CheckEncodedLimits | internal/hosted/payload.go:483-525 | passes exactly when every bounded part is there and its canonical bytes fit, an effective policy only if present and not null |
| HostedDigest.DigestTextValid | internal/hosted/digest.go:29-30 | a digest is valid UTF-8, so encoding keeps it |
| HostedDigest.SealVerifiesItself | internal/hosted/payload.go:200-217 | the digest recomputed over the emitted bytes is the one stored in them, for every encoder that keeps valid UTF-8 texts |
| HostedDigest.ValueDepth | internal/hosted/payload.go:527-544 | the running maximum is the height of the value |
| JournalSafety.RunEvidence | internal/recoveryjournal/prepare_unix.go:39-129 | the evidence invariant survives every failure, uncertain effect, process death, write-back and crash of every run, whatever the deadlines |
| JournalSafety.RunClaims | internal/recoveryjournal/prune_unix.go:91-123 | with deadlines within the retention interval, so do the claims: who may still register has its exact envelope |
| JournalSafety.RenameEvidence | internal/recoveryjournal/prepare_unix.go:102-128 | publication keeps the evidence, whether it took effect, reported an error, or both |
| JournalSafety.RenameClaims | internal/recoveryjournal/prepare_unix.go:102-128 | and it keeps the claims of the callers that hold a permit |
| JournalSafety.CrashEvidence | internal/recoveryjournal/prepare_unix.go:102-128 | any crash view keeps the evidence, with a file never synced holding anything |
| JournalSafety.AnchorIsRecent | internal/recoveryjournal/retention.go:80-110 | the anchor is no older than any caller still allowed to register |
| JournalSafety.ReadClockEvidence | internal/recoveryjournal/retention.go:80-110 | a terminal record is prepared from the receipt that is durable when the clock is read |
| JournalSafety.UnlinkClaims | internal/recoveryjournal/prune_unix.go:111-134 | seven awake days after its anchor no caller that could still register is left |
| JournalSafety.RegisterIsBacked | internal/recoveryjournal/issue_unix.go:26-46 | a sent register request has its exact envelope in every crash view until an unlink removes the entry, and there is at most one in between; an unlink that removes nothing changes neither |
| JournalSafety.NoTornEntry | internal/recoveryjournal/prepare_unix.go:102-128 | what stands at either record's name was synced before it got there, in every crash view of every run |
| JournalSafety.TerminalIsBacked | internal/recoveryjournal/recover_unix.go:107-124 | in every crash view of every run a terminal entry has its durable receipt, which agrees with it in registry, session, runtime, launch and outcome |
| JournalSafety.RecoveredIsDurable | internal/recoveryjournal/recover_unix.go:107-125 | when recovery succeeds, receipt and terminal record are durable, agree field by field, and record the confirmed result |
| JournalSafety.FirmReceiptStays | internal/recoveryjournal/prune_unix.go:114-134 | only pruning, after the secret is durably gone, touches a durable receipt |
| JournalSafety.OutcomeIsFinal | internal/recoveryjournal/receipt.go:105-112 | a recorded outcome and launch never change over any later run until the receipt is pruned |
| JournalBudget.RegisterGuaranteeExactly | internal/recoveryjournal/prune_unix.go:91-123 | the register guarantee holds for all runs exactly when deadlines stay within the retention interval |
| JournalBudget.LateRegister | internal/recoveryjournal/issue_unix.go:26-46 | with a longer deadline, a run that registers after its entry was pruned |
| JournalBudget.LauncherIsWithin | internal/network/gateway_recovery.go:53-96 | the launcher's thirty seconds are within the bound |
| RecoveryNamespace.Namespace.FillTemporary | internal/recoveryjournal/prepare_unix.go:102-116 | write, sync and close in that order, giving the lock back at the first failure |
| RecoveryNamespace.Namespace.PublishRecord | internal/recoveryjournal/prepare_unix.go:102-128 | success only after rename and directory sync both succeeded; where calls succeed it succeeds |
| RecoveryNamespace.Namespace.Prepare | internal/recoveryjournal/prepare_unix.go:39-129 | an existing entry is refused, exactly so; success means the envelope is durable in every crash view; at most one preparation is begun; where calls succeed an absent entry is prepared exactly when the deadline is within the budget |
| RecoveryNamespace.Namespace.Issue | internal/recoveryjournal/issue_unix.go:26-46 | one preparation at most and, with deadlines within the retention interval, at most one register request leaves in the whole call, just one if it reports success; an uncertain reply leaves the entry |
| RecoveryNamespace.Namespace.Register | internal/recoveryjournal/issue_unix.go:34-46 | one request or none, of the envelope just made durable; every uncertainty is reported as unknown and the entry is untouched |
| RecoveryNamespace.Namespace.AskService | internal/recoveryjournal/recover_unix.go:81-99 | an answer is accepted exactly when it contradicts neither a terminal entry, in outcome or launch, nor the receipt that is there, in any field, and a revocation has a launch other than the capability |
| RecoveryNamespace.Namespace.CommitReceipt | internal/recoveryjournal/receipt_unix.go:36-145 | publishes the receipt or re-syncs the one there; it is durable and has the registry, session and runtime of the entry and the launch and outcome confirmed |
| RecoveryNamespace.Namespace.CommitEvidence | internal/recoveryjournal/recover_unix.go:107-124 | receipt, then clock, then terminal record: the clock is read with the receipt durable and the entry as it was; where calls succeed only a clock before the anchor refuses |
| RecoveryNamespace.Namespace.RecoverExact | internal/recoveryjournal/recover_unix.go:53-126 | no error exactly with a receipt, and then both records are durable, are about the envelope that was there and agree field by field; where calls succeed a confirmed result is refused only for a clock before the anchor |
| RecoveryNamespace.Namespace.Complete | internal/network/gateway_recovery.go:68-121 | a success verdict only on committed evidence |
| RecoveryNamespace.Namespace.RegisterGateway | internal/network/gateway_recovery.go:53-96 | a lease only with the envelope stored and no reconciliation; otherwise at most one preparation and then one reconciliation, and never a second request |
| RecoveryNamespace.Namespace.Reconcile | internal/network/gateway_recovery.go:68-96 | an issue whose result cannot be used begins one recovery at most and gives no lease |
| RecoveryNamespace.Namespace.PruneExact | internal/recoveryjournal/prune_unix.go:35-135 | a removal is reported only when durable, the receipt only after the secret; where calls succeed and the interval is over both are removed |
| RecoveryNamespace.Namespace.SyncEvidence | internal/recoveryjournal/prune_unix.go:144-181 | entry and receipt are both durable before any age is considered |
| RecoveryNamespace.Namespace.RemoveSecret | internal/recoveryjournal/prune_unix.go:114-123 | unlink and directory sync, the sync even after a reported unlink error; success leaves no view with the entry |
| RecoveryNamespace.Namespace.RemoveReceipt | internal/recoveryjournal/prune_unix.go:125-134 | the same for the receipt, with the secret gone from every view throughout |
| MigrateTransaction.Transaction.Add | internal/migrate/migrate.go:409-431 | a path is planned once; other bytes for it conflict |
| MigrateTransaction.Transaction.Copy | internal/migrate/migrate.go:379-408 | present, conflicting, rewritten and absent destinations |
| MigrateTransaction.Transaction.RetiredAx | internal/migrate/migrate.go:223-273 | each retired policy is backed up and planned for removal |
| MigrateTransaction.Transaction.Run | internal/migrate/migrate.go:93-187 | the planning loops compute the plan, or refuse at the same path |
| MigrateApply.FileSystem.MakeDirectories | internal/migrate/migrate.go:486-505 | what it created, parents first, even when it fails half way |
| MigrateApply.FileSystem.Rollback | internal/migrate/migrate.go:436-459 | with working restores, files and directories are those of before, and they work on a file system that fails no call |
| MigrateApply.FileSystem.RemoveDirectories | internal/migrate/migrate.go:453-457 | created directories are empty in reverse order and go away |
| MigrateApply.FileSystem.ApplyChange | internal/migrate/migrate.go:461-484 | one change rechecked, then made or refused with everything it did on record for the rollback |
| MigrateApply.FileSystem.Apply | internal/migrate/migrate.go:433-485 | every planned change and nothing else, or exactly the files and directories of before; on a file system that fails no call a plan that can be applied is |
| MigrateIdempotent.CopyOk | internal/migrate/migrate.go:379-431 | a copy keeps the plan sound, and settles its source unless another copy to the same path meant other bytes |
| MigrateIdempotent.RetireAxOk | internal/migrate/migrate.go:223-273 | a retired policy listed twice is planned once and its bytes are settled in the backup |
| MigrateIdempotent.LegacyUnchanged | internal/migrate/migrate.go:280-300 | the plan changes nothing in a legacy home but retired policies and their backups |
| MigrateIdempotent.PlansCanBeApplied | internal/migrate/migrate.go:409-431 | planned paths are distinct and are as they were found |
| MigrateIdempotent.MigrationIsIdempotent | internal/migrate/migrate.go:79-219 | planning again on the applied plan's result plans nothing exactly when no two layers mean different bytes for one path |
| MigrateIdempotent.SharedDestinationFails | internal/migrate/migrate.go:379-389 | with both layers at one destination, an input whose first migration succeeds and whose second refuses |
| MigrateIdempotent.ApartLayersAgree | internal/migrate/migrate.go:189-219 | distinct destinations, each with distinctly named sources, always agree |
| MigrateIdempotent.NothingIsLost | internal/migrate/migrate.go:379-431 | every file there was is there with its bytes, or its bytes are in its backup |
| MigrateIdempotent.EverythingArrives | internal/migrate/migrate.go:223-431 | after a migration each retired policy is gone and its bytes are in its backup, every rewritten source is kept in a backup, and where the layers agree every derived file is at its destination |
| MigrateIdempotent.Run | internal/migrate/migrate.go:79-219 | a failure leaves everything as it was; a success has done all that was derived and lost nothing, and leaves nothing to do exactly when the layers agree; a dry run writes nothing |
| Lease.Always | internal/netproxy/lease.go:80-192 | mutex, channel, goroutine and once-only invariants over all interleavings |
| Lease.FinishKeepsClose | internal/netproxy/lease.go:164-171 | two Finish callers never both close the stop channel |
| Lease.AtMostOnce | internal/netproxy/lease.go:80-182 | at most one stop, one goroutine, one completion, one verdict for all Finish callers |
| Lease.QuietAfterFinish | internal/netproxy/lease.go:164-182 | once any Finish has passed its wait, no service call starts in any continuation, and returned verdicts stay |
| LeaseReturns.FinishStops | internal/netproxy/lease.go:164-171 | a Finish that has read the channels left the stop channel closed, once, if Started ever made one |
| LeaseReturns.StopShortens | internal/netproxy/lease.go:105-160 | once stopped, every step of the goroutine that its timer does not start brings it nearer its end, whatever it is answered |
| LeaseReturns.FinishReturns | internal/netproxy/lease.go:164-182 | from every reachable state every Finish caller, a new one too, can return within seventeen steps of its own and of those it waits for, with the clock standing still and whatever the service answers |
| Lease.CompletesAlone | internal/netproxy/lease.go:172-182 | the completion never runs beside a background goroutine |
| Lease.WindowExactly | internal/netproxy/lease.go:105-160 | every activation attempt is inside the window exactly when no renewal finds the session pending after it |
| Lease.OnlyFirstActivationInWindow | internal/netproxy/lease.go:136-160 | with a window up to the renewal period, exactly the activate loop's attempts are inside it |
| Lease.LateActivation | internal/netproxy/lease.go:144-145 | for every lease started inside its window a run with an attempt after it |
| Lease.WindowKeptFrom | internal/netproxy/lease.go:105-160 | every run of a lease started at an instant keeps the window exactly when that instant is past it |
| Lease.WindowKeptExactly | internal/netproxy/lease.go:105-160 | every run keeps the window exactly when the window is empty |
| LeaseOwner.NoSignalLost | cmd/curator-run/lease_owner.go:25-71 | no child starts after a signal that arrived before the last check; one that arrived since is still queued |
| LeaseOwner.CheckExactly | cmd/curator-run/main.go:839-862 | a boundary check refuses exactly when some signal has arrived |
| LeaseOwner.WatchEnds | cmd/curator-run/lease_owner.go:50-71 | stopping a watch never hangs, even with the queue filling up under it |
| LeaseOwner.WatcherMayHoldIt | cmd/curator-run/lease_owner.go:54-64 | why the join precedes the check: a watcher may hold the only signal |
| NativeArgs.ParseSpells | internal/network/native_args.go:10-18 | the full parser loses no word |
| NativeArgs.ReadableExactly | internal/network/native_args.go:10-18 | it finds no fault exactly in the tails that well-formed items spell |
| NativeArgs.ParseReads | internal/network/native_args.go:10-18 | it reads well-formed items as they were written |
| NativeArgs.LookedUp | internal/network/native_args.go:163-194 | a word with two dashes is looked up by its name among the long options, a value after the sign apart; any other whole among the short ones |
| NativeArgs.ScanIsParser | internal/network/native_args.go:163-194 | the scan sees the option positions the parser sees and faults where it faults |
| NativeArgs.NativeArgsConflict | internal/network/native_args.go:140-195 | refuses the first reserved word, else what the parser faults at, else nothing |
| NativeArgs.AdmitOptions | internal/network/native_args.go:163-194 | the index loop computes the scan |
| StatusDrain.DrainStatusRecords | internal/hosted/transport.go:243-278 | the loop accepts and classifies as the frame-by-frame reading does |
| StatusDrain.DrainFrames | internal/hosted/transport.go:243-278 | complete frames hand over their valid records in order, and any invalid one poisons the rest |
| StatusDrain.SuccessExactly | internal/hosted/transport.go:243-278 | success exactly on a cleanly ended concatenation of well-formed frames, with their records |
| StatusDrain.ProtocolExactly | internal/hosted/transport.go:252-274 | protocol violation exactly on a stream with a complete malformed frame |
| StatusDrain.PoisonIsForGood | internal/hosted/transport.go:233-242 | nothing that follows a poisoned prefix takes it back |
| StatusDrain.TransportExactly | internal/hosted/transport.go:252-270 | loss of transport exactly for a cut or failing stream with nothing malformed |
| GatewayEnv.BuildEnvMap | internal/composition/composition.go:173-181 | later entries win, entries without a sign are dropped |
| GatewayEnv.ApplyToMap | internal/composition/composition.go:215-227 | through a list in any order and back, the patch acts name by name |
| GatewayEnv.Composition.Overlay | internal/composition/composition.go:119-127 | an overlay wins in both maps |
| GatewayEnv.Composition.ApplyNetworkPatch | internal/composition/composition.go:149-160 | both maps patched, then the lookups a literal answers dropped |
| GatewayEnv.NothingUnsetSurvives | internal/composition/composition.go:149-160 | no name that is unset but for case survives in list or literals unless the patch sets it, and the last pair for a name counts |
| GatewayEnv.ComposeWithNetwork | internal/composition/composition.go:103-171 | refused exactly for a proxy name under a patch or a refusing muse policy; otherwise patched overlays, uncovered lookups, the argument vector and every warned name |
| GatewayEnv.InheritedRouteNames | internal/network/settings_guard.go:94-107 | exactly the refused names the environments set, each once |
| GatewayEnv.CheckComposed | internal/network/gateway.go:185-225 | passes exactly when each owned pair is there once and unchanged and nothing else is refused |
| GatewayEnv.AdmittedExactly | internal/network/gateway.go:179-225 | after a passed early refusal the composed launch is admitted exactly when the patch removes every refused own name |
| GatewayEnv.OwnNamesAreCovered | internal/network/gateway.go:121-131 | own names taken from the plan's or the parent's environment are always removed |
| GatewayEnv.Run | internal/composition/composition.go:103-171 | between a passed early refusal and the last check, composition itself refuses nothing and the check passes |
| MemberProject.SumTakes | internal/memberobjects/objects.go:153-186 | the total over digests does not depend on their order |
| MemberProject.DeclareOne | internal/memberobjects/objects.go:160-179 | what one more reference must satisfy, an alias counting nothing |
| MemberProject.FaultExactly | internal/memberobjects/objects.go:160-179 | which refusal: names and digests before lengths, the object limit before aliases, aliases before the total |
| MemberProject.DeclareNext | internal/memberobjects/objects.go:161-180 | one turn: the rules in order, an alias counted once, the running total exact and within the limit |
| MemberProject.Project | internal/memberobjects/objects.go:153-186 | accepts exactly the well-formed, distinctly named, agreeing references within every bound, and refuses with the first broken rule of the first reference that breaks one |
| Descriptors.ReadObserved | internal/memberobjects/objects_unix.go:215-245 | a snapshot is the pieces read from the start to the end, exactly as long as declared, however the reads were cut; in an undisturbed directory it is the file |
| Custody.MatchNames | internal/memberobjects/objects_unix.go:196-213 | the directory's names are exactly the declared digests, each once |
| Custody.Retained.Enumerate | internal/memberobjects/objects_unix.go:180-214 | a passed enumeration is in the record as a listing of exactly the digests; the temporary handle is closed on every path and no held one is |
| Custody.Retained.Unchanged | internal/memberobjects/objects_unix.go:246-298 | an object passes exactly when its descriptor and its directory entry were both found as acquired, as the record has it |
| Custody.Retained.Close | internal/memberobjects/objects_unix.go:299-314 | every held descriptor is closed by one attempt, in order, whatever the closes report |
| Custody.Retained.AcquireObject | internal/memberobjects/objects_unix.go:91-116 | held from the open on; a success is in the record as an open by its digest, a look, a read to the end and a look again, and its snapshot has the declared length and hash |
| Custody.AcquireUnder | internal/memberobjects/objects_unix.go:81-135 | on every path the handles are exactly what was opened since; a success is in the record as two listings of exactly the digests around every object, with the root the same before and after |
| Custody.OpenRoot | internal/memberobjects/objects_unix.go:52-81 | an opened root is closed again if the caller's handle fails |
| Custody.Acquire | internal/memberobjects/objects_unix.go:47-137 | a refusal leaves the open descriptors of before; a success adds the root and one per digest, and the record holds all it looked at and no more; an undisturbed directory is acquired exactly when it is the caller's own and holds just the declared files |
| Custody.Retained.Recheck | internal/memberobjects/objects_unix.go:246-298 | passes only if the record now also holds root, both listings and every object with its bytes, all as acquired; it closes no held descriptor and refuses no undisturbed directory |
| Custody.Collection.Recheck | internal/memberobjects/objects.go:116-128 | success means everything was found as acquired, in the record; a refusal closes every handle once and invalidates the collection, and an undisturbed directory is not refused |
| Custody.Collection.Close | internal/memberobjects/objects.go:136-146 | the first call closes every handle once, later calls repeat its result |
| Custody.CallAll | internal/memberobjects/objects.go:116-146 | after any calls every handle was closed once if the collection is closed and never if not |

## Left out

- Diagnostic texts, error offsets and printed plan lines; a refusal keeps its kind and place.
- SHA-256, `json.Marshal`, `strconv` and system sorts as code: the hash and the struct encoder are functions, decimal printing and sorting are defined here.
- HostedDigest.SealPayload: does not model the field projections before the first encoding, nor which encoded limit a refusal names.
- Journal: one attempt; other attempts share only the lock. Capacity accounting, the lock's retry loop, file modes, inode and location checks are failures that may happen at any call.
- RecoveryNamespace.Namespace.Issue: does not model the closed flag apart from the failures it causes, and takes the deadline as the caller's parameter.
- JournalSafety.RegisterIsBacked: assumes a deadline within the retention interval, which `JournalBudget.RegisterGuaranteeExactly` proves necessary; the request counts of `Issue` and `RegisterGateway` assume the same.
- Field checks of stored records (`internal/recoveryjournal/read.go`, `schema` tables): a record is its typed value, and one that does not decode is a failed call.
- MigrateIdempotent.MigrationIsIdempotent: the derivation of a layer's files (host stripping, host mode merging) is a function that leaves retired policies out, rewrites only the two schema files and makes nothing out of nothing; symbolic links are resolved before, so homes are compared as paths.
- A read error of a regular file while planning a migration, which refuses before anything is written.
- File modes, temporary files of atomic writes, and changes by other processes during a migration, beyond the recheck before each change.
- Lease.AtMostOnce: recovery-capable leases only; the unregister loop of a legacy Finish is not modelled.
- Lease: the time between the clock check and the first octet of the request it admits.
- LeaseOwner.NoSignalLost: forwarding signals to a running child and draining during unregister are not modelled.
- NativeArgs.NativeArgsConflict: the option and reserved-word tables are parameters, so results hold for any table.
- StatusDrain.DrainStatusRecords: record validation is a parameter; every record is kept, where a caller may keep the last one.
- GatewayEnv.ComposeWithNetwork: standard input, the order of the final lists and of the warnings are not modelled, and the muse policy is a parameter; the library's patch acts by its contract at `internal/composition/composition.go:204-209`.
- GatewayEnv.Run: settings guard, request validation and registration between the two checks may each refuse and are not modelled; names of overlays are taken to hold no equals sign, as the fragment's own checks ensure.
- Custody.Acquire: a directory stream is one call that lists at most the names asked for; `errno` kinds and the exported snapshot copies are not modelled.
- Settings and policy-cache inspection, HTTP and Unix-socket transport, process execution, the session manager and the command line.
