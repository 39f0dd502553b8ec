# Chromium-bridge core, modelled and proved

The bridge lets an AI harness drive a browser through a native host. This project models, in Dafny, the
parts of it whose correctness rests on an argument rather than on reading one function, and proves that argument.

**Wire-schema compiler.** The Rust types emit JSON Schema. `prepare` canonicalises each schema or refuses it,
`splitFlattenedCommand` and `opArgsSchema` turn the flattened request into a two-stage reader, and
`applyAsymmetries` derives the enforced and the loose frames. `Schemas.Admits` gives a schema its meaning after
JSON Schema draft 2020-12 (Core sections 10 and 11, Validation section 6). Every rewrite is proved against it,
for every schema and every JSON value.

**Broker.** Connections, the harness ref-count, the client registry, the pending-attach limit, the revocation
watcher and the per-request gate are one step system over shared state. Steps of any number of workers interleave
freely with writes, deletion and corruption of the trust record. Safety is proved of every reachable state. The
classes `RefCount` and `ClientRegistry` are the guarded objects, each method tied to the transition the system uses.

**Audit trail.** Records are truncated, rendered, appended, rotated and read back. One writer is modelled with a
class and its file contents, many writers as an interleaving over inodes, and the dropped-record count as an
interleaving over a 64-bit counter.

**Two smaller pieces.** The worklist closure behind the build-order audit of the task graph, and the
sequence-numbered language store with its receivers.

Five claims turned out not to hold as they stand, and the model follows the code:

- The split request reader is meant to accept what the flattened schema admits. Three things separate them, and
  `BridgeRequest.RequestReaderExact` is the exact account. The split ignores any constraint on a tag node beside its
  const (`TagConstraint.SplitDropsTagConstraint`). The request's own table accepts a string id
  (`BridgeRequest.StringIdAccepted`, `BridgeRequest.StringIdRefused`). It refuses a null browser
  (`BridgeRequest.NullBrowserNarrows`), an empty op and a browser that is no label.
- `src/packages/core/src/broker/loom_model.rs` says the registry is empty once shutdown latches. That model acquires a
  slot before it registers, while `admit_client` registers first. `Brokers.RegistryMayOutliveShutdown` is a run that
  ends with an entry left, and `Brokers.RegistryEmptyAtShutdown` is the exact condition: no attach is between
  registering and releasing. `Brokers.TerminalOccupant` shows what such an entry can still do: nothing but leave.
- A watcher tick need not agree with the record as it is when the sweep runs, because it reads first.
  `Gates.SweepMayLag` is a run that shows it, and `Gates.TickDecidesOnItsRead` says exactly which record decides.
- The discrimination rule on unions does not by itself keep the loose reading determinate.
  `Loosening.UntypedBranchPrunes` is a schema the generators accept and a value that shows it, and
  `Loosening.ToldIsDeterminate` is what has to hold of the flattened branches beside the rule.
- `src/packages/core/src/audit.rs` says the live file passes its cap by one record per writer that lost the race to
  rotate. Writers whose size check was overtaken lose no race and add to it too: `AuditGrowth.OvertakenChecksOvershoot`
  is such a run, and `AuditGrowth.LiveGrowthBounded` the bound that holds of every interleaving.

Layout: `Wrappers`, `Schema`, `Discriminated`, `Prepare`, `PrepareExact`, `Request`, `Parse`, `Asymmetry`, `OkSplit`,
`Narrowing`, `Demands`, `OptionalOnly`, `Loosening`, `TableRules`, `RequestReader`, `BridgeRequest`, `TagConstraint`
(schema compiler); `Trust`, `Admission`, `RefCount`, `Broker`, `Gate`, `Service`, `Lines` (broker); `Utf8`,
`AuditRecord`, `AuditTrail`, `AuditParse`, `AuditRotation`, `AuditAlone`, `AuditGrowth`, `AuditDrops` (audit);
`Dependencies`, `MoonEdges` (build order); `Lang`.

## Model

| member | source | states |
|---|---|---|
| Discriminated.AssertDiscriminated | scripts/gen-schema.ts:176-205 | the search returns the first property of the first branch that is a required const, distinct, in every branch; nothing exactly when no key does that |
| Discriminated.FindTag | scripts/gen-envelope.ts:109-117 | a found tag discriminates the branches, and no tag is missed: without a result no key at all discriminates |
| Discriminated.TagIsFirst | scripts/gen-schema.ts:192-205 | the key found is the first of the candidate names that discriminates |
| Discriminated.TellsApart | scripts/gen-schema.ts:192-202 | the inner loop with its set of seen tags decides exactly whether one candidate key discriminates |
| Discriminated.AtMostOneBranch | scripts/gen-schema.ts:173-205 | over discriminated branches at most one admits any value, the reason `oneOf` and `anyOf` coincide |
| Prepare.PrepareNode | scripts/gen-envelope.ts:219-375 | the recursion with its loops over properties and branches computes `Prepare`, refusals included |
| Prepare.PrepareEachProp | scripts/gen-envelope.ts:219-375 | the property loop prepares each property in place or refuses with the first refusal |
| Prepare.PrepareEachBranch | scripts/gen-envelope.ts:219-375 | the branch loop prepares each branch in place or refuses with the first refusal |
| Prepare.PreparePreservesMeaning | scripts/gen-envelope.ts:219-375 | every schema `prepare` does not refuse admits exactly the values its result admits, at every depth |
| Prepare.PreparedOneOf | scripts/gen-envelope.ts:219-375 | the rewrite of a `oneOf` to `anyOf` keeps exactly-one meaning because the prepared branches are discriminated |
| Prepare.PreparedIsCanonical | scripts/gen-envelope.ts:219-375 | whatever the input, the result has one of four closed forms: union, closed object, array, scalar |
| Prepare.PrepareIdempotent | scripts/gen-envelope.ts:219-375 | preparing a prepared schema changes nothing |
| Prepare.FixedPoints | scripts/gen-envelope.ts:219-375 | the schemas `prepare` returns unchanged are exactly the settled ones, so it refuses no schema of the canonical forms with every keyword in its place |
| PrepareExact.PrepareExactly | scripts/gen-envelope.ts:219-375 | preparing gives a schema exactly when that schema is settled and the input spells it: annotations and integer widths beside the keywords, `true` for the empty schema, an omitted `properties`, and a discriminated `oneOf` for `anyOf`, at every depth |
| PrepareExact.AcceptsExactly | scripts/gen-envelope.ts:219-375 | the accepted schemas are exactly those of five forms with every keyword in its place at every depth, said of the keywords alone |
| PrepareExact.OneOfPrepares | scripts/gen-envelope.ts:347-351 | every settled union that a string tag discriminates is what its `oneOf` spelling, annotated or not, prepares to |
| PrepareExact.NotesPrepare | scripts/gen-envelope.ts:229-259 | annotations on any settled node, and a width on an integer one, prepare away |
| PrepareExact.RefusalCites | scripts/gen-envelope.ts:219-375 | a refusal cites a rule that some node of the schema breaks, rule by rule |
| Request.SplitFlattenedCommand | scripts/gen-envelope.ts:132-187 | the loop over branches gives the envelope and one distinct op per branch, or refuses on the first branch that is no command or repeats an op |
| Request.SplitAppliesIff | scripts/gen-envelope.ts:132-175 | the split succeeds if and only if the schema is a flattened union whose branches are commands with distinct ops |
| Request.CommandIsVariant | scripts/gen-envelope.ts:149-170 | a branch is read as a command exactly when it is an adjacently tagged variant: two members in either order, both required, the tag a string const, annotations alone beside them |
| Request.OpArgsSchema | scripts/gen-schema.ts:220-242 | the nested loops merge the ops' properties first-come into one closed all-optional object, or report the conflict |
| Request.BagMeans | scripts/gen-schema.ts:220-242 | the bag is refused if and only if some args schema is no object or two declarations of a name disagree; otherwise it holds the ops' declarations and no others |
| Request.BagDeclares | scripts/gen-schema.ts:220-242 | every op's property is in the merged bag under the schema that op gave it |
| Request.BagExact | scripts/gen-schema.ts:217-242 | the bag admits exactly the objects whose every member some op declares under a schema that admits it |
| Request.BagAdmitsEveryOp | scripts/gen-schema.ts:217-242 | the bag never refuses args that some op's own schema accepts |
| Parse.ParseMeans | src/packages/shared/src/envelope.ts:34-59 | the answer in full: malformed exactly when the envelope refuses, an unknown op exactly when no command has it, bad args exactly when its command refuses them, else the message's own op, args, id and browser |
| Parse.EchoesOnlySoundIds | src/packages/shared/src/envelope.ts:14-59 | a refusal at any stage echoes the message's own id, only if the envelope's id schema admits it, and always when that is a number or string |
| Parse.FlattenedMeans | scripts/gen-envelope.ts:132-187 | the flattened schema, `unevaluatedProperties: false` included, admits a value exactly when the envelope and one branch do |
| Parse.SecondStage | scripts/gen-ops.ts:114-133 | each prepared op schema means what the Rust one means, and the bag contradicts none of them |
| RequestReader.EnforcedStage | scripts/gen-envelope.ts:868-929 | the shipped first stage, the enforced envelope of any table that puts the bag at `args`, admits a message exactly when the envelope over the walked properties does, the op meets its bounds and `args` is in the bag |
| RequestReader.ReaderIsFlattened | src/packages/shared/src/envelope.ts:34-59 | for every such table and every message: the shipped reader accepts it and its op's tag node admits the op, if and only if the flattened schema over the walked properties admits it and the op meets its bounds; what it hands on is the message's own fields |
| BridgeRequest.MemberDemands | scripts/gen-envelope.ts:568-577 | each of the request's own members is held to exactly what the table demands at its path |
| BridgeRequest.NarrowReaderIsSound | src/packages/shared/src/envelope-asymmetries.ts:11-15 | a table that only narrows beside the bag makes a reader that accepts nothing the flattened schema refuses, tags fitting |
| BridgeRequest.RequestReaderExact | src/packages/shared/src/envelope-asymmetries.ts:196-222 | with the request's own table: accepted with a fitting tag if and only if the flattened schema admits the message with any admitted number for a string id, the op is not empty and a browser is a label |
| BridgeRequest.RequestReaderExactForPlainTags | scripts/gen-envelope.ts:128-187 | with tag nodes as the Rust side emits them the same holds of acceptance alone |
| BridgeRequest.StringIdAccepted | src/packages/shared/src/envelope-asymmetries.ts:85-93 | a message both sides take is still accepted under every string id |
| BridgeRequest.StringIdRefused | src/packages/core/src/protocol.rs:362-369 | the flattened schema refuses every message with a string id |
| BridgeRequest.NullBrowserNarrows | src/packages/shared/src/envelope-asymmetries.ts:59-66 | a null browser the flattened schema admits is refused by the reader |
| TagConstraint.IsShipped | scripts/gen-envelope.ts:868-929 | the smallest bridge request goes through every generator with the request's own table, whatever length bound its tag carries |
| TagConstraint.SplitDropsTagConstraint | scripts/gen-envelope.ts:166-172 | its shipped reader accepts a message whatever the bound, the flattened schema only if the bound leaves room |
| Asymmetry.CollapseVariants | scripts/gen-envelope.ts:445-478 | the loop over variants builds the enum object from all tags and the shared content, or refuses |
| Asymmetry.GatherTags | scripts/gen-envelope.ts:451-464 | the set of tags holds every variant's tag, in branch order, none lost to deduplication |
| Asymmetry.ShareContent | scripts/gen-envelope.ts:452-469 | the loop returns the one content field of all variants, or nothing exactly when one lacks it or disagrees |
| Asymmetry.BuildArm | scripts/gen-envelope.ts:514-531 | the loops over an arm's fields compute the arm: discriminant pinned, required added, forbidden set to `false`, or the refusal |
| Asymmetry.RequireFields | scripts/gen-envelope.ts:519-523 | the arm's names join the required set in order, unless one is not on the frame |
| Asymmetry.ForbidFields | scripts/gen-envelope.ts:524-529 | each forbidden field becomes `false`, unless one is undeclared or required |
| OkSplits.OkSplitExact | scripts/gen-envelope.ts:491-533 | the split admits a value if and only if the frame does and the arm its boolean selects has its required fields present and its forbidden fields absent |
| OkSplits.SplitAppliesIff | scripts/gen-envelope.ts:491-533 | the split succeeds if and only if the frame has a required boolean discriminant, the arms cover both values, and each arm's fields are declared with none both required and forbidden |
| OkSplits.OneArmOnly | scripts/gen-envelope.ts:491-533 | no value is admitted by both arms |
| OkSplits.ArmsDiscriminated | scripts/gen-schema.ts:176-205 | the arms always pass the discrimination check, and the key it finds is the discriminant |
| Narrowing.DropNullArmMeans | scripts/gen-envelope.ts:405-417 | dropping the null arm of a prepared schema leaves exactly what it admits beside it: every value but null of a type list, and what some branch not of type null admits of a union |
| Narrowing.FieldMeans | scripts/gen-envelope.ts:568-577 | a required property is held to its schema as it stands, an optional one to its schema beside the null arm |
| Narrowing.CollapseMeans | scripts/gen-envelope.ts:445-478 | the enum object admits exactly what the tag union admits |
| Narrowing.VisitNarrows | scripts/gen-envelope.ts:545-586 | with only string, tag-union and ok-split changes at a path and beneath it the strict walk admits a subset of its input at every depth |
| Narrowing.PassSplitsExactly | scripts/gen-envelope.ts:545-586 | wherever the walk applies a split, the frame meets the condition under which the split is exact |
| Narrowing.EnforcedNarrows | scripts/gen-envelope.ts:537-596 | for tables of string, tag-union and ok-split changes the enforced schema of a frame admits only what the Rust-emitted schema admits; what exactly is left, for every table, is `Demanded.EnforcedMeans` |
| Demanded.VisitMeans | scripts/gen-envelope.ts:545-586 | for every prepared schema, path and table, all changes included: the walked schema admits a value exactly when the demands, read off the schema, the reader rules and the table along the value, allow it |
| Demanded.EnforcedMeans | scripts/gen-envelope.ts:537-596 | the enforced validator admits exactly what the reader demands of the prepared schema |
| Demanded.SplitsMean | scripts/gen-envelope.ts:582-584 | an entry's splits add exactly the selected arm's presence rules |
| Demanded.StringEntry | scripts/gen-envelope.ts:433-440 | a string entry demands a string within its bounds |
| Demanded.ArmEntry | scripts/gen-envelope.ts:441-444 | a string arm demands a string or what the numeric node admits |
| Demanded.GeneratedEntry | scripts/gen-envelope.ts:479-484 | a generated entry demands what the imported schema admits |
| OptionalOnly.EnforcedReads | scripts/gen-envelope.ts:400-417 | without a table both passes succeed on every prepared schema, and the enforced validator admits a value exactly when, at every depth, no optional member is read through its null arm and everything else is as it stands |
| OptionalOnly.OptionalBesideNull | scripts/gen-envelope.ts:400-417 | whatever the table does elsewhere, an optional member of a frame whose own entries narrow is admitted only as something its property admits beside null |
| TableRules.CollapseAppliesIff | scripts/gen-envelope.ts:445-478 | a tag union collapses exactly when a string tag tells its variants apart and they share one content field |
| TableRules.ChangeAppliesIff | scripts/gen-envelope.ts:425-489 | each kind of change is refused exactly on the nodes it does not suit |
| TableRules.VisitConsumes | scripts/gen-envelope.ts:545-586 | the entries the walk consumes are exactly those whose path it comes to |
| TableRules.PassAppliesIff | scripts/gen-envelope.ts:537-596 | the pass, strict or loose, succeeds exactly when every entry is reached and every reached entry applies |
| Loosening.LooseVisit | scripts/gen-envelope.ts:568-587 | the loose walk is the strict walk with every object it reaches opened afterwards, refusals and consumed entries equal |
| Loosening.LoosenWidens | scripts/gen-envelope.ts:568-577 | opening objects never refuses a value the strict schema admits |
| Loosening.PruneReduces | scripts/gen-envelope.ts:568-577 | pruning by the loose schema only deletes object members, at any depth |
| Loosening.PruneRestores | scripts/gen-envelope.ts:568-577 | a value the loose schema admits, pruned of undeclared members, is admitted by the strict one |
| Loosening.PrunedIsLoose | scripts/gen-envelope.ts:568-577 | and only such values: if pruning leaves something the strict schema admits, the loose one admitted the value |
| Loosening.StrictIsLooseUnpruned | scripts/gen-envelope.ts:568-577 | where union branches stay apart, the strict schema admits exactly the loosely admitted values with nothing to prune |
| Loosening.DiscriminatedIsDeterminate | scripts/gen-schema.ts:176-205 | discriminated branches stay apart even after loosening |
| Loosening.ToldIsDeterminate | scripts/gen-schema.ts:154-205 | where the flattened branches of each union pass R4 and each later one is told apart by type from an earlier one that could prune it, every union stays determinate, nested unions and array branches included |
| Loosening.StrictIsLooseForToldUnions | scripts/gen-envelope.ts:568-577 | for every enforced schema of that kind the strict form is exactly the loose form on values with nothing to prune |
| Loosening.UntypedBranchPrunes | scripts/gen-schema.ts:154-171 | R4 alone is not enough: a union of one object and an untyped branch, which both passes take as it stands, admits a value that the loose reading prunes |
| Loosening.LooseNeverLax | scripts/gen-envelope.ts:537-596 | for every frame and table: both passes succeed or neither, loose admits all that strict admits, and loose admits a value exactly when strict admits what pruning leaves of it |
| TrustRecord.FirstMatch | src/packages/core/src/trust.rs:349-365 | the admission search finds an entry exactly when some entry's anchor matches the identity |
| TrustRecord.DecideMeans | src/packages/core/src/trust.rs:346-365 | unenrolled exactly on a never-paired record, refused exactly when no entry of a paired one matches, else the name of the first entry that does |
| TrustRecord.AbsentIsBootstrap | src/packages/core/src/trust.rs:339-352 | without a record everyone is admitted unenrolled, nothing is killed, and a first pairing lists its one entry |
| TrustRecord.LatchIsLast | src/packages/core/src/kill.rs:53-104 | over every run of writes the kill latch is the last engage or release that landed, stamped with that write's epoch, and unchanged without one; the epoch counts the writes |
| TrustRecord.LatchFlips | src/packages/core/src/kill.rs:53-104 | an engage that lands leaves the verdict killed, a release clear, under its own epoch and with the clients untouched |
| TrustRecord.ListingIsLast | src/packages/core/src/trust.rs:154-204 | over every run of writes what is listed under a name is decided by the last pairing or revocation of it that landed, and no write disturbs another name |
| TrustRecord.OthersKeepTheirName | src/packages/core/src/trust.rs:188-204 | a client admitted under a name stays so while other names are paired and revoked, whatever they match |
| TrustRecord.LatchHolds | src/packages/core/src/kill.rs:53-104 | an engaged kill switch survives every sequence of record writes without a release, and a corrupt record survives even that |
| TrustRecord.WritesNeverReopen | src/packages/core/src/trust.rs:188-204 | once a client was paired no sequence of record writes reopens the unenrolled bootstrap for anyone |
| AdmissionRules.GateMeans | src/packages/core/src/broker.rs:257-278 | the gate passes exactly a readable record that admits the identity under no weaker posture, fails closed exactly on an unreadable one, and tells a reverted bootstrap from a revoked client |
| AdmissionRules.ClientRegistry.Enter | src/packages/core/src/broker.rs:330-351 | a new id nobody had, the client open under its identity and posture, the counter never wrapping |
| AdmissionRules.ClientRegistry.Leave | src/packages/core/src/broker.rs:354-356 | exactly that entry leaves |
| AdmissionRules.ClientRegistry.Sweep | src/packages/core/src/broker.rs:359-370 | for any predicate: exactly the clients it matches are shut, their number returned, and none is removed |
| AdmissionRules.ClientRegistry.WatchTick | src/packages/core/src/broker.rs:379-423 | both arms of the tick: a stream is still open exactly when it was and the gate would serve its client on that read, every one is shut on an unreadable record, and browsers are dropped exactly when the kill verdict is not clear |
| AdmissionRules.ShutDoomed | src/packages/core/src/broker.rs:359-370 | the sweep's loop, in whatever order it visits the entries and whatever the predicate, shuts the entries it matches and returns their number |
| AdmissionRules.TickDoomsTheRefused | src/packages/core/src/broker.rs:379-423 | on every read, unreadable included, the entries the tick's own predicate matches are exactly those whose next request the gate refuses |
| AdmissionRules.SweepAgreesWithGate | src/packages/core/src/broker.rs:359-423 | a registered connection stays open over a tick exactly when the gate would serve its next request on that read, and keeps its identity and posture |
| RefCounts.RefCount.TryAcquire | src/packages/core/src/broker.rs:143-153 | refused exactly when terminal or full, otherwise one more slot and never past the maximum |
| RefCounts.RefCount.Decr | src/packages/core/src/broker.rs:157-166 | dropping an outstanding slot undoes its acquisition, the waiter notified exactly when it was the last |
| RefCounts.RefCount.ObserveZero | src/packages/core/src/broker.rs:172-181 | terminal latches exactly when the waiter sees zero, and from then on no acquisition can succeed |
| Brokers.ReachableOk | src/packages/core/src/broker.rs:508-577 | every state of every interleaving satisfies the invariant that ties count, registry, pending counter, workers and log together |
| Brokers.StepKeepsInv | src/packages/core/src/broker.rs:784-889 | every step of every worker, of the waiter, of the watcher and of the record keeps the invariant |
| Brokers.ShutdownIsFinal | src/packages/core/src/broker.rs:126-182 | once terminal latches, over every further run live stays 0, the latch holds, and no accept is sent, no gate decided and no request dispatched |
| Brokers.TerminalOccupant | src/packages/core/src/broker.rs:443-448 | a registry entry left at shutdown belongs to an attach that holds no slot; its only steps are an acquire that fails and the drop that releases the entry |
| Brokers.RegistryEmptyAtShutdown | src/packages/core/src/broker.rs:845-888 | at shutdown the registry is empty if and only if no attach is between registering and releasing |
| Brokers.RegistryMayOutliveShutdown | src/packages/core/src/broker/loom_model.rs:76-135 | a reachable terminal state with an entry still registered |
| Brokers.NoLostWakeup | src/packages/core/src/broker.rs:157-181 | at count zero before the latch the waiter is never parked, and its check latches |
| Brokers.SlotsAccountedFor | src/packages/core/src/broker.rs:458-477 | live equals the slots held and stays within the maximum; the pending counter equals grants plus overshoots in flight, and grants never exceed 32 |
| Brokers.AttachGranted | src/packages/core/src/broker.rs:458-477 | an attach is granted exactly while fewer than 32 are outstanding, overshooting ones included |
| Brokers.SlotGranted | src/packages/core/src/broker.rs:143-153 | a registered attach gets a harness slot exactly while fewer than 8 are held and the broker has not committed to exit |
| Brokers.ServedIsRegistered | src/packages/core/src/broker.rs:845-888 | every relay being served is registered under the identity and posture it is gated on |
| Brokers.SweepMatchesGate | src/packages/core/src/broker.rs:359-423 | in every reachable state a sweep leaves a served relay open exactly when the gate passes it on the read the watcher holds |
| Gates.PostureNeverWeakens | src/packages/core/src/broker.rs:257-278 | over every run, whatever is written to the record: every dispatch has a passed gate of its own, with no other decision or dispatch of that worker between; that gate saw the record as last written; and that record admits the connection under a posture no weaker than its admission |
| Gates.AdmissionIsTheRecords | src/packages/core/src/broker.rs:784-889 | the identity and posture a relay is held to are what the record on disk decided when it attached |
| Gates.RefusalEndsConnection | src/packages/core/src/broker.rs:905-957 | after its first gate refusal a connection passes no gate and dispatches nothing, re-paired or not |
| Gates.RefusedIsNotDispatched | src/packages/core/src/broker.rs:257-278 | while every record written refuses a connection nothing of it is dispatched, from the next gate on |
| Gates.RevokedUntilPaired | src/packages/core/src/trust.rs:188-204 | over every run after a revoke of the one name an identity matches: nothing of a connection under it is dispatched until a pairing that matches it is written |
| Gates.PairedPassesGate | src/packages/core/src/trust.rs:188-197 | a pairing that matches a connection's identity lets its very next gate pass, whatever its posture at admission |
| Gates.TickDecidesOnItsRead | src/packages/core/src/broker.rs:541-547 | a whole tick with anything between its read and its sweep leaves a served relay open exactly when the record at the read admits it, so one that every record in between refuses is shut |
| Gates.ShutStaysShut | src/packages/core/src/broker.rs:359-370 | a stream once shut stays shut while its connection is registered |
| Gates.ShutReadsOnlyBuffered | src/packages/core/src/broker.rs:905-957 | over every run from there the worker of a shut stream takes up no more messages than had arrived before |
| Gates.SweepMayLag | src/packages/core/src/broker.rs:541-547 | a run in which the sweep leaves open a served relay that the record already refuses |
| Services.AttachServed | src/packages/core/src/broker.rs:784-889 | an uninterrupted attach ends in service exactly when every bound has room and the record admits it, and then takes one slot, one registration and two log entries and nothing else |
| Services.RequestServed | src/packages/core/src/broker.rs:905-957 | a waiting worker with a message dispatches it and waits again exactly when the gate passes on the record as it is, and the log gains the decision and the dispatch |
| Services.RequestRefused | src/packages/core/src/broker.rs:905-957 | a request the record does not admit ends the connection, and the log says so |
| Services.LeaveGivesBack | src/packages/core/src/broker.rs:443-477 | a relay that hangs up gives back its registration and its slot, and wakes the waiter exactly if it was the last |
| Services.AttachThenLeave | src/packages/core/src/broker.rs:784-889 | in every reachable state attaching and leaving undo each other: counters, registered clients and waiter are as they were |
| Services.SpuriousWakeup | src/packages/core/src/broker.rs:168-181 | a wakeup nobody sent changes nothing |
| Lines.PumpLines | src/packages/core/src/broker.rs:1053-1075 | Ok exactly when every line fits the cap, and then output equals input; else output is the lines before the first too long, with at most cap + 1 bytes buffered |
| Lines.SplitFlattens | src/packages/core/src/broker.rs:1053-1075 | cutting a byte stream into newline-ended lines loses and adds nothing |
| Utf8.CutKeepsText | src/packages/core/src/audit.rs:229-250 | a cut field is valid UTF-8 (section 3 of RFC 3629), 509 to 512 bytes long, and the longest valid prefix that fits; a short one is untouched |
| Utf8.TruncateText | src/packages/core/src/audit.rs:239-246 | the backward search for a boundary finds the last one at or below the limit |
| AuditRecords.TruncateFields | src/packages/core/src/audit.rs:229-250 | the loop cuts every text field in place and touches nothing else |
| AuditRecords.TruncateRecord | src/packages/core/src/audit.rs:229-250 | the loop over a record's own text fields truncates that record and changes none of its other fields |
| AuditRecords.LineFits | src/packages/core/src/audit.rs:35-44 | every truncated record renders to one line under 20000 bytes, far below the cap, with its only newline at the end (escapes after section 7 of RFC 8259) |
| AuditParse.TextReads | src/packages/core/src/audit.rs:524-529 | unescaping a rendered string gives back the text, whatever bytes it held |
| AuditParse.RecordParsesBack | src/packages/core/src/audit.rs:524-529 | every record rendered is strictly parsed back as itself, and refused exactly when its version is not the supported one |
| AuditParse.RecordsParseBack | src/packages/core/src/audit.rs:273-529 | after any appends of stamped records, whichever renames fail, every line on disk parses, and the lines parse to the last of the records in order |
| AuditParse.PageShows | src/packages/core/src/audit.rs:448-477 | a page over lines that parse shows what they parse to, newest first, and nothing unrecognized |
| AuditTrails.AuditTrail.AppendLine | src/packages/core/src/audit.rs:306-349 | the live file is renamed first exactly when the line would pass the cap and the rename succeeds, then the line is last in the live file; what that keeps and loses is the rows below |
| AuditTrails.RetainedIsSuffix | src/packages/core/src/audit.rs:306-349 | over any appends by one writer, rotated followed by live is a suffix of everything ever written |
| AuditTrails.FittingAppendKeeps | src/packages/core/src/audit.rs:306-327 | an append that fits the cap, or whose rename fails, loses nothing |
| AuditTrails.RotationKeepsEnough | src/packages/core/src/audit.rs:306-349 | over every run either everything is kept, or the rotated file and the first line after it did not fit together |
| AuditTrails.CapIsRetained | src/packages/core/src/audit.rs:306-349 | over every run either everything is kept or more than a cap's worth of the newest bytes |
| AuditTrails.FilesStayWithinCap | src/packages/core/src/audit.rs:306-327 | with renames succeeding and lines within the cap both files stay within it |
| AuditTrails.RecordsStayWithinCap | src/packages/core/src/audit.rs:273-327 | every sequence of truncated records keeps both files within the cap, whatever their texts |
| AuditTrails.ReadAt | src/packages/core/src/audit.rs:448-477 | the newest lines first, as many as the limit allows, unparsable ones marked in place, and entries plus older equal to the retained lines; an error exactly on an unreadable file |
| AuditTrails.TakeNewest | src/packages/core/src/audit.rs:462-471 | the backward loop yields the newest page of any list of lines |
| AuditTrails.Render | src/packages/core/src/audit.rs:508-522 | oldest first, every entry in its position; nothing only for an empty page |
| AuditTrails.SplitRecovers | src/packages/core/src/audit.rs:448-477 | reading back the bytes of record lines recovers the lines |
| AuditTrails.TrailReadsBack | src/packages/core/src/audit.rs:306-477 | what a reader sees of any single-writer trail is a suffix of the records written, in order |
| AuditTrails.RecordsReadBack | src/packages/core/src/audit.rs:273-477 | for any records, whatever their texts and whichever renames fail, a reader sees the last of them, whole and in order |
| AuditTrails.FittingRecordsReadBack | src/packages/core/src/audit.rs:273-477 | records whose lines fit the cap together are all read back, whichever renames fail |
| AuditTrails.ChompMeans | src/packages/core/src/audit.rs:448-456 | a line reads the same whether a newline, a carriage return and newline, or the end of the file ends it |
| AuditRotation.StepKeepsInv | src/packages/core/src/audit.rs:306-349 | every step of every writer keeps: the lock is its holder's, a confirmed rename is still due, a live file is newer than every rename |
| AuditRotation.FreshHistoryKept | src/packages/core/src/audit.rs:298-349 | in every interleaving each rename moved a file the pending line would push past the cap, created after every earlier rename |
| AuditRotation.ChecksGoStale | src/packages/core/src/audit.rs:342-347 | a reachable state where a writer bound for the lock would rename an under-full file if it did not check again |
| AuditAlone.AloneIsAppend | src/packages/core/src/audit.rs:298-349 | in every reachable state an append nobody contends rotates exactly when its line would push the live file past the cap, and leaves the two files as the single-writer append does |
| AuditGrowth.LiveGrowthBounded | src/packages/core/src/audit.rs:298-349 | in every interleaving of any number of writers the live file passes the cap by at most the bytes of appends that skipped a due rotation and one record for every other writer |
| AuditGrowth.OvertakenChecksOvershoot | src/packages/core/src/audit.rs:302-305 | a run in which no rotation is skipped and the file still passes the cap, reaching that bound |
| AuditDrops.StepBalances | src/packages/core/src/audit.rs:268-297 | a step keeps failures equal to reported plus counted plus claimed if and only if putting the claim back does not pass 64 bits |
| AuditDrops.RecordAccounts | src/packages/core/src/audit.rs:268-297 | a record that is written reports all that was counted, and a failed one leaves exactly one more to report |
| AuditDrops.DropsAreConserved | src/packages/core/src/audit.rs:268-297 | over every run of any number of threads with failures within 64 bits, every failure is reported, counted or carried exactly once |
| AuditDrops.WriteSettlesAccount | src/packages/core/src/audit.rs:273-297 | with one recorder every failure so far is reported by the time a write succeeds |
| Dependencies.Explore | scripts/check-moon-edges.ts:353-369 | the worklist loop ends and returns exactly the reachable known targets and exactly the reachable unknown ones |
| Dependencies.ReachesMeansBefore | scripts/check-moon-edges.ts:484-501 | given that some schedule runs a target, another runs before it in every schedule respecting dependencies if and only if it is reachable |
| MoonEdges.TargetNamesTask | scripts/check-moon-edges.ts:359-360 | a target without stray colons is known exactly when some entry carries its project and id, and names the task of such an entry; without a colon it names nothing |
| MoonEdges.UnderMeans | scripts/check-moon-edges.ts:371-379 | a path lies under a directory exactly when its segments begin with the directory's |
| MoonEdges.Closure | scripts/check-moon-edges.ts:353-369 | the closure ends on every graph, cycles included, with exactly the reachable tasks and unknown targets |
| MoonEdges.BuildWriters | scripts/check-moon-edges.ts:414-424 | the loops list exactly the outputs under build/ with their tasks |
| MoonEdges.AuditBuildOrder | scripts/check-moon-edges.ts:484-501 | the audit reports a finding if and only if it is owed, and is silent exactly when every task is clean |
| MoonEdges.CheckRead | scripts/check-moon-edges.ts:484-501 | for one path: unwritten exactly when no writer covers it, and one finding per covering writer that the task does not depend on |
| MoonEdges.MissingEdges | scripts/check-moon-edges.ts:486-501 | the writer loop finds exactly the covering writers outside the closure |
| MoonEdges.CleanMeansOrdered | scripts/check-moon-edges.ts:484-501 | with nothing reported for a reader every schedule respecting dependencies runs each other covering writer first |
| MoonEdges.UnorderedIsReal | scripts/check-moon-edges.ts:493-500 | a reported missing edge is real: some schedule respecting every dependency runs the reader before that writer if and only if the writer's target is not reached, which holds of every target that names a task |
| LangStores.Parse | src/packages/core/src/lang.rs:50-55 | exactly the four accepted texts parse, each to the language it spells |
| LangStores.LangStore.Set | src/packages/core/src/lang.rs:150-182 | an unchanged language answers the stored one; a changed one is stored under the next sequence number, or refused exactly at the bound or when the write fails; every refusal leaves the store untouched |
| LangStores.SequenceCountsChanges | src/packages/core/src/lang.rs:150-182 | over every run the sequence number counts the changes of value, one each, and never passes 2^53 - 1 |
| LangStores.OneValuePerSequence | src/packages/core/src/lang.rs:12-17 | across everything sent, applied and stored a sequence number names one value |
| LangStores.CursorsNeverRegress | src/packages/core/src/lang.rs:12-17 | under loss, duplication and reordering a connection's cursor never goes back |
| LangStores.NewestPushConverges | src/apps/extension/src/lib/background/policy-sync.ts:203-225 | once a push of the current sequence arrives the connection holds the store's language |
| LangStores.PushConverges | src/apps/extension/src/lib/background/policy-sync.ts:203-225 | a push delivered at once brings any connection to the store's language, whatever it held |
| LangStores.ConvergedStays | src/packages/core/src/lang.rs:12-17 | until the store changes no delivery moves a converged connection |
| LangStores.NoEcho | src/packages/core/src/lang.rs:12-17 | setting back what a converged connection applied changes nothing |

## Left out

Of the schema compiler:

- A schema is a typed value, so a keyword whose value has the wrong JSON type (a string for `required`, say) is not representable; the refusals for those are not modelled.
- The comparisons the source makes by printed JSON are equality of values; keyword order inside a node, the sort order of the envelope's properties and JavaScript's prototype names are not modelled.
- An imported schema's meaning is a parameter. The list of replacements that the pass returns is not modelled. Of the asymmetry tables' contents only the request's are; the results about the pass hold for every table.
- Narrowing.EnforcedNarrows: covers tables of string, tag-union and ok-split changes; a string arm widens by design and a generated schema is foreign, and with them `Demanded.EnforcedMeans` is the account.
- BridgeRequest.RequestReaderExact: carries the condition on the tag node, without which `TagConstraint.SplitDropsTagConstraint` refutes it, and reads the frame's two own fields as the Rust struct has them.
- An `integer` is read by JSON Schema; the emitted validator reads it as a JavaScript-safe integer, a further narrowing outside the schema.
- Loosening.ToldIsDeterminate: goes one way; a union can stay determinate for other reasons, such as two array branches whose items no value satisfies both ways.
- Emission of Zod and TypeScript, the reading rules on emitted schemas other than discrimination, and the frame plan.
- Regular-expression matching, string formats and unmodelled keywords are arbitrary functions of the environment.
- An issue is attributed to `id` when the id's own schema refuses it; other issue paths and all message wording are left out.
- The walk of the asymmetry pass is a recursive function that returns the consumed paths instead of adding to a shared set.

Of the broker:

- Brokers.RegistryEmptyAtShutdown: states the exact condition rather than the documented claim, which `Brokers.RegistryMayOutliveShutdown` refutes.
- Lines.PumpLines: reader and writer work, and the peak counts the line buffer alone, not what the reader buffers beneath it.
- Sockets, the HMAC handshake, attestation and the rate limiter are steps that may succeed or fail at any time.
- The trust record keeps its epoch, kill flag and clients; enrollments, the host key and the policy and language markers are not modelled.
- Liveness: what an uninterrupted attach, request and departure do is proved, not that a scheduler lets them happen.

Of the audit trail:

- AuditDrops.DropsAreConserved: holds while the failures of one process fit 64 bits; `AuditDrops.StepBalances` says exactly which step breaks it beyond that.
- AuditParse.RecordParsesBack: reads the compact form the renderer writes; white space, `null` members and other spellings that a JSON parser takes are not modelled.
- The clock, standard error, file permissions and symbolic-link checks; a file that is not UTF-8 is an unreadable one.

Of the two smaller pieces:

- MoonEdges.AuditBuildOrder: the order of findings, like that of the closure's results, is not stated; both are given by membership.
- Reading shell words, the gate and static closures' own rules, glob findings and path normalisation; a task comes with its normalised paths.
- Damage to the language file during a run, the epoch bump, the delay between a push and its storage, and adoption at sequence 0, which applies nothing. A reconnect is a new connection with its own cursor.
