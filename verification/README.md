# A verified model of the host firewall manager

The repository runs a fleet of Linux firewalls with a pull protocol. A manager holds policies; an agent on each
host checks in, replays the policy it is given as UFW commands, remembers what it applied in four small files, heals
out-of-band changes, and falls back to its last good ruleset when the manager is gone. This project models that
protocol and the pieces its meaning depends on, and proves what they promise, over whole runs, for every input.

`dafny verify dfyconfig.toml` checks everything.

## The parts

| module | models |
|---|---|
| `Text`, `Encoding`, `Ordering` | lines, trimming, decimal numbers, UTF-8, abstract digests, ordered queries |
| `Cidr`, `Protected` | networks as address sets; the protected-network checks of agent and manager |
| `Models` | rules, their wire form, the drift hash of both sides |
| `Shlex`, `Ufw` | POSIX word splitting; UFW command reading, first-match meaning, replay |
| `UfwCompile`, `UfwRoundTrip`, `UfwApply`, `UfwMeaning` | the compiler, its text, the replayer, what is then live |
| `Snapshot` | the canonical form of `ufw status numbered` |
| `ReplayCache`, `Agent`, `AgentLaws`, `AgentSafety`, `FreeInterface` | the agent's cycle as a class over a state, what its single steps do, what every run keeps, and where that ends |
| `Manager`, `Protocol`, `ActionRuns`, `Convergence`, `EndToEnd`, `Visibility` | the manager's tables for one host; agent and manager together; actions over runs; the policy in force; packets against the manager's own columns; which edits are seen |
| `Audit`, `AuditColumns`, `AuditStorage` | the hash-chained audit log, what it says about each column, and how the database keeps them |
| `EventStream`, `EventBytes` | the server-sent event reader, and what its decoding of single chunks can change |
| `Lockout`, `PolicyOrder`, `Revocation`, `Enrollment` | login lockout, policy flattening, CRLs, enrollment |

Code that changes fields, tables, files or the firewall is a class (`UfwHost`, `AgentDaemon`, `ManagerApi`,
`AuditLog`, `UserRow`, `SetMembers`, `CertAuthority`, `EnrollmentDesk`) whose methods are proved equal to a function
of the old state. The theorems are about those functions and about runs of them.

## What was found

Several promises hold only under a condition; each is proved both ways, or with the failing case.

- Interface names are free text, and a rule's command line is built from them unquoted. The line splits into the words
  meant by it iff the rule's interface and addresses are plain (`CommandRoundTrip`). With an interface text such as
  `eth0 from 10.0.0.0/8 #` a deny rule without a source passes the protected-network check and blocks that network
  (`FreeInterfaceBlocks`), and the verdict is not the policy's (`MisreadVerdict`), so "no protected network is ever
  blocked" is false as it stands. It holds over a run when the check before the apply lets through only rules that still
  pass it when their line is read back, and for a delivered policy that condition is exact (`ProtectedNeverBlocked`,
  `DeliveredOpenIff`); plain texts meet it (`PlainNeverBlocked`).
- Resets of the firewall are bounded by one, the changes made and the safe-mode reverts (`ResetBound`). A revert causes
  no later apply, so applies on delivered replies are bounded without them. The reverts themselves are not bounded by
  changes: while the manager is unreachable past the timeout, n failed check-ins make n resets, for every n
  (`ResetsUnbounded`).
- An apply whose `ufw reset` or `ufw enable` fails is recorded as a success although nothing was replayed. What is
  recorded is completely applied iff both succeeded, or the reset failed on a firewall that had it already
  (`RecordedWithoutReplay`). The host then counts as settled: no delivered check-in of a clean run applies the policy,
  and without a safe-mode revert the firewall stays as it was left (`FailedStartIsFinal`).
- A policy with a masquerade rule can never be replayed completely, since UFW has no such command
  (`MasqueradeNeverCompletes`). As long as reset and enable succeed it stays pending and is retried at every delivered
  check-in (`NoLostUpdate`, `PendingIsRetried`); when one fails it is recorded like any other.
- "Equal hashes mean the agent runs the current policy" is false. The two hashes are equal iff the same bytes were fed
  (`EqualHashIff`), and those hold seven fields without separators. On a host in sync an edit is seen iff it leaves rules
  and changes those bytes (`EditSeenIff`); one that is not seen never reaches the firewall over any clean run without
  further change (`UnseenEditIsLost`). An edit of one covered field of one rule is seen iff it changes that field, an absent network
  counting as an empty text (`FieldEditSeenIff`), and so are a rule added and a rule removed that was not the only one
  (`AdditionSeen`, `RemovalSeenIff`). Unseen edits are: any change of names, source ports, `dst_port_end`, interfaces, log
  flags or priorities only (`UncoveredEditUnseen`); moving a network from the source to the destination
  (`HashMissesMovedNetwork`); emptying the policy or taking it away, after which the old one stays in force
  (`RemovedPolicyStays`).
- The audit log verifies exactly when every row reads back as it was hashed (`VerifiesIffReadBack`). Times are hashed
  with nanoseconds and stored with microseconds, so a log verifies iff every event was logged at a whole microsecond
  (`VerifiesIffMicroseconds`), and the checker names exactly the others (`MismatchesAreCutShort`). Deleting a user
  empties a hashed column: exactly the rows they acted in then mismatch (`UserDeletionMismatches`). A rewritten row is
  named by the checker (`ColumnRewriteDetected`); one rewritten together with its hash gives itself away in the row after
  it (`ForgeryDetected`). Deleting or forging the last row shows only in the exported head (`DeletionDetected`,
  `LastForgeryChangesHead`).
- Revoked certificates stay listed over a run iff no unexpired row is revoked whose serial is not hexadecimal
  (`RevokedStayListed`). The root's own row has such a serial (`RootRowGoesUnlisted`), and until it expires certificates
  revoked later go unlisted too (`LaterGoUnlisted`).
- An approval whose signing fails has already registered the host. Until that host is deleted no request of it is ever
  approved, whatever tokens follow (`FailedSigningBlocks`).
- A status command that fails counts as drift while the drift slot holds a hash (`DriftIff`).
- Agent and manager derive the same hashed parts exactly when all enum names are known to the agent (`PartsAgree`).
- The flattened list of a policy set is unique iff no two of its rules tie in place, group order and priority
  (`UniqueIffNoTies`).
- A `forward` rule is compiled exactly as an `in` rule (`ForwardBecomesIn`).
- With this manager each action is executed at most once over every run, even if the agent's log is never written
  (`ExecutedOnce`); the log is needed only against a sender that repeats ids (`AtMostOnce`, `LostRecordRepeats`). The price
  is that an action handed out in a reply that is lost is never executed (`LostWithItsReply`).
- Each chunk of the event stream is decoded by itself. Cuts next to an ASCII byte lose nothing, so an ASCII stream reads
  the same however it is cut (`CleanCutsExact`). A cut inside a character garbles it; the frames and their ASCII text stay,
  and the wake-ups differ iff the readings differ in how many frames force a check-in by a line with white space outside
  ASCII (`CutsKeepWakeups`). A no-break space cut in half does that (`CutSpaceMissed`).
- Reachability needs the umbilical command (`UmbilicalNeeded`).

## Assumptions

- UFW: `reset` clears the rules, deactivates the firewall and keeps the default policies; `enable` activates it; an
  added rule goes to the end, also when one with the same match is already there, which it does not replace; the first
  matching rule decides; a failing command changes nothing; an inactive firewall lets everything pass; `reload` has no
  effect on any of this. Rules are `allow`, `deny`, `reject` or `limit`; `ufw masquerade` is refused. It reads address
  texts as the agent does and refuses a rule whose address it cannot read. For the bounds on resets, `ufw status
  numbered` shows whether it is active and its rules, and not the default policies. (The comment at
  crates/fw-agent/src/backend/mod.rs:211-216 and crates/fw-agent/tests/container_backends.rs.)
- Address parsing, the hash function, and how `ufw status` prints a state are parameters. A bare address text is one
  plain word that is no network. Hash results need only "no collision among the messages these logs or listings
  hash"; where a digest's shape matters, that it is 64 hexadecimal digits.
- Lossy UTF-8 decoding takes an ASCII byte for itself, wherever it stands, and other bytes for other characters, at least
  one (`EventBytes.Lossy`).
- Queries that order by priority or revocation time return ties in table order.
- Each HTTP handler and each cycle is one step. Every tool result and best-effort file write is an explicit parameter
  (`Outcome`, `Faults`), so a theorem says which ones must succeed; those that do not mention them hold for all.
- "Plain" texts hold no blank, quote or backslash, are not empty and do not start with `#`; `SplitExactly` and
  `PlainExactly` show these are exactly the texts that survive splitting unquoted. Addresses come from `INET` columns
  (migrations/001_initial_schema.sql:211-217) and default policies from an enum, so they are plain; interface names are
  free text (migrations/001_initial_schema.sql:217-218).
- Database storage: a `TIMESTAMPTZ` keeps whole microseconds, cut off; the actor column of the audit log is emptied when
  its user is deleted (migrations/001_initial_schema.sql:370); certificate serials other than the root row's are
  hexadecimal, as `SignedSerialDecodes` shows for those signed here; the clock that dates revocations does not run backwards.
- Audit actions come from a database enum (migrations/001_initial_schema.sql:53-64 and later additions) whose every name is
  a short ASCII word with an underscore, so no name is mistaken for a hash.
- The flattened list of a policy set stays the same while nothing is edited; by `UniqueIffNoTies` that is so when no two
  rules tie, and otherwise relies on the database returning ties alike.
- Action ids, token hashes and certificate serials are distinct where the database has a key or a fresh value.

## Model

| member | source | states |
|---|---|---|
| `Cidr.ContainsIff` | crates/fw-agent/src/protected_cidrs.rs:57-76 | an address lies between the network and the broadcast address iff it agrees on the prefix bits, host bits set or not |
| `Cidr.WiderContains` | crates/fw-agent/src/protected_cidrs.rs:67-72 | two networks that share an address: the wider contains the narrower one's network address |
| `Cidr.OverlapExact` | crates/fw-agent/src/protected_cidrs.rs:59-76 | the "one contains the other's network address" test holds iff some address agrees with both networks on their prefix bits, for every prefix length and family |
| `Cidr.NestedOrDisjoint` | crates/fw-core/src/policy.rs:105-119 | the test holds iff the wider network holds every address of the narrower one |
| `Cidr.PrefixesMean` | crates/fw-agent/src/protected_cidrs.rs:57-76 | in numbers: /0 holds every address of its family, /8, /16 and /24 those with the same leading octets, /64 of IPv6 the same upper half, a full prefix one address |
| `Protected.OverlapsProtected` | crates/fw-agent/src/protected_cidrs.rs:59-76 | the loop returns the first protected network that meets the rule's, none for unreadable texts |
| `Protected.FirstOverlap` | crates/fw-agent/src/protected_cidrs.rs:59-76 | none iff no protected network overlaps; a hit is a protected network that does |
| `Protected.CheckRulesAgainstProtected` | crates/fw-agent/src/protected_cidrs.rs:10-55 | the violations of all rules in order, with the shortcut for an empty protected list |
| `Protected.PassesIffAcceptable` | crates/fw-agent/src/protected_cidrs.rs:10-55 | a rule list passes iff every rule neither blocks nor exposes a protected network |
| `Protected.AcceptedBlocksNoProtectedAddress` | crates/fw-agent/src/protected_cidrs.rs:22-36 | an accepted deny or reject rule's source shares no address with any protected network |
| `Protected.RefusedIff` | crates/fw-agent/src/protected_cidrs.rs:10-88 | a list is refused iff some rule denies or rejects from a network sharing an address with a protected one, or allows everyone to such a network |
| `Protected.BroadIff` | crates/fw-agent/src/protected_cidrs.rs:80-88 | a source counts as everyone iff it is absent or, inside white space, empty, 0.0.0.0/0, ::/0, 0.0.0.0 or :: |
| `Protected.ViolationsTrue` | crates/fw-agent/src/protected_cidrs.rs:10-55 | every violation reported names a rule of the list, its action and a protected network it really blocks or exposes |
| `Protected.CheckAgainstProtectedCidrs` | crates/fw-core/src/policy.rs:81-119 | the manager refuses a rule iff it denies or rejects from a network that shares an address with a protected one, and names such a network, the one the agent names |
| `Models.NamesReadBack` | crates/fw-core/src/models.rs:22-106 | every enum value's name reads back as that value |
| `Models.PartsAgree` | crates/fw-agent/src/pull_loop.rs:549-595 | the agent re-derives exactly the parts the manager hashed iff every enum name is known |
| `Models.UnknownNames` | crates/fw-agent/src/pull_loop.rs:549-595 | an unknown action becomes allow, an unknown direction in, an unknown protocol any |
| `Models.ComputeRulesHash` | crates/fw-core/src/models.rs:316-334 | the incremental hasher digests the concatenated field bytes of all rules in order |
| `Models.SameRulesSameHash` | crates/fw-web/src/routes/agent_api.rs:225-248 | manager and agent compute the same hash for the same policy, through the wire form and back |
| `Models.EqualHashIff` | crates/fw-core/src/models.rs:311-334 | the agent's and the manager's hash are equal iff the same bytes were fed, short of a collision of the two |
| `Models.PortBytesDiffer` | crates/fw-core/src/models.rs:329-331 | different i32 ports have different bytes, and an absent one has none |
| `Models.LeReadsBack` | crates/fw-core/src/models.rs:329-331 | the four bytes of a port, lowest first, have its value, two's complement |
| `Models.FieldDecides` | crates/fw-core/src/models.rs:316-334 | for each of the seven fields: rules that agree on the other six feed the same bytes iff they agree on it |
| `Models.FieldEditDecides` | crates/fw-core/src/models.rs:316-334 | an edit of one covered field of one rule of a list changes the bytes hashed iff it changes that field |
| `Models.InsertionSeen` | crates/fw-core/src/models.rs:316-334 | a rule more anywhere in a list changes the bytes hashed |
| `Models.HashMissesUncoveredFields` | crates/fw-core/src/models.rs:300-334 | for any lists: rules that agree on the seven covered fields hash alike, whatever names, source ports, last ports, interfaces, log flags and priorities |
| `Models.HashMissesMovedNetwork` | crates/fw-core/src/models.rs:316-334 | moving a network from source to destination, in any rule of a list, leaves the hash as it was |
| `Shlex.SplitRender` | crates/fw-agent/src/backend/mod.rs:283-298 | splitting words written plainly or in single quotes gives back exactly those words |
| `Shlex.SplitFront` | crates/fw-agent/src/backend/mod.rs:283-298 | words written at the front of a line come out first, whatever follows |
| `Shlex.SplitExactly` | crates/fw-agent/src/backend/mod.rs:283-298 | a line of plain and single-quoted words splits into the words meant iff every unquoted one is plain |
| `Shlex.PlainExactly` | crates/fw-agent/src/backend/mod.rs:283-298 | a text passes unquoted as one unchanged word iff it is plain |
| `Ufw.ReplayCounts` | crates/fw-agent/src/backend/mod.rs:278-325 | every command is counted once; nothing failed iff every command succeeded |
| `Ufw.ReplayAppends` | crates/fw-agent/src/backend/mod.rs:278-306 | a replay never removes or reorders a live rule nor switches the firewall |
| `Ufw.ReplayCut` | crates/fw-agent/src/backend/mod.rs:278-306 | a replay can be cut at any command and resumed |
| `UfwCompile.CompileUfwRule` | crates/fw-agent/src/backend/mod.rs:394-444 | the string grown clause by clause is the rendering of the intended argument list |
| `UfwCompile.DropQuotesOnly` | crates/fw-agent/src/backend/mod.rs:440-442 | cleaning a comment removes its single quotes and nothing else, in order |
| `UfwRoundTrip.RangeReads` | crates/fw-agent/src/backend/mod.rs:450-457 | a port or port range text reads back as the range |
| `UfwRoundTrip.WordsRead` | crates/fw-agent/src/backend/mod.rs:394-444 | the intended arguments of any rule decode to its action, direction, log flag, interface, protocol, addresses, ports and comment; a masquerade rule is refused |
| `UfwRoundTrip.CommandRoundTrip` | crates/fw-agent/src/backend/mod.rs:283-298 | for every rule: its text, split with POSIX quoting, is exactly the argument list iff interface and addresses are plain, and the list decodes back to the rule |
| `UfwRoundTrip.CommentIsOneWord` | crates/fw-agent/src/backend/mod.rs:440-442 | the comment is one last argument without its single quotes; the text splits into these arguments iff the rule is plain |
| `Snapshot.TakeSnapshot` | crates/fw-agent/src/backend/mod.rs:327-360 | two headers skipped, numbers stripped, empty lines dropped, sorted, hashed; empty hash when the status command fails |
| `Snapshot.NumberIgnored` | crates/fw-agent/src/backend/mod.rs:339-347 | the rule number in a listing line does not enter its canonical form |
| `Snapshot.HeadersListNothing` | crates/fw-agent/src/backend/mod.rs:336-349 | a text of at most two lines lists no rule |
| `Snapshot.AddedLineListed` | crates/fw-agent/src/backend/mod.rs:336-349 | a line added to a listing is listed without its number, unless that leaves nothing |
| `Snapshot.AddedLineIsDrift` | crates/fw-agent/src/pull_loop.rs:204-214 | so a rule line added out of band changes the hash, short of a collision |
| `Snapshot.ListingLists` | crates/fw-agent/src/backend/mod.rs:336-349 | two header lines and a numbered line per rule list exactly the rules, whatever headers and numbers |
| `Snapshot.SortedUnique` | crates/fw-agent/src/backend/mod.rs:348-350 | a multiset of lines has one sorted arrangement, so any correct sort gives this one |
| `Snapshot.CanonicalForm` | crates/fw-agent/src/backend/mod.rs:335-359 | two listings feed the hash the same bytes iff they hold the same multiset of stripped lines |
| `Snapshot.DriftIsChangedLines` | crates/fw-agent/src/pull_loop.rs:204-214 | reordering or renumbering is never drift; any added, removed or changed line is, short of a collision of the two listings |
| `Snapshot.DriftIffRulesDiffer` | crates/fw-agent/src/pull_loop.rs:204-214 | two such listings have one hash iff they show the same rules as often, short of a collision |
| `UfwApply.Compile` | crates/fw-agent/src/backend/mod.rs:204-236 | umbilical first, then the named defaults, then the rules in order |
| `UfwApply.UfwHost.Apply` | crates/fw-agent/src/backend/mod.rs:238-325 | reset, enable, replay with counters, snapshot; a failed reset or enable reports no failed command |
| `UfwApply.ApplyReports` | crates/fw-agent/src/backend/mod.rs:238-325 | nothing attempted when reset or enable fails; else every command counted, an error iff one failed, and the hash of what is live then, empty when the status command fails |
| `UfwApply.UfwHost.Reset` | crates/fw-agent/src/backend/mod.rs:362-368 | after a successful reset no rule is live and the firewall is inactive; the defaults stay; a failed one changes nothing |
| `UfwApply.UmbilicalUnderstood` | crates/fw-agent/src/backend/mod.rs:211-222 | the umbilical text is read by UFW as the outbound TCP allow to the manager's address and port, with its fixed comment |
| `UfwApply.DefaultUnderstood` | crates/fw-agent/src/backend/mod.rs:223-231 | a default-policy text sets that direction's default, or is refused when the policy is not one UFW takes |
| `UfwApply.RuleLineReads` | crates/fw-agent/src/backend/mod.rs:394-444 | whatever its texts hold, a rule's line is refused or read as a rule with the same action; a masquerade rule's is refused |
| `UfwApply.DefaultLineReads` | crates/fw-agent/src/backend/mod.rs:223-231 | whatever its text holds, a default line never adds a rule |
| `UfwMeaning.CompleteReplay` | crates/fw-agent/src/backend/mod.rs:278-306 | for any texts a replay without failures leaves exactly the umbilical and what UFW reads in each rule's line, in order, and the defaults set |
| `UfwMeaning.CompleteTwice` | crates/fw-agent/src/backend/mod.rs:238-325 | replaying the same policy again changes nothing |
| `UfwMeaning.MeantIff` | crates/fw-agent/src/backend/mod.rs:394-457 | after a complete replay the live rules are the policy's own iff each line is read as meant |
| `UfwMeaning.PlainReads` | crates/fw-agent/src/backend/mod.rs:394-457 | a rule with plain interface and addresses is read as meant unless it is refused |
| `UfwMeaning.PlainReadsAll` | crates/fw-agent/src/backend/mod.rs:278-306 | after a complete replay rules with plain texts are all read as meant |
| `UfwMeaning.MasqueradeNeverCompletes` | crates/fw-agent/src/backend/mod.rs:278-325 | a policy with a masquerade rule always has a failing command |
| `UfwMeaning.LiveDecides` | crates/fw-agent/src/backend/mod.rs:394-457 | first match over the live rules is the first typed rule that covers the packet |
| `UfwMeaning.CompleteVerdict` | crates/fw-agent/src/backend/mod.rs:204-236 | for any texts: the manager is accepted, then the first matching rule UFW read decides, then the default set |
| `UfwMeaning.CompilerCorrect` | crates/fw-agent/src/backend/mod.rs:204-236 | after a complete replay of rules read as meant every packet meets the policy's verdict: the manager, the rules in order, the named or previous default |
| `UfwMeaning.PlainCompilerCorrect` | crates/fw-agent/src/backend/mod.rs:204-236 | after a complete replay of a policy with plain texts every packet meets the policy's verdict |
| `UfwMeaning.ForwardBecomesIn` | crates/fw-agent/src/backend/mod.rs:403-416 | a forward rule is compiled exactly as the same rule with direction in |
| `UfwMeaning.ApplyKeepsReachable` | crates/fw-agent/src/backend/mod.rs:211-325 | one apply keeps the manager reachable for any rule texts, defaults and failures other than the umbilical's |
| `UfwMeaning.UmbilicalNeeded` | crates/fw-agent/src/backend/mod.rs:211-222 | with the umbilical add failed under a deny default, the manager is cut off |
| `ReplayCache.RecordAddsOne` | crates/fw-agent/src/replay_cache.rs:13-40 | recording an id adds exactly that id to what the log finds |
| `Agent.AgentDaemon.DoApply` | crates/fw-agent/src/pull_loop.rs:480-546 | protected check, endpoint gate, lock, compile, apply; last good is saved unless a command failed |
| `Agent.AgentDaemon.DoAction` | crates/fw-agent/src/pull_loop.rs:421-458 | one pending action: acknowledged when in the log, else run, recorded on success and reported |
| `Agent.AgentDaemon.DoActions` | crates/fw-agent/src/pull_loop.rs:421-458 | all pending actions in order, with what was executed, reported and rolled back |
| `Agent.AgentDaemon.DoPlan` | crates/fw-agent/src/pull_loop.rs:344-418 | a successful apply updates the drift hash and the defaults, a failed one neither; what is then reported |
| `Agent.AgentDaemon.HandleLost` | crates/fw-agent/src/pull_loop.rs:248-283 | a failed check-in reverts to last good past the timeout when safe mode is on, and then the safe-mode flag is up |
| `Agent.AgentDaemon.RunPullCycle` | crates/fw-agent/src/pull_loop.rs:157-461 | the whole cycle is one step of the state machine; the drift flag, what is reported about an apply, and the safe-mode flag it leaves |
| `AgentLaws.AppliesIffChecksPass` | crates/fw-agent/src/pull_loop.rs:480-546 | the firewall is touched iff no rule blocks or exposes a protected network, the manager's address is readable and not all zero, and the lock is had; a refusal changes nothing |
| `AgentLaws.SuccessWrites` | crates/fw-agent/src/pull_loop.rs:386-394 | a successful apply writes each slot whose write succeeds and leaves the others |
| `AgentLaws.DriftIff` | crates/fw-agent/src/pull_loop.rs:204-214 | no or an empty slot shows no drift; a slot with a hash shows it iff the live hash is another or the status command fails |
| `AgentLaws.ReportedMeans` | crates/fw-agent/src/pull_loop.rs:178-202 | before the first apply an empty hash is reported, after it the one the manager computes for that policy |
| `AgentLaws.ContactIsLastHeard` | crates/fw-agent/src/safe_mode.rs:22-58 | over every run the contact clock stands at the last delivered reply or restart |
| `AgentLaws.RevertsAfterSilence` | crates/fw-agent/src/pull_loop.rs:248-283 | over every run a failed check-in touches the firewall iff safe mode is on, more than the timeout has passed since then, there are last good rules and an endpoint, and the checks pass |
| `AgentLaws.ActionDoes` | crates/fw-agent/src/pull_loop.rs:421-458 | one action: acknowledged and left alone when logged, else its success reported; a success executed and recorded; only a rollback touches the firewall, which it clears and switches off |
| `AgentLaws.ActionsDo` | crates/fw-agent/src/pull_loop.rs:421-458 | all actions of a reply: one report each in order; a firewall rolled back is cleared and off, any other as it was |
| `AgentLaws.RollbackClears` | crates/fw-agent/src/pull_loop.rs:421-458 | a rollback not yet logged whose reset succeeds leaves no rule live, is executed and reported as a success |
| `AgentLaws.ReportIsTrue` | crates/fw-agent/src/pull_loop.rs:386-419 | an apply is reported as a success iff the checks passed and no command failed; then with the hash the drift slot gets, else with the one before and the slots unchanged |
| `AgentLaws.ConfigTaken` | crates/fw-agent/src/pull_loop.rs:286-309 | a delivered reply brings the manager's whole configuration, safe-mode switch included, iff it is newer, and saves it if the write succeeds |
| `AgentLaws.ConfigOtherwise` | crates/fw-agent/src/pull_loop.rs:286-309 | a failed check-in changes neither copy; a restart runs the saved one |
| `AgentSafety.CycleReachable` | crates/fw-agent/src/pull_loop.rs:157-461 | one cycle, whatever the reply, keeps the manager reachable |
| `AgentSafety.ManagerNeverLost` | crates/fw-agent/src/pull_loop.rs:157-461 | over every run of cycles and restarts, with any replies, policies, rollbacks and command failures other than the umbilical's, outbound TCP to the manager stays accepted |
| `AgentSafety.ReplayProvenance` | crates/fw-agent/src/backend/mod.rs:278-306 | every live rule was there before or is asked for by some command, even in a partial replay |
| `AgentSafety.CompiledProvenance` | crates/fw-agent/src/backend/mod.rs:204-236 | for any texts, the rules a compiled policy asks for are the umbilical and what UFW reads in the policy's own lines |
| `AgentSafety.OpenIff` | crates/fw-agent/src/protected_cidrs.rs:59-76 | no live blocking rule matches a packet from a protected network iff no live rule fails the agent's overlap test |
| `AgentSafety.CompleteApplyOpenIff` | crates/fw-agent/src/pull_loop.rs:480-546 | a complete apply leaves the protected networks open iff every line, read back, passes the overlap test |
| `AgentSafety.ProtectedNeverBlocked` | crates/fw-agent/src/pull_loop.rs:480-546 | over every run from an empty rule list, on all three apply paths, with any defaults and failures, no live deny or reject rule with a readable source matches a packet from a protected network, if rules that pass the check still pass it read back |
| `AgentSafety.DeliveredOpenIff` | crates/fw-agent/src/pull_loop.rs:354-375 | for a policy delivered and completely replayed that condition is exact |
| `AgentSafety.PlainNeverBlocked` | crates/fw-agent/src/pull_loop.rs:480-546 | the same over every run whose interfaces and addresses are plain |
| `FreeInterface.InterfaceMisread` | crates/fw-agent/src/backend/mod.rs:409-419 | a rule without a source is read as one that blocks the network its interface text names |
| `FreeInterface.MisreadVerdict` | crates/fw-agent/src/backend/mod.rs:409-419 | that policy completely replayed denies a packet none of its rules covers, whatever the default |
| `FreeInterface.FreeInterfaceBlocks` | crates/fw-agent/src/protected_cidrs.rs:22-36 | one check-in delivering it, nothing failing, ends with a live rule that blocks a protected network |
| `AgentSafety.AtMostOnce` | crates/fw-agent/src/pull_loop.rs:421-458 | over every run, with ids repeated, redelivered or after a restart, an id succeeds at most once if the log writes succeed, never once it is in the log |
| `AgentSafety.LostRecordRepeats` | crates/fw-agent/src/pull_loop.rs:443-446 | against a sender that repeats an id: delivered twice, its record lost, the action runs twice |
| `Manager.ManagerApi.CheckIn` | crates/fw-web/src/routes/agent_api.rs:187-389 | the reply from the host's tables, and the due actions marked delivered |
| `Manager.DueInOrder` | crates/fw-web/src/routes/agent_api.rs:351-369 | a check-in hands out exactly the queued, unexpired actions, highest priority first, then the oldest |
| `Manager.CheckInMarks` | crates/fw-web/src/routes/agent_api.rs:351-379 | a check-in makes exactly the queued, unexpired rows delivered and changes no other row, policy or configuration |
| `Manager.UnassignedReply` | crates/fw-web/src/routes/agent_api.rs:225-276 | a host with no policy is told of a change unless it reports the word empty, and gets no rules and no defaults |
| `Manager.ManagerApi.CheckInResult` | crates/fw-web/src/routes/agent_api.rs:391-415 | the action reported on has its outcome and is in no queue; no other action changes |
| `Manager.ManagerApi.UpdateInterval` | crates/fw-web/src/routes/settings.rs:142-164 | the interval ends in range and nearest to the one asked for; the version grows by one exactly when it changes |
| `Manager.HandedOutOnce` | crates/fw-web/src/routes/agent_api.rs:351-379 | over every run each action is handed out at most once |
| `Manager.LeftQueueForGood` | crates/fw-web/src/routes/agent_api.rs:351-379 | an action that has left the queue is never handed out again nor queued again |
| `ActionRuns.ExecutedOnce` | crates/fw-agent/src/pull_loop.rs:421-458 | over every run of agent and manager, with any losses and failures, log writes included, each action is executed at most once and never once out of the queue |
| `ActionRuns.LostWithItsReply` | crates/fw-web/src/routes/agent_api.rs:371-379 | an action handed out in a reply that is lost is never executed |
| `Protocol.PlansIffUnsettled` | crates/fw-agent/src/pull_loop.rs:311-384 | a delivered check-in plans an apply iff the policy differs from the recorded one or the firewall drifted, and an update takes precedence |
| `Protocol.ApplyRecords` | crates/fw-agent/src/pull_loop.rs:386-394 | a successful apply records its rules and defaults and leaves no drift |
| `Protocol.ApplyKeepsRecorded` | crates/fw-agent/src/pull_loop.rs:386-394 | what it writes into the drift slot is the snapshot of its own rules completely applied, or nothing |
| `Protocol.RevertLeavesNoDrift` | crates/fw-agent/src/pull_loop.rs:248-283 | a complete safe-mode revert puts back exactly what the drift slot records |
| `Protocol.ApplySettles` | crates/fw-agent/src/pull_loop.rs:311-419 | after a successful apply nothing is left to do: the hashes, defaults and snapshot agree |
| `Protocol.EventDebt` | crates/fw-agent/src/pull_loop.rs:311-419 | every event pays for the apply it makes: apply plus debt after is at most debt before plus changes made, reverts costing nothing |
| `Protocol.ApplyBound` | crates/fw-agent/src/pull_loop.rs:311-419 | over every clean run the applies on delivered replies are paid for by the first debt and the policy edits, default edits, out-of-band changes and rollbacks |
| `Protocol.ResetBound` | crates/fw-agent/src/pull_loop.rs:248-419 | all resets are at most one plus the changes plus the safe-mode reverts; applies on delivered replies at most one plus the changes |
| `Protocol.ConvergedStaysQuiet` | crates/fw-agent/src/pull_loop.rs:311-321 | a converged host is never reset again while nothing changes |
| `Protocol.LostCheckInAppliesIff` | crates/fw-agent/src/pull_loop.rs:248-283 | a failed check-in touches the firewall iff safe mode is on, the timeout has passed, there is a last good ruleset, and the checks pass |
| `Protocol.SafeModeRepeats` | crates/fw-agent/src/safe_mode.rs:35-58 | after any number of failed check-ins the next one re-applies exactly when it would have at first |
| `Protocol.LostRunResets` | crates/fw-agent/src/pull_loop.rs:248-283 | over a run of failed check-ins the resets are exactly those that meet the condition at the start, with nothing changed or applied |
| `Protocol.ResetsUnbounded` | crates/fw-agent/src/pull_loop.rs:248-283 | for every n, n failed check-ins past the timeout make n resets with no change, in a clean run too |
| `Protocol.FailedApplyKeepsSlots` | crates/fw-agent/src/pull_loop.rs:534-545 | a refused or failed apply leaves last good, drift hash and defaults as they were |
| `Protocol.PendingIsRetried` | crates/fw-agent/src/pull_loop.rs:321-384 | while an update is pending every delivered check-in plans it, and the backend runs unless a check refuses |
| `Protocol.NoLostUpdate` | crates/fw-agent/src/pull_loop.rs:321-418 | over any run with any failures a pending update stays pending until an apply of it reports success |
| `Protocol.RecordedIsLive` | crates/fw-agent/src/pull_loop.rs:534-545 | with reset and enable succeeding a recorded policy is completely applied, for any texts, and live as meant iff its lines are read as meant |
| `Protocol.RecordedWithoutReplay` | crates/fw-agent/src/backend/mod.rs:256-276 | an apply that counts as a success records its policy, and leaves it completely applied iff reset and enable succeeded or the reset failed on a firewall that had it; otherwise nothing is replayed |
| `Convergence.FailedStartIsFinal` | crates/fw-agent/src/pull_loop.rs:534-545 | after a check-in whose reset or enable failed nothing is left to do, no delivered check-in of a clean run without change applies the policy, and without a revert the firewall stays as it was left |
| `Convergence.Converges` | crates/fw-agent/src/pull_loop.rs:311-419 | from any world and for any texts, one good check-in that applies leaves exactly its plan completely applied and nothing to do |
| `Convergence.QuietKeepsFirewall` | crates/fw-agent/src/pull_loop.rs:311-321 | over any clean run only applies and the counted changes touch a firewall in force, safe-mode reverts included |
| `Convergence.PolicyStaysInForce` | crates/fw-agent/src/pull_loop.rs:311-419 | after one good check-in with an update pending, over every clean run without further change, reverts and restarts included, the firewall is exactly the manager's policy completely applied |
| `Convergence.DriftIsHealed` | crates/fw-agent/src/pull_loop.rs:366-384 | after an out-of-band change that shows, one good check-in leaves the last good ruleset completely applied |
| `EndToEnd.PacketsMeetRows` | crates/fw-agent/src/pull_loop.rs:344-362 | after one good check-in with an update pending, over every clean run without change, every packet meets the manager's own columns: its endpoint allowed, then the action of the first row covering the packet, then the incoming or outgoing default column of its direction, or what was in force when that names none |
| `EndToEnd.LiveRulesMeetRows` | crates/fw-agent/src/pull_loop.rs:344-362 | then the live rules are the umbilical and one rule per row in order, with its action, direction, log flag and name as comment |
| `EndToEnd.RevertedPackets` | crates/fw-agent/src/pull_loop.rs:248-283 | past the timeout a failed check-in with safe mode on gives every packet what the last good rules and the remembered incoming and outgoing defaults say |
| `EndToEnd.HealedPackets` | crates/fw-agent/src/pull_loop.rs:365-384 | after an out-of-band change whose listing shows other rules one delivered check-in gives every packet what the last good rules and the remembered defaults say |
| `EndToEnd.OtherRulesAreDrift` | crates/fw-agent/src/pull_loop.rs:204-214 | a live listing that shows other rules than the recorded one is drift, short of a collision |
| `EndToEnd.SameRulesNoDrift` | crates/fw-agent/src/pull_loop.rs:204-214 | one that shows the same rules, in any order, is not |
| `Visibility.EditSeenIff` | crates/fw-web/src/routes/agent_api.rs:225-276 | on a host in sync an edit of the rules makes an update pending iff it leaves rules and changes the hashed bytes |
| `Visibility.FieldEditSeenIff` | crates/fw-core/src/models.rs:316-334 | an edit of one covered field of one rule - id, action, direction, protocol, source, destination, first port - makes an update pending iff it changes that field, short of a collision |
| `Visibility.AdditionSeen` | crates/fw-core/src/models.rs:316-334 | a rule added anywhere makes one pending |
| `Visibility.RemovalSeenIff` | crates/fw-agent/src/pull_loop.rs:344-345 | a rule removed makes one pending iff it was not the only one |
| `Visibility.FirstPolicySeen` | crates/fw-agent/src/pull_loop.rs:178-202 | on a host that has applied nothing an update is pending iff the policy has rules |
| `Visibility.DefaultsSeenIff` | crates/fw-agent/src/pull_loop.rs:321-345 | an edit of the defaults does iff there are rules and the defaults differ |
| `Visibility.EditAppliedIff` | crates/fw-agent/src/pull_loop.rs:344-384 | a settled host plans an apply on its next delivered check-in iff the edit is seen, and then of the new policy |
| `Visibility.UnseenEditIsLost` | crates/fw-agent/src/pull_loop.rs:344-384 | over every clean run without further change an unseen edit is never applied and the firewall stays as it was |
| `Visibility.UncoveredEditUnseen` | crates/fw-core/src/models.rs:300-334 | an edit to fields the hash does not cover is such an edit |
| `Visibility.RemovedPolicyStays` | crates/fw-agent/src/pull_loop.rs:344-345 | a policy emptied or taken away stays in force over every clean run without further change |
| `Protocol.HandshakeMeans` | crates/fw-web/src/routes/agent_api.rs:331-349 | the agent's version is at most the manager's, equal versions mean equal intervals, both in 1 to 86400 |
| `Protocol.EventHandshake` | crates/fw-agent/src/pull_loop.rs:286-309 | every event keeps the handshake; one delivered reply makes version and interval equal |
| `Protocol.HandshakeKept` | crates/fw-web/src/routes/settings.rs:142-164 | the handshake holds over every run, across interval changes, lost replies, failed saves and restarts from an older saved configuration |
| `Audit.Feed` | crates/fw-core/src/audit.rs:38-60 | the column by column updates feed exactly the row's bytes |
| `Audit.AuditLog.LogEvent` | crates/fw-core/src/audit.rs:15-79 | earlier rows stay; the new one holds the event's id and columns, the last hash and the digest of that hash and the columns as written; a verifying log goes on verifying if the row reads back |
| `Audit.VerifyIntegrity` | crates/fw-core/src/audit.rs:81-144 | the ids of the rows whose hash does not match, in order; verified iff all match |
| `Audit.VerifiesIffReadBack` | crates/fw-core/src/audit.rs:29-78 | any log written one event at a time verifies iff each row's bytes read back as written, short of a collision of the two readings of a row |
| `Audit.MismatchesAreUnread` | crates/fw-core/src/audit.rs:103-143 | the checker names exactly the rows that do not read back, in order |
| `AuditColumns.ColumnDecides` | crates/fw-core/src/audit.rs:38-60 | for each of the nine columns: rows that agree on the other eight feed the same bytes iff they agree on its text, absent and empty being one |
| `AuditColumns.RewriteDetected` | crates/fw-core/src/audit.rs:103-143 | rewriting any columns of a row of a verifying log makes the checker name exactly that row, or none if the bytes are the same, short of a collision |
| `AuditColumns.ColumnRewriteDetected` | crates/fw-core/src/audit.rs:103-143 | rewriting one column - details, actor, target, address, request, action or time - does iff its text changes |
| `AuditColumns.SameHeadSameColumn` | crates/fw-core/src/audit.rs:81-144 | two verifying logs with one head that agree on the other columns agree on this one in every row |
| `AuditColumns.ForgeryDetected` | crates/fw-core/src/audit.rs:103-143 | a row rewritten together with its hash makes exactly the next row mismatch |
| `AuditColumns.LastForgeryChangesHead` | crates/fw-worker/src/audit_anchor.rs:16-32 | as the last row it verifies, and shows only in the head |
| `AuditStorage.FractionMeans` | crates/fw-core/src/audit.rs:26-60 | the fraction of a hashed time is its nanoseconds in decimal, in the fewest groups of three digits that hold them |
| `AuditStorage.SameStampSameTime` | crates/fw-core/src/audit.rs:26-60 | the text of a time is that of no other time |
| `AuditStorage.VerifiesIffMicroseconds` | crates/fw-core/src/audit.rs:26-60 | a log whose other columns read back verifies iff every event was logged at a whole microsecond |
| `AuditStorage.MismatchesAreCutShort` | crates/fw-core/src/audit.rs:103-143 | and the checker names exactly the others, in order |
| `AuditStorage.UserDeletionMismatches` | migrations/001_initial_schema.sql:368-380 | after a user is deleted the mismatches are exactly the rows they acted in, in order, short of a collision |
| `Audit.SameInputs` | crates/fw-core/src/audit.rs:38-62 | equal hash inputs have the same previous hash and the same row bytes, although there are no separators |
| `Audit.SameHeadSameLog` | crates/fw-core/src/audit.rs:81-144 | two verifying logs of any lengths with one head hold the same bytes and hashes row by row, short of a collision among their messages |
| `Audit.HashesDistinct` | crates/fw-core/src/audit.rs:103-143 | in a verifying log all chain hashes differ |
| `Audit.DeletionDetected` | crates/fw-core/src/audit.rs:103-143 | deleting a row makes exactly the following row mismatch; deleting the last one none |
| `Audit.TruncationChangesHead` | crates/fw-worker/src/audit_anchor.rs:16-32 | a truncated log no longer has the anchored head |
| `EventStream.SplitSound` | crates/fw-agent/src/pull_client.rs:251-278 | frames and rest make up the text, and each frame ends at its first blank line |
| `EventStream.SplitUnique` | crates/fw-agent/src/pull_client.rs:251-278 | there is no other such split |
| `EventStream.FramesSplitAnywhere` | crates/fw-agent/src/pull_client.rs:251-278 | cutting the text anywhere and going on from the rest gives the same frames |
| `EventStream.Drain` | crates/fw-agent/src/pull_client.rs:259-270 | the inner loop takes out every complete frame and leaves the rest |
| `EventStream.RunEventsStream` | crates/fw-agent/src/pull_client.rs:251-278 | for every chunking the frames are those of the decoded text split at once, and the wake-ups are its check-in frames plus one at a clean end |
| `EventBytes.CleanCutsExact` | crates/fw-agent/src/pull_client.rs:251-258 | cuts next to an ASCII byte lose nothing: the text decoded chunk by chunk is the whole stream decoded at once |
| `EventBytes.AsciiCutsClean` | crates/fw-agent/src/pull_client.rs:251-258 | every cut of an ASCII stream is such a cut |
| `EventBytes.ChunksOutline` | crates/fw-agent/src/pull_client.rs:251-258 | for any bytes and chunks the ASCII text and the places of other characters are those of the stream decoded at once |
| `EventBytes.FramesOutline` | crates/fw-agent/src/pull_client.rs:259-262 | frames are cut by the ASCII text alone |
| `EventBytes.CutsKeepWakeups` | crates/fw-agent/src/pull_client.rs:251-278 | for any bytes and chunks the frames are alike, and there are as many wake-ups iff as many frames force one by a line with white space outside ASCII |
| `EventBytes.CutSpaceMissed` | crates/fw-agent/src/pull_client.rs:285-296 | a no-break space behind the event, cut in half, makes the forced check-in go unnoticed |
| `EventStream.LastEventMeans` | crates/fw-agent/src/pull_client.rs:285-296 | the event of a frame is the value of its last event line, none iff there is none |
| `EventStream.ParseSseEvent` | crates/fw-agent/src/pull_client.rs:285-296 | the parser loop computes that event, comment lines ignored |
| `EventBytes.OneFrame` | crates/fw-agent/src/pull_client.rs:259-296 | a frame of one event line wakes the agent iff the event, trimmed, is check-in |
| `Lockout.UserRow.TryLogin` | crates/fw-web/src/routes/auth.rs:104-166 | when the password is checked, and the new counter and lock |
| `Lockout.LockPaces` | crates/fw-web/src/routes/auth.rs:126-146 | each check past the fifth waits out a lock set by the one before it |
| `Lockout.LockoutBound` | crates/fw-web/src/routes/auth.rs:110-166 | in any window without a successful login at most five passwords plus one per thirty minutes are checked, from any account state |
| `Lockout.BoundReached` | crates/fw-web/src/routes/auth.rs:126-146 | for every window length some attempts reach the bound |
| `Lockout.WrongPasswordLocks` | crates/fw-web/src/routes/auth.rs:126-146 | after the fifth wrong password in a row, and each later one, no password is looked at for thirty minutes, and any is from then on |
| `Lockout.SuccessStartsOver` | crates/fw-web/src/routes/auth.rs:160-166 | after a successful login up to four wrong passwords at any times lock nothing |
| `Lockout.InactiveStays` | crates/fw-web/src/routes/auth.rs:104-125 | a deactivated account has no password looked at and never changes |
| `PolicyOrder.SetMembers.AddGroup` | crates/fw-web/src/routes/policy_sets.rs:310-331 | the group has the order asked for, or comes after every other, the first one at 0; no other group moves |
| `PolicyOrder.SetMembers.RemoveGroup` | crates/fw-web/src/routes/policy_sets.rs:350-367 | the group is no longer in the set; no other group moves |
| `PolicyOrder.RemoveFlattens` | crates/fw-web/src/routes/policy_sets.rs:350-367 | removing a group takes exactly its rules out of every flattened result |
| `PolicyOrder.SetMembers.ReorderGroups` | crates/fw-web/src/routes/policy_sets.rs:393-422 | each listed group in turn gets its position |
| `PolicyOrder.ReorderedAt` | crates/fw-web/src/routes/policy_sets.rs:405-422 | after a reorder each listed group's order is its position in the list |
| `PolicyOrder.ReorderedKeeps` | crates/fw-web/src/routes/policy_sets.rs:405-422 | a reorder touches only the groups it lists |
| `PolicyOrder.GroupIntact` | crates/fw-core/src/policy.rs:53-67 | flattening keeps each listed group's rules, as a multiset |
| `PolicyOrder.ReorderFlattens` | crates/fw-core/src/policy.rs:47-67 | after a reorder by a permutation every ordered result is the concatenation of the groups' rules in that order, each by group order then priority |
| `PolicyOrder.AddedGoesLast` | crates/fw-web/src/routes/policy_sets.rs:322-331 | the rules of a group added without an order come after all others |
| `PolicyOrder.AddAppends` | crates/fw-web/src/routes/policy_sets.rs:310-331 | removing them leaves an ordered result for the set without that group |
| `PolicyOrder.UniqueIffNoTies` | crates/fw-core/src/policy.rs:57-67 | the query has one result iff no two joined rules tie in place, group order and priority |
| `Revocation.CertAuthority.GenerateCrls` | crates/fw-ca/src/ca.rs:500-593 | rows by revocation time sorted into two lists, one CRL per list that is not empty with the next number of its counter, or refusal |
| `Revocation.ListedUnderSigner` | crates/fw-ca/src/ca.rs:529-543 | a row is grouped under the CA that signed it iff that CA is a verifier anchor |
| `Revocation.ListedExactlyOnce` | crates/fw-ca/src/ca.rs:500-593 | each revoked, unexpired row is in the list of the CA it is grouped under and in no other |
| `Revocation.OnlyRevokedListed` | crates/fw-ca/src/ca.rs:500-593 | a list names only revoked, unexpired rows of its CA's group |
| `Revocation.ListedInOrder` | crates/fw-ca/src/ca.rs:500-593 | its serials are those rows' in the order of revocation |
| `Revocation.DecodesIff` | crates/fw-ca/src/ca.rs:519-522 | a serial is accepted iff it is pairs of hexadecimal digits of either case |
| `Revocation.SignedSerialDecodes` | crates/fw-ca/src/ca.rs:393-421 | the serial of a certificate signed here always is |
| `Revocation.EnrolledFaithful` | crates/fw-web/src/routes/enrollment.rs:288-301 | an enrolled row records the CA that signed it iff that CA has a serial, and never an empty one |
| `Revocation.NumbersIncrease` | crates/fw-ca/src/ca.rs:562-573 | over every run each issuer's CRL numbers strictly increase, as section 5.2.3 of RFC 5280 asks |
| `Revocation.RevokeCoversIff` | crates/fw-web/src/routes/certificates.rs:45-96 | a revocation keeps every revoked certificate of an anchor listed iff no unexpired row with a serial that is not hexadecimal is revoked by it |
| `Revocation.RevokedIsKnown` | crates/fw-web/src/routes/certificates.rs:45-96 | a revoked row with a hexadecimal serial, of an anchor and unexpired, is marked and in the verifier's lists when the handler is done |
| `Revocation.RevokedStayListed` | crates/fw-web/src/routes/certificates.rs:45-96 | over every run, sub-CAs imported and removed, revoked rows signed by an anchor stay in that CA's published list at every moment, until they expire or are gone, iff the run has no such revocation |
| `Revocation.RootRowGoesUnlisted` | crates/fw-ca/src/ca.rs:634-658 | revoking the root's own row, whose serial is a dashed UUID, leaves it unlisted |
| `Revocation.LaterGoUnlisted` | crates/fw-ca/src/ca.rs:519-522 | until that row expires a certificate revoked later goes unlisted too |
| `Enrollment.EnrollmentDesk.Submit` | crates/fw-web/src/routes/enrollment.rs:54-141 | accepted iff the token is known, unused, not past its expiry and for this host; then it is used up and the request of that machine holds the new polling token and CSR; else nothing changes |
| `Enrollment.EnrollmentDesk.Approve` | crates/fw-web/src/routes/enrollment.rs:201-346 | approved iff the request is there, its host is new, it has a CSR and signing succeeds; the host is registered first, the bundle cached and the request deleted only then |
| `Enrollment.EnrollmentDesk.Poll` | crates/fw-web/src/routes/enrollment.rs:143-186 | a bundle is returned iff one waits, and then waits no more; no other is touched |
| `Enrollment.EnrollmentDesk.Deny` | crates/fw-web/src/routes/enrollment.rs:348-363 | the request is gone, so no later approval finds it; no other is touched |
| `Enrollment.TokenSingleUse` | crates/fw-web/src/routes/enrollment.rs:54-100 | over every run a token is accepted at most once, never once used |
| `Enrollment.BundlesPaidByTokens` | crates/fw-web/src/routes/enrollment.rs:54-346 | conservation: bundles delivered plus tokens, requests and bundles in flight never exceed those at the start plus the tokens created |
| `Enrollment.TokenToBundle` | crates/fw-web/src/routes/enrollment.rs:54-346 | with a good token, a submission, an approval and a poll with the polling token give out the bundle of the host approved, once |
| `Enrollment.FailedSigningBlocks` | crates/fw-web/src/routes/enrollment.rs:201-346 | after an approval whose signing fails no request of that host is approved over any run until the host is deleted |

## Left out

- The firewalld backend, the preview compilers, the React frontend, packaging and deployment.
- TLS, X.509 building and parsing, Argon2, AES-GCM and JWT: only issuer, serial, expiry, "password is right" and an opaque digest remain. The chain-link check of an imported sub-CA and PEM splitting would add easy members only.
- The inside of `ipnet` and of address parsing; `manager_endpoint` URL parsing is a parameter, and an unusable endpoint becomes the empty address the safety gate refuses.
- Concurrency inside one handler (audit append, CRL rebuild and swap, token check and mark), which the code does not serialise.
- The rate meaning of `limit`, and forwarded packets: a matching rule's action is its verdict, and `forward` is read as the code compiles it.
- `i32` overflow of configuration versions and group orders.
- The flagged-rule gate, token refresh, MFA, OIDC and SMTP settings, user and group administration: single-branch logic.
- Protected.CheckRulesAgainstProtected: violations are data (rule name, network, action), not the message text.
- Manager.ManagerApi.CheckIn: the check-in, drift and audit rows it writes are not modelled.
- Revocation.CertAuthority.GenerateCrls: a start whose generation is refused, which stops the server, keeps the previous lists here.
- Agent.AgentDaemon.RunPullCycle: the snapshot hash sent along with action reports is not modelled.
- Lockout.UserRow.TryLogin: unknown users and the token issue after success are not modelled.
- UfwMeaning.CompilerCorrect: the condition that lines are read as meant is exact for the live rules (`MeantIff`), not for the packet verdict, which misread rules may leave as it was.
