# Verified models of the ORE MCP fleet runtime

This project models seven stateful or algorithmic cores of the repository and proves what each of
them promises, for every input, every run and every interleaving.

| core | modules |
|---|---|
| stdio frame limiter | `StdioFrames`, `BufferedInput`, `LineCapped`, `CappedLines` |
| identity-bound session table | `SessionTable`, `SessionInvariants`, `SessionTheorems`, `SessionReissue`, `AuthStates` |
| Shared Auth key cache and bearer decision | `JwksCache`, `JwksMachine`, `JwksInvariants`, `JwksTheorems`, `SharedAuthVerifiers`, `BearerClaims` |
| package dependency graph | `PackageGraph`, `PackageReadiness` |
| string-aware scanners | `JsonScanner`, `JsonPrinting`, `LiteralSchemas`, `ProductionText` |
| bounded capture | `BoundedCapture`, `Utf8Truncation` |
| surface composition and deduplication | `ParitySurface`, `AuthorityChoice` |

`Wrappers` and `Ordering` hold the option and result types, string order and stable sorting.

How the models are built:

- Code that updates fields or local state step by step is imperative here too: classes and loops,
  each proved against a function of its inputs or of the old state. What the original promises is
  then proved about that function.
- The two concurrent protocols (`authorize_mcp`, and the key cache shared by all calls) are state
  machines. Every point where the original awaits, takes a lock or calls foreign code ends a step, a
  future may be dropped between any two steps, and time passes at will. A run is any list of actions;
  an action that is not enabled changes nothing. The inner MCP service, the key fetch, the signature
  check and the JSON parser are oracles. `AuthStates` and `SharedAuthVerifiers` hold the imperative
  classes and prove that an undisturbed pass of the class and a run of the machine agree.
- Machine widths are written out where they matter: `U64` with its saturating addition,
  `USIZE_MAX`, the saturating count of dropped bytes. Clocks are natural numbers of nanoseconds.

Standards followed: sections 2 to 7 of RFC 8259 (JSON texts), sections 3 and 4 of RFC 3629
(UTF-8), section 4.1.3 of RFC 7519 (the audience claim).

## Where the code does less than one might expect

Each of these is stated with a concrete input and with the exact condition under which the property
does hold.

1. **A late answer can end somebody else's session.** The removal in `authorize_mcp` looks only at
   the session id. If a binding is evicted while a request naming it is still inside the MCP service,
   the service hands the id out again, and the pending request is then answered with 404, the new
   principal's binding goes. `SessionReissue.LateAnswerRemovesReissuedSession` is such a run. Call a
   service prudent if it never hands out an id that another principal's request in flight still names.
   `SessionTheorems.SafeIffNoStaleUser`: from a given state, every continuation with a prudent service
   removes only rightfully if and only if no request in flight names a session now bound to another
   principal. `SessionTheorems.BindingIsSafeIff`: binding a new session keeps that condition if and
   only if nobody else's request in flight names its id. `SessionTheorems.LostBindingsEndedRightfully`
   draws the conclusion for whole runs.
2. **The collision check asks `get_tool` only.** The comment on `ParityAugmented` says that collisions
   fail during construction. A primary handler that lists a parity name but does not answer to it in
   `get_tool` is accepted, and the calls for its listed tool go to the parity handler
   (`ParitySurface.AcceptedButMisrouted`, on a concrete composition in
   `ParitySurface.MisroutedCompositionIsAccepted`). `ParitySurface.RoutingAgreesIff`: listing and routing agree if
   and only if the primary list holds no parity name.
3. **An unknown key id can stay undecided although a fresh key set lacks it.** A call that had to fetch
   before it could look at the key id, as on a cold start, finds its forced refresh backed off by its
   own fetch and reports the authority as unavailable (`JwksCache.ColdStartStaysUndecided`).
   `JwksCache.UnknownKeyIdIff` says exactly when an undisturbed call blames the credential instead.
4. **The two line readers can differ on an unterminated last line.** `read_capped_line` returns it with
   its carriage return; `LineCappedReader` never emits it. `CappedLines.ReadersDiffer` is the two-byte
   input. `CappedLines.ReadersAgreeIff`: the two deliver the same bytes if and only if the input ends
   with a newline (or is empty) or its unterminated rest is over the limit, which one reader discards
   and the other drops.

5. **A test item can be removed in part, or with production text behind it.** `production_text` ends an
   item at the first line with a semicolon as long as no brace has been seen, so a signature over
   several lines that mentions `[u8; 4]` loses only its first lines and its body stays in the audited
   text (`ProductionText.SpannedSignatureIsCut`). `ProductionText.BalancedItemIff` and
   `ProductionText.BalancedItemIsRemovedIff`: a brace-balanced item goes as a whole if and only if no
   line before its first brace holds a semicolon. An item without braces goes as a whole if and only if
   its last line is its only line with a semicolon (`ProductionText.PlainItemIff`). An item that shares
   its first line with another attribute is skipped along with it, and what follows may go too
   (`ProductionText.SharedLineIsNotResumed`). For any lines at all, `ProductionText.ResumesBehindIff`:
   the scan goes on exactly behind them if and only if what is left of them after their leading
   attribute and blank lines is one item in the sense of `IsItem`.

## Model

| member | source | states |
|---|---|---|
| `StdioFrames.SplitIsExact` | packages/rust/crates/ore-mcp-org-server/src/lib.rs:644-663 | cutting the input into complete lines and a tail loses no byte and cuts at every newline |
| `StdioFrames.SplitIsUnique` | packages/rust/crates/ore-mcp-org-server/src/lib.rs:644-663 | it is the only newline-free cutting: lines and tail are recovered from any input assembled out of them |
| `StdioFrames.RenderedNewline` | packages/rust/crates/ore-mcp-org-server/src/lib.rs:644-663 | a completed line contributes its own frame without one carriage return, or nothing when its raw length is over the limit |
| `StdioFrames.CarriageReturnIsDropped` | packages/rust/crates/ore-mcp-org-server/src/lib.rs:655-659 | in bytes: a line that fits, carriage return included, and ends in carriage return and newline is passed on with the newline alone |
| `StdioFrames.OtherLinesAreKept` | packages/rust/crates/ore-mcp-org-server/src/lib.rs:653-659 | in bytes: a line that fits and does not end in a carriage return is passed on unchanged |
| `StdioFrames.OversizedLinesAreDropped` | packages/rust/crates/ore-mcp-org-server/src/lib.rs:646-652 | in bytes: a line over the limit, its carriage return included, leaves no trace |
| `StdioFrames.RenderedIsMonotone` | packages/rust/crates/ore-mcp-org-server/src/lib.rs:628-676 | more input only ever appends to the output |
| `StdioFrames.CodecSeesExactlyTheFrames` | packages/rust/crates/ore-mcp-org-server/src/lib.rs:628-676 | cutting the limiter's output at its newlines gives exactly the surviving lines: none over the limit, none torn, nothing unterminated |
| `BufferedInput.FindNewline` | packages/rust/crates/ore-mcp-org-server/src/lib.rs:644-644 | finds the first newline, or says that there is none |
| `LineCapped.LineCappedReader.constructor` | packages/rust/crates/ore-mcp-org-server/src/lib.rs:620-626 | a new reader has delivered nothing and owes nothing |
| `LineCapped.LineCappedReader.PollRead` | packages/rust/crates/ore-mcp-org-server/src/lib.rs:628-676 | one poll keeps the refinement of the plain rendering (line buffer at most MAX, pending at most MAX+1), loses no input, fills at most the room given, hands out waiting output first without touching the source, and hands out nothing despite room only at end of input, on a pause or on a fault |
| `LineCapped.LineCappedReader.TakeAvailable` | packages/rust/crates/ore-mcp-org-server/src/lib.rs:644-674 | a non-empty chunk is always partly consumed; the loop ends exactly when the bytes consumed complete a line that is kept, and then hands out part of it unless there is no room |
| `LineCapped.LineCappedReader.EndLine` | packages/rust/crates/ore-mcp-org-server/src/lib.rs:644-660 | the bytes up to the newline are consumed, and the line is pending or dropped as the rendering demands |
| `LineCapped.LineCappedReader.ExtendLine` | packages/rust/crates/ore-mcp-org-server/src/lib.rs:664-673 | a chunk without newline is consumed whole without changing what is owed |
| `LineCapped.LineCappedReader.CopyPending` | packages/rust/crates/ore-mcp-org-server/src/lib.rs:678-687 | moves as much waiting output as fits, and no byte twice |
| `LineCapped.LineCappedReader.DeliveredWithinStream` | packages/rust/crates/ore-mcp-org-server/src/lib.rs:628-676 | what was delivered is a prefix of the rendering of the whole stream, and all of it once everything has arrived and been handed out |
| `LineCapped.Consume` | packages/rust/crates/ore-mcp-org-server/src/lib.rs:933-954 | for every chunking, every pattern of pauses and faults and every sequence of buffer sizes, what was received is a prefix of the plain rendering with a limit of 1,048,576 bytes; with enough polls that offer room it is exactly the rendering |
| `CappedLines.ReadCappedLine` | packages/rust/crates/ore-mcp-org-server/src/lib.rs:690-731 | takes exactly one line off the stream and classifies it as the limiter does (in bytes: nothing over the limit, no trailing byte 13, otherwise unchanged); at end of input reports the rest unstripped, or the end |
| `CappedLines.ReadLines` | packages/rust/crates/ore-mcp-org-server/src/lib.rs:690-731 | for every chunking, reading line after line to the end yields the limiter's verdict on each line, in order, plus the unterminated rest; the kept lines render to the limiter's bytes exactly when there is no such rest or it is over the limit; a fault or a stall leaves the verdicts on a prefix |
| `CappedLines.ReadersAgreeIff` | packages/rust/crates/ore-mcp-org-server/src/lib.rs:690-731 | the two readers deliver the same bytes exactly when the input has no unterminated rest or that rest is over the limit |
| `CappedLines.ReadersDiffer` | packages/rust/crates/ore-mcp-org-server/src/lib.rs:699-707 | a two-byte input without a newline: one reader returns it as a line, the other emits nothing |
| `SessionInvariants.SweepConserves` | packages/rust/crates/ore-mcp-remote/src/router.rs:370-374 | eviction gives back exactly the permits of the bindings it drops |
| `SessionInvariants.StepAccounts` | packages/rust/crates/ore-mcp-remote/src/router.rs:358-441 | free permits plus bindings plus creations in flight is the same after every step |
| `SessionInvariants.StepKeeps` | packages/rust/crates/ore-mcp-remote/src/router.rs:358-441 | the whole invariant (permits, shape of requests, table agrees with the log, lawful log) is inductive |
| `SessionInvariants.RunKeeps` | packages/rust/crates/ore-mcp-remote/src/router.rs:340-446 | every run keeps it, whatever the MCP service answers |
| `SessionInvariants.InitHolds` | packages/rust/crates/ore-mcp-remote/src/router.rs:112-123 | the initial table has it |
| `SessionTheorems.EveryRunIsAccountedFor` | packages/rust/crates/ore-mcp-remote/src/router.rs:358-441 | free permits, bindings and creations in flight add up to the bound in every run; bindings never exceed it; no exit path loses a permit; every logged insertion found its id unbound, every admission found its own principal bound, every eviction took exactly the bindings idle for more than ten minutes |
| `SessionTheorems.CapacityReplyIff` | packages/rust/crates/ore-mcp-remote/src/router.rs:375-380 | capacity is refused exactly when bindings and creations in flight hold every permit |
| `SessionTheorems.RefusalMeansBusy` | packages/rust/crates/ore-mcp-remote/src/router.rs:370-380 | right after its own sweep, a creation is refused exactly when recently used bindings and other creations hold every permit |
| `SessionTheorems.BindingIsStable` | packages/rust/crates/ore-mcp-remote/src/router.rs:360-367 | while a binding stays, its principal never changes and its last use never goes back |
| `SessionTheorems.BindingsChangeByEnding` | packages/rust/crates/ore-mcp-remote/src/router.rs:358-441 | in every run, whatever the service does: between two points at which a session is bound to different principals, or bound and then not bound, its binding was evicted or removed |
| `SessionTheorems.OwnerIsTheCreator` | packages/rust/crates/ore-mcp-remote/src/router.rs:408-422 | whoever the log says owns a session created it, and nothing ended it since |
| `SessionTheorems.ForwardedAsItsCreator` | packages/rust/crates/ore-mcp-remote/src/router.rs:359-367 | in every run, a request forwarded with a session id was admitted as the principal that created that session |
| `SessionTheorems.BindingsEndRightfully` | packages/rust/crates/ore-mcp-remote/src/router.rs:358-441 | in a log without foreign removals, a binding that is gone was evicted after more than ten idle minutes or ended by its owner's own DELETE or 404 |
| `SessionTheorems.LostBindingsEndedRightfully` | packages/rust/crates/ore-mcp-remote/src/router.rs:358-441 | in every run whose service never reissues an id that another principal's request in flight names, a binding in the table that is later gone or rebound to another principal was evicted after more than ten idle minutes or ended by its owner's own DELETE or 404 in between |
| `SessionTheorems.BindingIsSafeIff` | packages/rust/crates/ore-mcp-remote/src/router.rs:408-422 | binding a new session leaves every request in flight on its own sessions exactly when no other principal's request names the new id |
| `SessionTheorems.OtherStepsStaySafe` | packages/rust/crates/ore-mcp-remote/src/router.rs:358-441 | no other step can make a request in flight stale |
| `SessionTheorems.PrudentServiceIsSafe` | packages/rust/crates/ore-mcp-remote/src/router.rs:434-440 | if the service never reissues an id that another principal's request in flight names, no run removes somebody else's binding |
| `SessionTheorems.StaleUserRemoves` | packages/rust/crates/ore-mcp-remote/src/router.rs:434-440 | a stale request needs at most two more steps to remove the other principal's binding |
| `SessionTheorems.SafeIffNoStaleUser` | packages/rust/crates/ore-mcp-remote/src/router.rs:434-440 | all continuations of a state with a prudent service remove only rightfully exactly when no request in flight names a session bound to another principal |
| `SessionReissue.CreationSucceeds` | packages/rust/crates/ore-mcp-remote/src/router.rs:369-422 | an undisturbed creation binds its id to its principal whenever the sweep leaves a permit and the id is not bound |
| `SessionReissue.LateAnswerRemovesReissuedSession` | packages/rust/crates/ore-mcp-remote/src/router.rs:434-440 | a concrete run in which the late answer to Ann's pending request removes Bob's session |
| `AuthStates.AuthState.AdmitExisting` | packages/rust/crates/ore-mcp-remote/src/router.rs:359-368 | admits exactly the bound principal, and touches only that binding's last use |
| `AuthStates.AuthState.RetainFresh` | packages/rust/crates/ore-mcp-remote/src/router.rs:370-374 | keeps exactly the bindings used within ten minutes and frees the permits of the others |
| `AuthStates.AuthState.TryAcquire` | packages/rust/crates/ore-mcp-remote/src/router.rs:375-380 | takes one permit exactly when there is one |
| `AuthStates.AuthState.InsertCreated` | packages/rust/crates/ore-mcp-remote/src/router.rs:408-422 | never overwrites a binding: the permit moves into a new one or is given back |
| `AuthStates.AuthState.RemoveSession` | packages/rust/crates/ore-mcp-remote/src/router.rs:434-440 | removes the named binding and frees its permit, and does nothing else |
| `AuthStates.AuthState.AuthorizeMcp` | packages/rust/crates/ore-mcp-remote/src/router.rs:358-445 | the whole table and the reply after one undisturbed request, for every answer of the service |
| `AuthStates.EntryAgrees` | packages/rust/crates/ore-mcp-remote/src/router.rs:358-386 | the sequential entry and two steps of the machine leave the same table, early reply and permit |
| `AuthStates.ExitAgrees` | packages/rust/crates/ore-mcp-remote/src/router.rs:393-441 | the sequential exit and the remaining steps of the machine leave the same table and reply |
| `AuthStates.UndisturbedIsARun` | packages/rust/crates/ore-mcp-remote/src/router.rs:340-446 | the imperative pass is one of the machine's runs, so every theorem about runs applies to it |
| `AuthStates.DeleteUndoesCreate` | packages/rust/crates/ore-mcp-remote/src/router.rs:369-441 | creating a session and deleting it as its owner leaves only the eviction of idle bindings: every permit is back |
| `AuthStates.OthersAreForbidden` | packages/rust/crates/ore-mcp-remote/src/router.rs:359-366 | a request naming a session that is not bound to its principal is forbidden and changes neither table nor permits |
| `AuthStates.AdmittedOutcome` | packages/rust/crates/ore-mcp-remote/src/router.rs:393-441 | the bound principal's request, answered in order: its session is unbound exactly on a successful DELETE or 404, otherwise it stays, used just now, and permits are unchanged; the answer is passed on |
| `AuthStates.MismatchOutcome` | packages/rust/crates/ore-mcp-remote/src/router.rs:394-433 | an answer whose session header is malformed or names another session is withheld, and the binding stays |
| `AuthStates.StatelessOutcome` | packages/rust/crates/ore-mcp-remote/src/router.rs:382-393 | without sessions a request that names one is forbidden, any other is passed on, and nothing is kept |
| `AuthStates.SweepIsExact` | packages/rust/crates/ore-mcp-remote/src/router.rs:370-374 | the sweep keeps exactly the bindings used within 600,000,000,000 nanoseconds, unchanged, and frees the other permits |
| `AuthStates.CreationOutcome` | packages/rust/crates/ore-mcp-remote/src/router.rs:369-426 | a creation binds its session exactly when the service succeeds with an id that is not bound; in every other case only the sweep remains, and the reply says why |
| `AuthStates.AnsweredOutcome` | packages/rust/crates/ore-mcp-remote/src/router.rs:434-440 | in any state of the concurrent machine, the two steps after an in-order answer unbind the session exactly on a successful DELETE or 404 and touch nothing else |
| `JwksCache.ReadyIff` | packages/rust/crates/ore-mcp-remote/src/verifier.rs:176-188 | Ready exactly when keys are served without a fetch, for every back-off state |
| `JwksCache.UsableIff` | packages/rust/crates/ore-mcp-remote/src/verifier.rs:176-188 | Ready or Grace exactly when keys are served even if every fetch fails; keys served are immutable or within grace |
| `JwksCache.UnavailableIff` | packages/rust/crates/ore-mcp-remote/src/verifier.rs:176-188 | Unavailable exactly when only a successful fetch can serve keys |
| `JwksCache.UnknownKeyIdIff` | packages/rust/crates/ore-mcp-remote/src/verifier.rs:217-233 | when an undisturbed call holds an unknown key id against the credential, in terms of the cache, the back-off and the fetch |
| `JwksCache.SignatureVerdictIff` | packages/rust/crates/ore-mcp-remote/src/verifier.rs:217-233 | a signature verdict is given exactly when the key id is in the set served or in the one fetched, in terms of ages, back-off and fetch; it is valid exactly if the check says so |
| `JwksCache.ReadinessByAge` | packages/rust/crates/ore-mcp-remote/src/verifier.rs:176-188 | Ready up to ten minutes of age or static, Grace up to one hour |
| `JwksCache.FetchIff` | packages/rust/crates/ore-mcp-remote/src/verifier.rs:236-313 | a fetch starts exactly without current keys and thirty seconds after the last attempt; the attempt is remembered and only success replaces the cache |
| `JwksCache.ColdStartStaysUndecided` | packages/rust/crates/ore-mcp-remote/src/verifier.rs:224-232 | two concrete calls with the same fetch outcome: undecided on a cold start, credential blamed with a current cache |
| `JwksInvariants.StepKeeps` | packages/rust/crates/ore-mcp-remote/src/verifier.rs:236-314 | the invariant over mutex, cells, callers and log is inductive |
| `JwksInvariants.RunKeeps` | packages/rust/crates/ore-mcp-remote/src/verifier.rs:201-314 | every run of concurrent calls keeps it |
| `JwksInvariants.InitHolds` | packages/rust/crates/ore-mcp-remote/src/verifier.rs:116-158 | a new verifier, empty or static, has it |
| `JwksTheorems.AtMostOneFetch` | packages/rust/crates/ore-mcp-remote/src/verifier.rs:252-313 | at most one fetch is in flight, and its caller holds the refresh mutex |
| `JwksTheorems.FetchesAreSpaced` | packages/rust/crates/ore-mcp-remote/src/verifier.rs:277-291 | any two fetches of a run start at least the back-off apart |
| `JwksTheorems.CacheChangesOnlyByFetching` | packages/rust/crates/ore-mcp-remote/src/verifier.rs:291-313 | only the mutex holder's successful fetch changes the cache; a failed or dropped one leaves it |
| `JwksTheorems.FetchedAtNeverDecreases` | packages/rust/crates/ore-mcp-remote/src/verifier.rs:307-312 | the fetch time never goes back, the cache is never emptied, and static keys stay |
| `JwksTheorems.StaticNeverFetches` | packages/rust/crates/ore-mcp-remote/src/verifier.rs:143-158 | no run over a static document starts a fetch or changes its keys |
| `JwksTheorems.ServedKeysAreSafe` | packages/rust/crates/ore-mcp-remote/src/verifier.rs:236-250 | every key set that `current_keys` returns is immutable or within grace when it is checked |
| `JwksTheorems.UnknownKeyIsNeverBlamedOnStaleKeys` | packages/rust/crates/ore-mcp-remote/src/verifier.rs:221-231 | a token is rejected for its key id only against static keys or keys that the same call fetched |
| `JwksTheorems.OneForcedRefreshPerCall` | packages/rust/crates/ore-mcp-remote/src/verifier.rs:224-232 | in every run, a call forces at most one refresh, and afterwards decides only against a key set whose fetch it completed after forcing it, or reports the authority unavailable |
| `JwksTheorems.FailedForcedRefreshIsUndecided` | packages/rust/crates/ore-mcp-remote/src/verifier.rs:224-232 | in every run, a call that completes no fetch after forcing its refresh, because it is backed off or fails, decides only that the authority is unavailable |
| `JwksTheorems.FailedForcedRefreshEndsTheCall` | packages/rust/crates/ore-mcp-remote/src/verifier.rs:277-306 | the step at which a forced refresh is refused or fails ends the call undecided, cells unchanged, mutex free |
| `JwksTheorems.VerdictsComeFromChecks` | packages/rust/crates/ore-mcp-remote/src/verifier.rs:217-233 | in every run, each signature verdict in the log was reported by a check with that outcome, on keys that hold the key id the call asked for |
| `JwksTheorems.CheckIsReported` | packages/rust/crates/ore-mcp-remote/src/verifier.rs:217-233 | and every check on such keys reports exactly its outcome |
| `JwksTheorems.WarmOutcome` | packages/rust/crates/ore-mcp-remote/src/verifier.rs:171-173 | warming succeeds exactly with static keys or when its own fetch has just succeeded |
| `SharedAuthVerifiers.SharedAuthVerifier.ReadinessNow` | packages/rust/crates/ore-mcp-remote/src/verifier.rs:176-188 | reports the readiness of the cache it holds |
| `SharedAuthVerifiers.SharedAuthVerifier.Refresh` | packages/rust/crates/ore-mcp-remote/src/verifier.rs:252-314 | the new cells and the keys of one refresh, for every outcome of the fetch |
| `SharedAuthVerifiers.SharedAuthVerifier.Keys` | packages/rust/crates/ore-mcp-remote/src/verifier.rs:236-250 | the new cells and the keys served, stale keys within grace included |
| `SharedAuthVerifiers.SharedAuthVerifier.Verify` | packages/rust/crates/ore-mcp-remote/src/verifier.rs:217-233 | the new cells and the verdict of one uncontended call |
| `SharedAuthVerifiers.AloneVerifies` | packages/rust/crates/ore-mcp-remote/src/verifier.rs:201-314 | from any state with the mutex free, the concurrent machine running one call alone leaves the cells and reaches the verdict of the sequential methods |
| `SharedAuthVerifiers.AloneIsARun` | packages/rust/crates/ore-mcp-remote/src/verifier.rs:201-314 | that call running alone is a run of the machine, so the theorems about runs apply to it |
| `BearerClaims.ClaimSetLoop` | packages/rust/crates/ore-mcp-remote/src/verifier.rs:540-554 | accepts exactly one to 128 valid tokens without repetition, and returns exactly their set |
| `BearerClaims.SplitRecoversWords` | packages/rust/crates/ore-mcp-remote/src/verifier.rs:534-538 | splitting a scope recovers its words, whatever white space stands around and between them |
| `BearerClaims.AcceptedIff` | packages/rust/crates/ore-mcp-remote/src/verifier.rs:435-493 | acceptance as a principal is exactly the conjunction of every boundary, and the principal mirrors the claims |
| `BearerClaims.AssuranceIff` | packages/rust/crates/ore-mcp-remote/src/verifier.rs:508-532 | the level of the claims is the one that at least one of them says and none contradicts, for the literal values of each |
| `BearerClaims.ListedIff` | packages/rust/crates/ore-mcp-remote/src/verifier.rs:540-554 | a list is accepted exactly if it holds one to 128 valid tokens, as many as different ones |
| `BearerClaims.TokenIff` | packages/rust/crates/ore-mcp-remote/src/verifier.rs:563-569 | a claim token is one to the given number of ASCII codes 33 to 126 without 34, 39 and 44 |
| `BearerClaims.SpaceIff` | packages/rust/crates/ore-mcp-remote/src/verifier.rs:536-536 | scopes are separated by codes 9, 10, 12, 13 and 32 |
| `BearerClaims.InvalidCredentialIff` | packages/rust/crates/ore-mcp-remote/src/verifier.rs:439-448 | the credential rather than the policy is blamed exactly for audience and time order, and only for a valid subject |
| `BearerClaims.WeakerPolicyAccepts` | packages/rust/crates/ore-mcp-remote/src/verifier.rs:435-493 | weakening the policy never turns acceptance into rejection and never changes the principal |
| `PackageGraph.ClosedSetHoldsPath` | scripts/zed_wave_2_registry_readiness.py:99-110 | a set that holds the roots and follows every edge holds everything reachable |
| `PackageGraph.PathGoesDown` | scripts/zed_wave_2_registry_readiness.py:113-136 | along a path of dependencies, positions in a dependency order strictly fall |
| `PackageGraph.OrderedIsAcyclic` | scripts/zed_wave_2_registry_readiness.py:113-136 | a map that can be ordered completely has no cycle |
| `PackageGraph.OrderedIsClosed` | scripts/zed_wave_2_registry_readiness.py:130-131 | in a complete order every dependency is a package |
| `PackageGraph.RestrictIsTopological` | scripts/zed_wave_2_registry_readiness.py:113-136 | the order that the script returns stays a dependency order when restricted to any dependency-closed set (the script itself does not restrict it) |
| `PackageReadiness.DepthFirst.Visit` | scripts/zed_wave_2_registry_readiness.py:118-133 | a visit ends with its package and everything below it ordered and the stack restored, or with a genuine cycle or dangling name |
| `PackageReadiness.DepthFirst.VisitDependencies` | scripts/zed_wave_2_registry_readiness.py:128-131 | all dependencies of the package on top of the stack get ordered, or a genuine failure is reported |
| `PackageReadiness.DepthFirst.CycleFrom` | scripts/zed_wave_2_registry_readiness.py:122-125 | the reported path is a cycle of edges that repeats no package but its ends |
| `PackageReadiness.ValidateAcyclic` | scripts/zed_wave_2_registry_readiness.py:113-136 | terminates on every map; returns each package once, dependencies first, exactly when the map is acyclic and names only packages; otherwise reports a genuine cycle or dangling name |
| `PackageReadiness.PackageClosure` | scripts/zed_wave_2_registry_readiness.py:99-110 | terminates, fails exactly when something reachable is not a package, and otherwise returns exactly what is reachable from the roots |
| `PackageReadiness.ConsumerReadiness` | scripts/zed_wave_2_registry_readiness.py:471-487 | a consumer may resolve exactly when every package reachable from its direct dependencies is ready; the packages that block it are listed in name order, exactly |
| `PackageReadiness.InstallOrder` | scripts/zed_wave_2_registry_readiness.py:245-245 | relates two results that the script returns together, without combining them: its topological order, restricted to one consumer's closure, installs exactly that closure, dependencies first |
| `JsonScanner.BalancedObjectEnd` | packages/rust/crates/ore-mcp-fleet-audit/src/lib.rs:383-412 | for text starting with an opening brace, the least end where every brace outside strings is closed, none if there is none, and the depth never underflows |
| `JsonScanner.ObjectEndIsUnique` | packages/rust/crates/ore-mcp-fleet-audit/src/lib.rs:383-412 | there is at most one such end |
| `JsonScanner.CodeCountsBraces` | packages/rust/crates/ore-mcp-fleet-audit/src/lib.rs:399-409 | outside strings the depth moves by opening less closing braces, whatever else the text holds |
| `JsonScanner.StringCountsNothing` | packages/rust/crates/ore-mcp-fleet-audit/src/lib.rs:389-397 | inside a string nothing counts, and it ends at the first quote that no backslash escapes |
| `JsonScanner.NeutralConcat` | packages/rust/crates/ore-mcp-fleet-audit/src/lib.rs:388-410 | texts that leave depth and mode as they found them compose |
| `JsonPrinting.ItemsNeverLeave` | packages/rust/crates/ore-mcp-fleet-audit/src/lib.rs:389-397 | no prefix of a string body, cut inside an escape or not, leaves the string |
| `JsonPrinting.ValueIsNeutral` | packages/rust/crates/ore-mcp-fleet-audit/src/lib.rs:383-412 | every printed JSON value leaves the scanner where it was, never below its depth |
| `JsonPrinting.PrintedObjectEnds` | packages/rust/crates/ore-mcp-fleet-audit/src/lib.rs:383-412 | for every object value, any white space, any escapes and any suffix, the end found is the printed length |
| `LiteralSchemas.ValueStart` | packages/rust/crates/ore-mcp-fleet-audit/src/lib.rs:339-348 | the first position after the first colon that is not white space, or none without a colon |
| `LiteralSchemas.SchemaOf` | packages/rust/crates/ore-mcp-fleet-audit/src/lib.rs:338-357 | reports exactly the schema that the occurrence introduces, with the position of its brace and its extent |
| `LiteralSchemas.FindSchemas` | packages/rust/crates/ore-mcp-fleet-audit/src/lib.rs:336-360 | one report per accepted occurrence, in order |
| `LiteralSchemas.CollectedIff` | packages/rust/crates/ore-mcp-fleet-audit/src/lib.rs:336-360 | a schema is in the report exactly when an occurrence introduces a balanced, accepted object at that very position |
| `LiteralSchemas.OccurrencesCover` | packages/rust/crates/ore-mcp-fleet-audit/src/lib.rs:338-338 | no occurrence is missed, except one that overlaps an earlier one |
| `LiteralSchemas.OccurrencesApart` | packages/rust/crates/ore-mcp-fleet-audit/src/lib.rs:338-338 | the occurrences stand in order and do not overlap |
| `LiteralSchemas.SpaceIff` | packages/rust/crates/ore-mcp-fleet-audit/src/lib.rs:344-344 | the white space skipped before a value, by code point |
| `LiteralSchemas.PrintedSchemaIsReported` | packages/rust/crates/ore-mcp-fleet-audit/src/lib.rs:336-360 | an object printed after a colon and a needle that no other needle overlaps from the left is in the report, with the position of its first character and its whole length |
| `LiteralSchemas.LineOfPosition` | packages/rust/crates/ore-mcp-fleet-audit/src/lib.rs:415-417 | every position of a line is reported with that line's number, from one |
| `LiteralSchemas.LineOfBeyond` | packages/rust/crates/ore-mcp-fleet-audit/src/lib.rs:415-417 | an offset behind the text is reported as the last line |
| `ProductionText.CfgTestIff` | tooling/audit_rust_mcp_server.py:38-38 | the attribute test accepts exactly the tokens of the attribute with nothing but white space around and between them |
| `ProductionText.SkippableIff` | tooling/audit_rust_mcp_server.py:118-121 | skipped are lines of white space alone and lines that start, after white space, with an attribute |
| `ProductionText.SpaceIff` | tooling/audit_rust_mcp_server.py:38-38 | white space, by code point |
| `ProductionText.DepthCounts` | tooling/audit_rust_mcp_server.py:87-96 | the running depth is the number of opening less the number of closing braces in the lines so far |
| `ProductionText.SkipRemoved` | tooling/audit_rust_mcp_server.py:117-134 | the lines passed over are the attribute, blank and attribute lines, and the lines up to the first prefix that completes an item |
| `ProductionText.ProductionText` | tooling/audit_rust_mcp_server.py:99-136 | the nested loops terminate and return what the definition by whole prefixes gives |
| `ProductionText.ProductionIsSubsequence` | tooling/audit_rust_mcp_server.py:108-136 | the result is source lines in their order, without any exact test attribute |
| `ProductionText.ProductionIsIdempotent` | tooling/audit_rust_mcp_server.py:99-136 | a second pass changes nothing |
| `ProductionText.BalancedItemIff` | tooling/audit_rust_mcp_server.py:123-134 | a brace-balanced item, its header over any number of lines, is one item exactly when no line before its first brace holds a semicolon |
| `ProductionText.PlainItemIff` | tooling/audit_rust_mcp_server.py:123-134 | an item without braces is one item exactly when its last line is its only line with a semicolon |
| `ProductionText.ResumesBehindIff` | tooling/audit_rust_mcp_server.py:117-134 | for any lines behind the attribute: the scan resumes exactly behind them, whatever follows, if and only if they are one item after their leading attribute and blank lines |
| `ProductionText.BalancedItemIsRemovedIff` | tooling/audit_rust_mcp_server.py:102-106 | after an attribute-free prefix, a brace-balanced item without test attributes inside is removed, and only it, exactly when no line before its first brace holds a semicolon |
| `ProductionText.EarlySemicolonCutsItem` | tooling/audit_rust_mcp_server.py:133-134 | otherwise the first such line ends the removal, and the rest of the item is scanned as production text |
| `ProductionText.SpannedSignatureIsCut` | tooling/audit_rust_mcp_server.py:133-134 | a concrete test function with its signature over two lines, whose body stays in the production text |
| `ProductionText.SharedLineIsNotResumed` | tooling/audit_rust_mcp_server.py:118-121 | a concrete test function sharing its first line with an attribute: the scan does not resume behind it |
| `ProductionText.OnlyTheTestItemIsRemoved` | tooling/audit_rust_mcp_server.py:102-106 | after an attribute-free prefix exactly the lines of one item go (which lines are one item is the subject of `BalancedItemIff` and `PlainItemIff`), and the source behind it is scanned again |
| `ProductionText.UnterminatedItemIsExcluded` | tooling/audit_rust_mcp_server.py:90-94 | an item that never completes takes everything after its attribute with it |
| `BoundedCapture.BoundedBytes.ExtendFromSlice` | packages/rust/crates/ore-mcp-safety/src/lib.rs:111-122 | appends the whole chunk or nothing, and refuses exactly beyond the limit |
| `BoundedCapture.ReadPipeBounded` | packages/rust/crates/ore-mcp-process/src/lib.rs:344-363 | succeeds with the whole stream exactly when the limit is valid, the stream fits and ends cleanly; otherwise names the reason |
| `BoundedCapture.ReadPipeTruncating` | packages/rust/crates/ore-mcp-process/src/lib.rs:365-387 | the first bytes up to the limit, and how many were dropped, saturating at the machine word |
| `BoundedCapture.PoliciesAgree` | packages/rust/crates/ore-mcp-process/src/lib.rs:344-387 | fail-fast capture returns some bytes exactly when truncating capture returns them with nothing dropped |
| `BoundedCapture.ChunkingIsIrrelevant` | packages/rust/crates/ore-mcp-process/src/lib.rs:344-387 | cutting any chunk in two changes neither what is received nor how the stream ends |
| `BoundedCapture.ReceivedIs` | packages/rust/crates/ore-mcp-process/src/lib.rs:354-361 | what is received is the pieces up to the first end of file, one after the other |
| `BoundedCapture.TruncationAccounts` | packages/rust/crates/ore-mcp-process/src/lib.rs:375-386 | kept and dropped bytes add up to the stream while the count fits the machine word, and less than the limit is kept only when all is |
| `BoundedCapture.BoundedIsWhole` | packages/rust/crates/ore-mcp-process/src/lib.rs:352-362 | the whole stream exactly for limits from 1,024 to 16,777,216 that it fits when it ends cleanly; the reason otherwise |
| `Utf8Truncation.BoundaryIff` | packages/rust/crates/ore-mcp-safety/src/lib.rs:73-73 | cutting well-formed UTF-8 leaves a well-formed prefix exactly at the character boundaries |
| `Utf8Truncation.WellFormedIff` | packages/rust/crates/ore-mcp-safety/src/lib.rs:65-80 | the well-formed byte strings of the model are exactly the encodings of sequences of Unicode scalar values |
| `Utf8Truncation.BoundaryIsNear` | packages/rust/crates/ore-mcp-safety/src/lib.rs:73-75 | a boundary lies at most three bytes before any position |
| `Utf8Truncation.Concatenation` | packages/rust/crates/ore-mcp-safety/src/lib.rs:76-78 | joining well-formed texts gives a well-formed text |
| `Utf8Truncation.TruncateUtf8` | packages/rust/crates/ore-mcp-safety/src/lib.rs:65-80 | well-formed, within the limit, unchanged when it fits; otherwise the longest character-aligned prefix that leaves room for the suffix, at most three bytes short of the limit |
| `ParitySurface.BinarySearchFinds` | packages/rust/crates/ore-mcp-org-server/src/augment.rs:164-166 | over ascending names, binary search is membership in the searched range |
| `ParitySurface.ParityNamesAscend` | packages/rust/crates/ore-mcp-org-server/src/augment.rs:18-34 | the constant list is in strict order |
| `ParitySurface.ParityToolIsMembership` | packages/rust/crates/ore-mcp-org-server/src/augment.rs:164-166 | the test accepts exactly the fifteen names |
| `ParitySurface.MergeTools` | packages/rust/crates/ore-mcp-org-server/src/augment.rs:101-119 | the loop returns the sorted union in which a parity tool yields to a primary one of the same name |
| `ParitySurface.MergedPage` | packages/rust/crates/ore-mcp-org-server/src/augment.rs:116-118 | cursor and metadata are the primary handler's where it has them, the shared handler's otherwise |
| `ParitySurface.ListingElements` | packages/rust/crates/ore-mcp-org-server/src/augment.rs:101-119 | exactly which tools are listed, in name order |
| `ParitySurface.ListingIsDistinct` | packages/rust/crates/ore-mcp-org-server/src/augment.rs:107-112 | no name is listed twice if the primary list has none twice |
| `ParitySurface.ListingAgreesWithRouting` | packages/rust/crates/ore-mcp-org-server/src/augment.rs:66-81 | after construction, with a primary list that agrees with its own lookup: exact union, strict order, and every listed tool is routed to and returned by the handler that contributed it |
| `ParitySurface.RoutingAgreesIff` | packages/rust/crates/ore-mcp-org-server/src/augment.rs:196-227 | listing and routing agree exactly when the primary list holds no parity name |
| `ParitySurface.AcceptedButMisrouted` | packages/rust/crates/ore-mcp-org-server/src/augment.rs:66-75 | a primary handler that lists a parity name and answers to none is accepted, and its listed tool is routed elsewhere |
| `ParitySurface.MisroutedCompositionIsAccepted` | packages/rust/crates/ore-mcp-org-server/src/augment.rs:66-75 | one such composition, with a parity handler that lists and answers exactly its fifteen tools |
| `AuthorityChoice.SplitIsUnique` | tooling/audit_mcp_fleet.py:183-183 | splitting a joined path gives back its slash-free pieces |
| `AuthorityChoice.MirrorRanksFirst` | tooling/audit_mcp_fleet.py:180-198 | the best rank goes exactly to the checkouts whose path is the owner and name of their remote, up to folding |
| `AuthorityChoice.OwnersDirectoryRanksNext` | tooling/audit_mcp_fleet.py:192-197 | the first two ranks go exactly to the checkouts in the directory of their remote's owner, up to folding |
| `AuthorityChoice.LeastScoreIsPreferred` | tooling/audit_mcp_fleet.py:180-198 | a smaller score means: mirrors its remote if the other does, lies in the owner's directory if the other does, then fewer directories, then the smaller folded path |
| `Ordering.StrLeIff` | tooling/audit_mcp_fleet.py:198-198 | strings compare as prefix or by the first character that differs |
| `AuthorityChoice.GroupAll` | tooling/audit_mcp_fleet.py:206-212 | every checkout is in the group of its repository or among the unclassified, in input order |
| `AuthorityChoice.SelectAuthoritative` | tooling/audit_mcp_fleet.py:201-223 | the loops return the selection that the lemmas below describe |
| `AuthorityChoice.ChoiceIsBest` | tooling/audit_mcp_fleet.py:216-220 | one checkout per repository, in key order, none scoring better (what a better score means is `LeastScoreIsPreferred`); each duplicate beside its own repository's choice |
| `AuthorityChoice.GroupsAreAll` | tooling/audit_mcp_fleet.py:206-212 | groups and unclassified together are the candidates, each as often as it occurs |
| `AuthorityChoice.SelectionIsAPartition` | tooling/audit_mcp_fleet.py:201-223 | every candidate is in exactly one output; exactly one least-score choice per repository; duplicates are paired with their own repository's choice |
| `AuthorityChoice.SelectionInPlainTerms` | tooling/audit_mcp_fleet.py:201-223 | a chosen checkout mirrors its remote if any checkout of its repository does, lies in the owner's directory if any does, and among equals has the fewest directories, then the least folded path; only roots with a known remote are chosen or duplicates |
| `AuthorityChoice.SelectionIsOrdered` | tooling/audit_mcp_fleet.py:216-223 | every repository with a checkout is chosen once, in strict order of folded repositories; the unclassified stand in order of their folded paths |
| `AuthorityChoice.OrderIsIrrelevant` | tooling/audit_mcp_fleet.py:201-223 | with distinct folded paths, the selection does not depend on the order of discovery |

## Left out

- Session table: the MCP service behind it and the number of sessions inside its own manager, whose code is not part of this model; the closing of a refused session is a step that touches neither table nor permits.
- Session table: parsing of the bearer and session headers. Their outcomes are parameters; a request that fails there never reaches the table.
- Session table: `retain` reads the clock once per binding and `AuthorizeMcp` reads it twice; here one instant serves for each sweep and for the undisturbed pass. The state machine lets time pass between any two steps.
- Key cache: fetching, parsing and validating a key set, decoding the token and checking its signature, issuer and expiry are oracles. `parse_jwks`, `verify_with_keys` and `valid_access_token` would add single-branch checks.
- Key cache: taking the time of a fetch and writing the cache are one step; nothing else can write in between, because the writer holds the mutex.
- Claims: strings are sequences of characters. Claim tokens must be ASCII, so lengths in bytes and in characters agree wherever a token is accepted; a longer non-ASCII value is refused either way.
- Package graph: Python's recursion limit. The visit here has no bound on depth; the original raises on very deep graphs.
- Package graph: the manifest's counts and coordinates, and the probing of the registry. The state of each package is a parameter of `ConsumerReadiness`.
- Scanners: offsets and extents count characters, the original counts bytes of UTF-8. Quotes, backslashes, braces, colons and the needle are ASCII, and the white space skipped before a value is recognised by character in the original too, so the decisions are the same and only the numbers differ after a longer character.
- Scanners: `tool_names`, which uses the same search without a scanner, and the walking of source trees.
- Scanners: splitting a file into lines, joining them again, and decoding errors. `ProductionText` works on lists of lines.
- Capture: the child process, its deadlines and the 8 KiB read buffer. Chunks may have any size here.
- Surface: merging of resources and prompts, which has the same shape with fewer conditions, validation of the organization spec, and listings of more than one page.
- Deduplication: discovering checkouts and asking git. Case folding is a parameter, so the results hold for any folding.
- Provider adapters, URL and origin policy, telemetry, configuration and the evidence ledgers: network and file access, or long lists of independent single checks.
