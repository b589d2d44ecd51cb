# sbx: a model of its protocols, in Dafny

sbx fronts sandboxes that sleep: it wakes a service when a connection arrives, stops it when it has
been quiet, injects credentials into requests on their way out, filters what a sandbox may reach,
carries connections through a WebSocket tunnel, and snapshots a sandbox's services. This project
models the parts of it that are hardest to get right and proves what they promise, for every input,
every interleaving and every reachable state.

`dafny verify dfyconfig.toml` checks all of it.

| file | what it models |
|---|---|
| `Text.dfy`, `Counting.dfy` | string helpers; facts about finite sets |
| `Bindings.dfy`, `Overlap.dfy`, `AuthRules.dfy` | normalizing a credential binding, which requests it matches, when two overlap, what it writes |
| `Authority.dfy` | the certificate authority's name constraints (section 4.2.1.10 of RFC 5280) |
| `Mutations.dfy`, `Vault.dfy`, `VaultRuns.dfy` | the credential vault, and what holds over every sequence of writes to it |
| `VaultWrites.dfy`, `StoredAs.dfy`, `ProbeOnly.dfy` | exactly which writes are accepted, what they leave in terms of the request's own strings, and a vault whose wildcard goes unsigned |
| `WebSocket.dfy`, `ServerStream.dfy` | the frame codec (sections 5.2 to 5.5 of RFC 6455), read at both ends |
| `Tunnel.dfy`, `TunnelEnds.dfy` | the half-close protocol between the two ends of a tunnel, and how it ends |
| `WakeWalk.dfy`, `WakeBelow.dfy` | waking a service's dependencies before it, and which of them a service below the root can count on |
| `UnitLock.dfy`, `IdleWindow.dfy`, `StaysPaused.dfy`, `WakeMeans.dfy` | everything that drives one container: wakes, sleeps, pauses, corrections, touches; what a wake that returns nil means |
| `PauseHold.dfy`, `ThawRace.dfy`, `FailedCalls.dfy` | pausing and resuming a whole sandbox, by any number of calls at once, and what a failed call leaves |
| `Reaper.dfy` | which units a reaper tick stops, and how a sandbox drains |
| `Refresh.dfy` | coalesced discovery passes |
| `EgressPolicy.dfy` | several processes changing one filter's policy |
| `Snapshots.dfy` | snapshot with rollback and thaw |
| `SleepLayers.dfy` | the order in which `sbx sleep` stops services |
| `Jsonc.dfy`, `JsoncRoundTrip.dfy` | removing comments and trailing commas from a devcontainer file |

Algorithms that the source runs in place on fields or buffers are classes and methods here, each
proved against a function of its inputs, and the promises are proved of that function. Goroutines
that share state are state machines: one event is one critical section, or one action between two of
them, and a theorem speaks of every state some sequence of events reaches. A provider call is two
events, issued and answered, with any answer.

## What came out

Where the code does not do what its comments or its design say, the model keeps the code, exhibits
the case, and proves exactly when the promise does hold.

- **A wildcard can be accepted and not covered.** `certifiable` stands one name, `probe.` + domain,
  in for all of them. A constraint that is literally that name lets the binding in and leaves other
  hosts of the wildcard unsigned, for every domain (`ProbeOnly.AcceptedAndUncovered`); coverage holds
  exactly when some other constraint permits the probe (`Authority.ProbeIsExact`,
  `VaultRuns.AuthorityCoversBindings`).
- **Retiring a name and reusing it in one PATCH** is what the comment above `applyCredentials`
  describes (internal/credvault/vault.go:628-630); the code refuses it, since a deleted name counts as
  touched. `Mutations.MutatedFacts` proves what the code does.
- **The idle window after a wake can be cut short.** `touch` reads the clock and stores it in two
  steps without a lock, so it can store a reading older than the wake's
  (`IdleWindow.StaleReadingHappens`). The window is kept exactly when, as the wake returns, no older
  reading is waiting to be stored or the window has run out already
  (`IdleWindow.WindowIffNoStaleReading`).
- **A resume under way can undo a later pause.** `Thaw` clears each unit's flag a second time just
  before waking it, and waits for no Hold to do so. A `Freeze` whose Hold ends in between can return nil
  and have a wake let in on one of its units with no release after (`ThawRace.ThawBreaksPause`,
  `ThawRace.ThawMayBeUnderWay`); two concurrent resumes and a pause get there. Wakes are kept out
  exactly when, as Freeze's Hold ends, no Thaw can still clear a flag: none is about to, and none with
  another unit to go to has a wake that was let in, came up, or is still to be checked against a flag
  that is clear (`ThawRace.PauseIsKeptIff`). Hold itself stores one flag at a time here, as it does in
  the source.
- **A unit paused through the API can be stopped under its hold.** `sleep` re-reads the idle clock and
  not the belief, so a sleep the reaper had already decided on stops the paused container and loses
  its memory (`StaysPaused.SleepCanBeOnItsWay`). It stays paused exactly when no stop of it was on its
  way (`StaysPaused.StaysPausedIff`).
- **A wake can return nil over a paused container.** `sleep` takes the failure of its own Pause to mean
  that the workload still runs. When a pause through the API got the lock first, that Pause fails
  because the container is paused already, and the unit is believed awake from then on
  (`WakeMeans.NilOverPaused`). Belief and container agree after a step if and only if it is not a sleep's
  failed call on a container that is not running (`WakeMeans.AgreeingIff`); in runs without one, nil
  means running (`WakeMeans.NilMeansRunning`).
- **Below the root of a wake walk a shared dependency may lag.** A branch that finds a dependency
  claimed by another does not wait for it (`WakeWalk.SharedDependencyMayLag`). The root's promise is
  whole (`WakeWalk.DependenciesAreUpFirst`); a unit below it gets a dependency up first, in every
  schedule, exactly when every path from the root to that dependency goes through the unit
  (`WakeBelow.BelowRootIff`).
- **Cycles in `sleepLayers`** do not end in the last layer together, as its comment says: no cycle of
  two services or more is in one layer (`SleepLayers.SleepLayers`, `SleepLayers.MutualPairIsSpread`),
  though all of them come after everything no cycle is above.
- **A snapshot on a backend without named volumes** could not take back the volumes it copied, though
  its message says they were removed: failing calls restore the volumes exactly when the backend has
  named volumes or the sandbox has no volume (`Snapshots.Engine.Snapshot`,
  `Snapshots.LeavesVolumeBehind`). Every backend there is today has them, or keeps no volume.
- **`[::1]:443` keeps its port.** `splitHostPort` looks for the bracket after the last colon, where it
  never is, so a host that begins with a bracket is never split (`Overlap.BracketedPortStays`).

## Model

| member | source | states |
|---|---|---|
| Bindings.NormalizeInPlace | internal/credvault/validate.go:114-185 | the loop over one list of a match succeeds exactly when every entry has a normal form, and then leaves those forms in the array |
| Bindings.DedupeInPlace | internal/credvault/validate.go:628-640 | the kept prefix is the list without repeats, in order of first appearance |
| Bindings.MatchIsNormal | internal/credvault/validate.go:114-220 | a normalized match is normal, and normalizing it again changes nothing |
| Overlap.HostOverlapExact | internal/credvault/validate.go:522-550 | two host patterns overlap if and only if some host is matched by both, and the example is such a host |
| Overlap.PathOverlapExact | internal/credvault/validate.go:571-595 | two path patterns overlap if and only if some path is matched by both, and the example is such a path |
| Overlap.OverlapIsExact | internal/credvault/validate.go:465-487 | bindingsOverlap answers true if and only if some request (scheme, host, method, path) is matched by both normalized bindings, and the example it names is one |
| Overlap.BracketedPortStays | internal/credvault/apply.go:176-188 | a host that begins with a bracket keeps whatever port it has |
| Overlap.MatchedNamesAreAskable | internal/credvault/apply.go:160-188 | no Host header is read as a name that begins with a closing bracket and holds a colon with no closing bracket after it |
| Overlap.HeaderIsReadAs | internal/credvault/apply.go:160-188 | every other clean name is what some Host header is read as |
| AuthRules.NormalKindIsKnown | internal/credvault/validate.go:236-302 | an auth that normalizes has one of the kinds applyAuth knows |
| AuthRules.ApplyResolves | internal/credvault/apply.go:241-330 | an auth of a known kind applies exactly when every credential credentialsOf lists for it is held, and the i-th value written is the i-th listed credential's (where and how: AuthRules.AppliesAsDeclared) |
| AuthRules.AppliesAsDeclared | internal/credvault/apply.go:241-330 | what is written, by the auth's own strings: bearer is `Authorization` with Bearer, basic `Authorization` with Basic, apiKey a plain header of the auth's name, customHeaders its i-th header plain, passthrough none; then the k-th substitution's own placeholder, surfaces and credential value |
| Authority.MakeDnsConstraints | internal/credvault/ca.go:297-330 | the loop builds the constraints in order, without repeats, and fails on an address or an empty list |
| Authority.ConstraintsRefusedIff | internal/credvault/ca.go:297-330 | refused if and only if the list is empty, or some entry is blank or an address under its wildcard or dot |
| Authority.CoveredByList | internal/credvault/ca.go:297-352 | a name is covered by the constraints made from a host list exactly when some listed host takes it in by the suffix rule |
| Authority.ConstraintsCoverMatches | internal/credvault/ca.go:297-352 | constraints made from a list of names and wildcards cover everything the list matches |
| Authority.DottedListIsCoveredIff | internal/credvault/ca.go:297-352 | with entries that begin with a dot, that holds if and only if each of them is taken in by another listed host |
| Authority.DottedNameIsNotCovered | internal/credvault/ca.go:335-352 | a constraint beginning with a dot does not cover that name; no policy yields such an entry |
| Authority.ProbeIsExact | internal/credvault/vault.go:485-524 | every host of a wildcard is covered if and only if some constraint other than the probe name permits the probe name |
| Authority.ProbeAloneCoversNothingElse | internal/credvault/vault.go:485-524 | a wildcard can pass through a constraint that is only the probe name, with its hosts uncovered |
| ProbeOnly.AcceptedAndUncovered | internal/credvault/vault.go:206-250 | for every domain, a reachable vault that accepted a wildcard binding on it through the probe name alone, and a host of that binding its authority does not cover |
| Authority.CertificateAuthority.Leaf | internal/credvault/ca.go:202-265 | Leaf refuses exactly what Covers denies, cached or not, and everything once destroyed |
| Authority.CertificateAuthority.Destroy | internal/credvault/ca.go:273-287 | a destroyed authority keeps no leaf |
| Mutations.Apply | internal/credvault/vault.go:631-768 | delete, replace and add with one touched set succeed exactly on a legal mutation, and give the map it denotes |
| Mutations.MutatedFacts | internal/credvault/vault.go:631-768 | on success deleted, replaced and added names are pairwise disjoint, the names held are the old minus deleted plus added, entries are stored and the rest is untouched |
| Mutations.OrderFree | internal/credvault/vault.go:631-768 | reordering the entries of a mutation changes neither whether it is accepted nor the result |
| VaultWrites.CheckedIff | internal/credvault/validate.go:384-456 | a candidate passes if and only if no authority was lost, every listed credential is held, the policy and the authority both permit the name each host is asked by, and no request is matched by two bindings |
| VaultWrites.SeparateIffApart | internal/credvault/validate.go:436-487 | the pairwise test in name order passes if and only if no request is matched by two bindings |
| VaultWrites.CreateAcceptedIff | internal/credvault/vault.go:206-250 | Create is accepted if and only if there is no vault, the entries are legal and what they come to passes; no policy in force refuses any binding |
| VaultWrites.PatchAcceptedIff | internal/credvault/vault.go:257-296 | Patch is accepted if and only if there is a vault, at the expected revision if one is given, the operations are legal and their result passes |
| StoredAs.CreateStores | internal/credvault/vault.go:206-250 | after an accepted Create each binding matches exactly the requests asked for and has the auth asked for, each credential has the value given, and there is nothing else |
| StoredAs.PatchStores | internal/credvault/vault.go:257-296 | after an accepted Patch the same holds of every entry replaced or added |
| StoredAs.MatchStandsFor | internal/credvault/validate.go:114-185 | a stored match takes in exactly the requests its unnormalized lists ask for; an empty list is https alone, the five usual methods, or every path |
| StoredAs.SchemesAre | internal/credvault/apply.go:146-156 | a request's scheme is its URL's in lower case, else https exactly over TLS; port 443 is https, 80 http and no other port has one |
| StoredAs.AuthStandsFor | internal/credvault/validate.go:236-379 | a stored auth keeps the kind, credentials, header names up to letter case, placeholders and surfaces it was written with |
| StoredAs.MatchAcceptedIff | internal/credvault/validate.go:114-185 | which matches are accepted, in both directions |
| StoredAs.HostAcceptedIff | internal/credvault/validate.go:190-234 | a host is accepted if and only if, trimmed and lowered, it is two well-formed labels or more, or a wildcard over them |
| StoredAs.AuthAcceptedIff | internal/credvault/validate.go:236-379 | which auths are accepted, in both directions |
| StoredAs.CredentialAcceptedIff | internal/credvault/validate.go:77-94 | a credential is accepted if and only if it is named, inline and not empty |
| StoredAs.FramingHeadersAreRefused | internal/credvault/validate.go:65-74 | no auth may set a header that frames the message, whatever its letter case |
| Vault.CredentialVault.CreateVault | internal/credvault/vault.go:206-250 | Create's new state and error, and no change on error (when it is accepted: VaultWrites.CreateAcceptedIff) |
| Vault.CredentialVault.PatchVault | internal/credvault/vault.go:257-296 | Patch's new state and error, and no change on error (when it is accepted: VaultWrites.PatchAcceptedIff) |
| Vault.CredentialVault.DeleteVault | internal/credvault/vault.go:306-318 | Delete empties the vault and its revision and leaves its authority |
| Vault.CredentialVault.CloseVault | internal/credvault/vault.go:444-455 | closing empties the vault, gives up its authority and destroys it: whoever still holds it can sign nothing |
| Vault.CredentialVault.LeafFor | internal/credvault/intercept.go:239-250 | no leaf exactly without a vault or an authority, else signed exactly when the authority covers the host |
| Vault.CredentialVault.ApplyTo | internal/credvault/apply.go:73-126 | which binding a request is sent with and what is written, or which error (what that is by the auth's own strings: AuthRules.AppliesAsDeclared) |
| Vault.CredentialVault.IsBound | internal/credvault/vault.go:413-441 | the search over bindings, stopped at the first hit, answers true if and only if some binding of a live vault covers the canonical host on the port's scheme |
| VaultRuns.StepKeepsSound | internal/credvault/vault.go:206-318 | every write keeps bindings normal and pairwise disjoint, references closed and probes covered, whatever policy is in force |
| VaultRuns.AtMostOneMatches | internal/credvault/validate.go:436-456 | no request is matched by two bindings of a sound vault |
| VaultRuns.ApplyNeverFails | internal/credvault/apply.go:73-126 | in every reachable vault and for every request Apply never ends ambiguous, on a missing credential or an unknown auth type; it sends exactly when a binding matches, with that binding's headers, encodings, placeholders and surfaces and the credentials' present values |
| VaultRuns.BoundMeansSome | internal/credvault/vault.go:413-441 | in every reachable vault, for every host and port: it is bound and can be named in a Host header if and only if some request to it on that scheme would be sent with a binding |
| VaultRuns.AuthorityCoversBindings | internal/credvault/vault.go:458-524 | in every reachable vault the authority covers every host a binding matches, if and only if each wildcard's probe is permitted by a constraint other than the probe name |
| VaultRuns.SignBound | internal/credvault/intercept.go:239-250 | a host that Bound accepts is never refused a leaf, under that condition |
| VaultRuns.RefusedChangesNothing | internal/credvault/vault.go:206-318 | an error from any write leaves the vault as it was |
| VaultRuns.PatchIsExact | internal/credvault/vault.go:257-296 | an accepted PATCH raises the revision by exactly one and changes exactly the records it names |
| VaultRuns.PatchOrderFree | internal/credvault/vault.go:257-296 | two PATCH requests that differ in the order of entries do the same |
| VaultRuns.StaleWriterLoses | internal/credvault/vault.go:257-296 | of two PATCH requests naming one expected revision in one lifetime at most one is accepted |
| WebSocket.Write | internal/daemon/ws.go:259-303 | a frame's bytes: one final frame, three length forms, masked on the client side |
| WebSocket.Unmask | internal/daemon/ws.go:250-252 | unmasking in place is the masking function of what was there |
| WebSocket.Connection.NextFrame | internal/daemon/ws.go:191-255 | readOne returns and consumes what the frame grammar says, refuses what it refuses, and every frame consumes input |
| WebSocket.Connection.NextMessage | internal/daemon/ws.go:149-188 | readFrame assembles fragments, answers pings, and consumes input |
| WebSocket.LengthRoundTrip | internal/daemon/ws.go:259-303 | the three length forms declare the length they encode |
| WebSocket.MaskTwice | internal/daemon/ws.go:282-296 | masking is its own inverse |
| WebSocket.FrameRoundTrip | internal/daemon/ws.go:191-303 | a masked frame reads back with its final bit, opcode and payload and leaves exactly what followed, for every opcode, key and length up to the ceiling |
| WebSocket.ServerRoundTrip | internal/daemon/ws.go:307-368 | an unmasked data frame reads back through readServerFrame |
| ServerStream.ServerStreamDecodes | internal/daemon/ws.go:307-368 | repeated readServerFrame gives exactly the messages of a server's stream, of any size, in order, then its end, with control frames anywhere |
| WebSocket.MessageReads | internal/daemon/ws.go:149-188 | a message comes back whole however it was cut and whatever control frames are between, pings answered in order; refused exactly when over the ceiling |
| WebSocket.StreamDecodes | internal/daemon/ws.go:149-255 | repeated readFrame gives exactly the messages of a well-formed stream, in order, then its end, with control frames anywhere, after the last message too |
| WebSocket.CloseEnds | internal/daemon/ws.go:149-188 | after any messages, and in the middle of one, a close frame ends decoding with Closed and exactly the messages before it |
| WebSocket.BadFramesAreRefused | internal/daemon/ws.go:149-255 | reserved bits, an unmasked frame and an unknown opcode are refused |
| Tunnel.TunnelIsFaithful | internal/daemon/connect.go:531-630 | in every interleaving bytes written are a prefix of bytes read at the other end, end of input is passed on only after all of them, an end closes only after both its directions finished, and no loop fails |
| Tunnel.ClosedIsComplete | internal/daemon/client.go:758-863 | once both ends closed, everything was delivered both ways |
| Tunnel.NeverStuck | internal/daemon/client.go:758-863 | until both ends closed some loop can step without reading new input |
| Tunnel.WorkRunsOut | internal/daemon/connect.go:531-630 | every step but reading new input uses up work |
| TunnelEnds.EndedInputsClose | internal/daemon/connect.go:531-630 | once no new input is read every run is bounded, and can stop only with both ends closed and everything delivered |
| WakeWalk.WokenAtMostOnce | internal/daemon/proxy.go:248-259 | no schedule wakes a unit twice |
| WakeWalk.DependenciesAreUpFirst | internal/daemon/proxy.go:544-550 | when the root is about to start, everything it transitively depends on, across diamonds and cycles, was woken and came up, and the root was not woken yet |
| WakeWalk.GivesUpIffOneFailed | internal/daemon/proxy.go:265-317 | the walk ends without starting the root exactly when some unit it woke did not come up |
| WakeWalk.WalkEnds | internal/daemon/proxy.go:211-317 | no schedule is longer than six steps a unit and one an edge, cycles included |
| WakeWalk.NeverStuck | internal/daemon/proxy.go:265-317 | until the walk returns some goroutine can step |
| WakeWalk.NothingRunsOn | internal/daemon/proxy.go:265-317 | when it returns every goroutine it spawned has ended |
| WakeWalk.EndsAsAnswered | internal/daemon/proxy.go:265-317 | what a unit's own wake answered is how the walk records it, to the end of every run |
| WakeWalk.SharedDependencyMayLag | internal/daemon/proxy.go:265-317 | a unit below the root can be about to start while a dependency another branch claimed has not been woken |
| WakeBelow.BelowRootIff | internal/daemon/proxy.go:265-317 | a unit below the root has a dependency up before it starts, in every schedule, if and only if every path from the root to that dependency goes through the unit |
| WakeBelow.AvoidedMayLag | internal/daemon/proxy.go:248-317 | for every other graph, a schedule in which the unit is about to start and the dependency has not been woken |
| UnitLock.CallsNeverOverlap | internal/daemon/proxy.go:560-801 | in every interleaving of wakeUnit, sleep, freeze, correctAwake and lock-free writes, no two of Start, Stop, Pause and Unpause of one unit are in flight together (what their answers lead to: WakeMeans) |
| UnitLock.StepKeepsInv | internal/daemon/serve.go:635-693 | exactly the lock's owner is past it, no stamp is ahead of the clock, and the reaper's mark has a sleep that will clear it |
| WakeMeans.StartedWakeMeans | internal/daemon/proxy.go:651-714 | whatever runs beside it, a wake that issued Start returns nil only if Start succeeded and a later probe let it go, and returns an error if and only if Start failed or the probes ran out of time first |
| WakeMeans.ThawedWakeMeans | internal/daemon/proxy.go:619-652 | a wake that issued Unpause returns nil only if that succeeded, or by way of such a Start, and an error exactly when both failed |
| WakeMeans.AgreeingIff | internal/daemon/proxy.go:560-801 | where belief and container agree, a step of the daemon leaves them agreeing if and only if it is not a sleep's failed call on a container that is not running |
| WakeMeans.NilMeansRunning | internal/daemon/proxy.go:560-714 | in every run without such a step, a wake that returns nil leaves the container running and believed awake |
| WakeMeans.NilOverPaused | internal/daemon/proxy.go:766-774 | a run of the daemon alone, from a unit that agrees, in which a wake returns nil with the container paused |
| WakeMeans.WakeCalls | internal/daemon/proxy.go:582-626 | which call a wake let in makes next, and when it drops an awake belief it was asked to confirm |
| WakeMeans.SleepLeaves | internal/daemon/proxy.go:730-801 | what a sleep's Pause or Stop leaves of container and belief, for each answer |
| WakeMeans.FreezeLeaves | internal/daemon/freeze.go:146-178 | what a pause on purpose leaves and returns, for each answer |
| WakeMeans.CorrectionLeaves | internal/daemon/serve.go:635-693 | a correction that got its listing leaves a belief the container bears out, and changes nothing otherwise |
| WakeMeans.OneSleepAtATime | internal/daemon/serve.go:933-944 | in every run at most one sleep of a unit is under way, and the reaper's mark is on exactly while it is |
| IdleWindow.WindowIsKept | internal/daemon/proxy.go:730-745 | after a wake that leaves no older clock reading behind, no sleep goes ahead until the unit's full window since that wake has passed |
| IdleWindow.WindowIffNoStaleReading | internal/daemon/proxy.go:730-745 | the window is kept in every run from a wake if and only if, as it returns, no older reading waits to be stored or the window has passed |
| IdleWindow.StaleReadingHappens | internal/daemon/proxy.go:199-199 | for every window, a run in which a touch's older reading is still to be stored when a wake returns |
| PauseHold.HeldUnitsAreNotWoken | internal/daemon/freeze.go:90-122 | from Freeze returning nil until a release begins, no wake of a unit it covered is let in, starting or unpausing it, wakes in flight before and any other calls included, if no Thaw could still clear a flag when its Hold ended |
| PauseHold.ActKeepsInv | internal/daemon/freeze.go:31-143 | every step of Hold, one flag at a time, of Freeze, of Thaw and of the units keeps what each clean pause holds |
| ThawRace.PauseIsKeptIff | internal/daemon/freeze.go:90-143 | in every run from the end of its Hold, a Freeze keeps every wake out from its return until a release begins, if and only if no Thaw could still clear a flag at that end |
| ThawRace.ThawBreaksPause | internal/daemon/freeze.go:126-143 | wherever a Thaw could still clear a flag, a run in which the pause returns nil and a wake is let in with no release after |
| ThawRace.ThawMayBeUnderWay | internal/daemon/freeze.go:126-143 | in every sandbox, a run in which a Thaw is about to clear a flag as the Hold of a Freeze ends |
| PauseHold.FreezeLeavesQuiet | internal/daemon/freeze.go:146-178 | a freeze that returns under the hold leaves no wake past its check |
| FailedCalls.FailedFreezeReleases | internal/daemon/freeze.go:105-118 | a Freeze that returns an error has cleared the flag of every unit on its way out, in every run |
| FailedCalls.FailedThawHolds | internal/daemon/freeze.go:126-143 | a Thaw that returns an error has set the flag of every unit again |
| StaysPaused.StaysPausedIff | internal/daemon/proxy.go:730-801 | a unit just paused stays paused in every run up to its release if and only if the reaper had no stop of it on its way |
| StaysPaused.SleepCanBeOnItsWay | internal/daemon/serve.go:933-944 | a run in which the pause takes the lock before a sleep already decided |
| Reaper.Daemon.CollectNeeded | internal/daemon/serve.go:890-904 | the needed set is exactly what awake or stopping units of the same sandbox depend on |
| Reaper.Daemon.ReapAsync | internal/daemon/serve.go:862-948 | a tick starts sleeps of exactly the due units nothing up depends on, and what it does to every other unit |
| Reaper.Daemon.Sleepable | internal/daemon/proxy.go:326-354 | false until a call after the first yes; only that yes moves the idle clock, to now; a call soon after an ask asks nothing; nothing else changes |
| Reaper.AsksAreSpaced | internal/daemon/proxy.go:326-354 | two asks are at least the interval apart and none follows a yes |
| Reaper.PinnedStands | internal/daemon/serve.go:906-909 | in every run a unit kept awake is never put to sleep |
| Reaper.TickStopsIff | internal/daemon/serve.go:906-944 | a tick starts the sleep of a unit if and only if it is awake, has served, is neither kept awake nor held by a snapshot nor needed, and was quiet for its own window, or for the daemon's where it has none |
| Reaper.OwnWindowWins | internal/daemon/serve.go:915-918 | the daemon's window changes nothing for a unit with its own |
| Reaper.SleepsFromTheTop | internal/daemon/serve.go:862-948 | in every run between wakes no unit is on its way down while one that depends on it is awake or stopping |
| Reaper.UpEndsChain | internal/daemon/serve.go:862-948 | what is up after n rounds, however long each stop takes, ends a chain of n depends_on edges between units up at the start |
| Reaper.ChainOutlasts | internal/daemon/serve.go:862-948 | in any run, traffic and failed stops included, a unit that ends a chain of n edges stands after n ticks |
| Reaper.AwakeIffChain | internal/daemon/serve.go:862-948 | with one tick a round, a unit is up after n rounds if and only if it ends a chain of n edges |
| Reaper.DrainsInTime | internal/daemon/serve.go:862-948 | with chains of at most n edges everything is asleep after n + 1 rounds, each a tick past the windows up to the return of the sleeps then under way |
| Reaper.NoRunDrainsACycle | internal/daemon/serve.go:887-889 | no run, whatever happens in it, puts a member of an awake depends_on cycle to sleep |
| Reaper.DrainsIffNoCycle | internal/daemon/serve.go:862-948 | given as many rounds as units, everything is asleep if and only if no depends_on cycle is awake |
| Reaper.RoundsExist | internal/daemon/serve.go:862-948 | from every state past the windows there are runs of any number of rounds, one tick each |
| Refresh.OnePassAtATime | internal/daemon/refresh.go:29-71 | at most one loop is alive, so at most one pass runs |
| Refresh.ReleasedSawItsPass | internal/daemon/refresh.go:29-51 | a released caller's pass started after it called and finished before it was released |
| Refresh.WaiterIsServed | internal/daemon/refresh.go:53-71 | a waiting caller's call is closed, or a live loop holds it or will take it next |
| Refresh.CallersShare | internal/daemon/refresh.go:29-51 | two callers share a pass if and only if no call was taken between their arrivals |
| Refresh.NeverTheRunningPass | internal/daemon/refresh.go:29-51 | who arrives during a pass gets the one after it |
| Refresh.WorkRunsOut | internal/daemon/refresh.go:53-71 | each step of the loop uses up work, so every waiting call is closed in the end |
| EgressPolicy.WritersCompose | internal/daemon/egresspolicy.go:252-298 | one process at a time is under the lock, the policy in force is the successful changes composed in order, and with the lock free a saved copy is the policy in force unless something outside moved the filter (which copy: EgressPolicy.LastUpdateIsSaved) |
| EgressPolicy.LastUpdateIsSaved | internal/daemon/egresspolicy.go:252-298 | in every run, with the lock free, exactly the last update's policy is saved, and nothing is after a reset or a forget |
| EgressPolicy.SyncPutsLastUpdateBack | internal/daemon/egresspolicy.go:198-248 | in every run, whatever the filter was replaced with, an undisturbed Sync puts the last update back in force, unless it was reset or forgotten |
| EgressPolicy.MutateAlone | internal/daemon/egresspolicy.go:252-298 | an undisturbed change is put in force, saved and done; one the present policy does not admit changes nothing |
| EgressPolicy.ResetAlone | internal/daemon/egresspolicy.go:154-188 | an undisturbed reset puts the declared policy in force and keeps no copy; a forget drops the copy alone |
| EgressPolicy.ConflictRetries | internal/daemon/egresspolicy.go:252-298 | a push that meets a conflict changes nothing and reads again, three tries in all |
| EgressPolicy.SyncNeverReverts | internal/daemon/egresspolicy.go:198-248 | with writers going through the lock, saved equals in force whenever the lock is free, no write conflicts and Sync changes nothing |
| EgressPolicy.SyncRepairs | internal/daemon/egresspolicy.go:198-248 | whatever the filter was replaced with, an undisturbed Sync puts the saved copy in force, pushing only when it differs |
| EgressPolicy.StepKeepsInv | internal/egress/control.go:98-134 | every step, with compare-and-swap pushes, keeps the lock's ownership and the composition |
| Snapshots.Engine.Snapshot | internal/cli/snapshot.go:63-259 | at every moment an image of the snapshot exists only with every volume copy whole, and nothing is written while a unit that ran still runs; on failure images and frozen units are as before, and volumes too where the backend has named volumes or no unit has one; on success exactly the units' images and copies were added; it is done whenever there is a unit, the name is free and no call fails, and refused only without a unit, with the name taken, or on a failed call |
| Snapshots.LeavesVolumeBehind | internal/cli/snapshot.go:136-149 | otherwise, for every sandbox with a volume, a failing call that leaves a copy behind |
| Snapshots.Engine.PauseRunning | internal/cli/snapshot_pause.go:37-96 | either every running unit is frozen, or what is frozen is as it was; units already frozen are not among those to thaw |
| Snapshots.Engine.TakeBack | internal/cli/snapshot.go:136-149 | rollback removes what was made, images before volumes, with every moment safe |
| Snapshots.Engine.CopyUnit | internal/cli/snapshot.go:156-219 | one service's volume: copied exactly when it has data, recorded when a copy began, everything else untouched |
| SleepLayers.Layering.DepthOf | internal/cli/cli.go:1703-1724 | the memoised search ends on every graph and gives a depth below the number of units exactly to what no cycle is above, larger than that of everything depending on it |
| SleepLayers.SmallIffNoLoop | internal/cli/cli.go:1703-1724 | a depth below the number of units means exactly that nothing on a cycle transitively depends on the service |
| SleepLayers.SleepLayers | internal/cli/cli.go:1692-1744 | each unit that runs or is frozen is in exactly one layer; a unit no cycle is above comes after everything that transitively depends on it, through services asleep too; what a cycle is above comes after everything else; a unit on no cycle comes after what depends on it directly; no cycle of two or more is in one layer |
| SleepLayers.MutualPairIsSpread | internal/cli/cli.go:1692-1744 | two services that depend on each other are never in one layer |
| SleepLayers.AcyclicStopsTopDown | internal/cli/cli.go:1692-1744 | without cycles every unit is in an earlier layer than everything it transitively depends on |
| Jsonc.StripJsonc | internal/devcontainer/jsonc.go:24-137 | the one-pass scanner equals dropping comments outside strings and then commas outside strings that a closer follows |
| Jsonc.LiteralsSurvive | internal/devcontainer/jsonc.go:24-137 | every string literal survives byte for byte, in order, and none appears |
| Jsonc.UnchangedIffPlain | internal/devcontainer/jsonc.go:24-137 | text is unchanged if and only if it has no comment and no trailing comma |
| JsoncRoundTrip.StripsToTheValue | internal/devcontainer/jsonc.go:24-137 | a JSON value written with blanks, comments between its tokens and a comma before any closer strips to the same value written with its tokens and blanks alone |

## Left out

- Vault.CredentialVault.ApplyTo: rewriting of the request's headers and body, and a body over the size limit, are not modelled; only which binding applies and which values are written.
- Vault.CredentialVault.PatchVault: revisions are unbounded integers, so 64-bit overflow is not modelled; a missing mutation set is the empty one.
- Authority.ConstraintsCoverMatches: for a host list in canonical form, which is what hostsOf (internal/credvault/vault.go:545-567) makes it.
- AuthRules.AppliesAsDeclared: that a value goes out as Basic is a tag of the write; base64 itself is not modelled.
- WakeMeans.NilMeansRunning: a container changed outside sbx, and a belief revoked by a failed dial, are not in its runs; a probe of a workload without a health check counts as one that let the wake go.
- StoredAs.AuthStandsFor: header names are compared without letter case, as section 5.1 of RFC 9110 has them.
- IdleWindow.WindowIffNoStaleReading: the clock never goes back.
- PauseHold.HeldUnitsAreNotWoken: the sandbox's set of units is fixed; units discovered or removed while a call is under way are not modelled, and wakes of dependencies, which Thaw's own wakes wait for, are wakes like any other.
- Reaper.SleepsFromTheTop: speaks of runs between wakes; a wake of a dependent that races with a decided sleep is the subject of IdleWindow.
- Reaper.DrainsInTime: counts rounds and not seconds, since the daemon ticks every second and a stop may outlast several ticks; its stops succeed and nothing is touched.
- Snapshots.Engine.Snapshot: undo calls succeed; a process killed half way is covered only as a prefix of the call; images of other services that carry this snapshot's label count as taken.
- SleepLayers.SleepLayers: the order of names inside one layer.
- EgressPolicy.WritersCompose: a push or save that fails half way, a filter that is down, and the filter hosted inside the daemon.
- Tunnel.TunnelIsFaithful: an I/O error, a keepalive timeout and a client that does not half-close.
- What the providers do (docker, kubernetes, firecracker): a call succeeds or fails with any answer.
- Minting certificates and terminating TLS; only which names an authority covers.
- Matching and merging of egress policies: policies are abstract and a policy's tag stands for it.
- Unicode case folding and spaces, and internationalised names: letters, labels and header tokens are ASCII.
- Text of error messages: errors are kinds, and the order of names in them is not modelled.
- Aliasing between a request's slices and the stored binding: bindings are values.
- Pool pins, waiting pages, dial retries and keepalive timing: I/O around the modelled protocols.
- Command-line parsing, help, doctor, install, history, console: plumbing around the modelled protocols.
