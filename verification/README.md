# Verified models of the host's crash-safe, concurrent and parsing cores

SHAM hosts web sites on one machine. This project models, in Dafny, the parts of it where state
survives crashes or interleavings, and the parsers and encoders whose round trips other parts rely
on, and proves what they promise. `dafny verify dfyconfig.toml` checks all of it.

## How the models are built

Code that works step by step is a class or a method with a loop, proved against functions; what is
promised is then proved about those functions. Code made of expressions is functions. One module
stands for one source file or one part of it.

- **Restore** (`Restore.dfy`): a write-ahead journal drives the swap of the live data directory.
  `Host` holds what is on disk; an oracle decides for every file-system call whether it works,
  throws or is where the process dies. Recursive deletes and extraction may stop half-way and leave
  damaged entries. The key notion is `Recovered`: the live set that a complete recovery would leave.
  Every step keeps it, except the write of the committed journal.
- **Links** (`Links.dfy`): nested link resolution against the flat pathname walk of section 4.13 of
  POSIX.1-2017 Base Definitions, one component at a time.
- **Quiesce** (`Quiesce.dfy`): the pause protocol between restore and runtime agent. Each method is
  one stretch of code between two awaits, so the driver can interleave them in any order.
- **Supervisor** (`Supervisor.dfy`): the tunnel connector. Queued operations are promise reactions,
  so they run before the next event unless one is waiting for a process to terminate. Every method is
  tied to a function of the whole state; a queue is the fold of its operations.
- **KeyStore** (`KeyStore.dfy`): master-key rotation over an abstract cipher that opens a value only
  under its own key, and merging, in any order.
- **Cbor** (`Cbor.dfy`): the decoder against an encoder of section 3 of RFC 8949 in which every
  length may use any width that holds it. The decoder accepts exactly the encodings within its limits.
- **Json, Unicode, Signing**: canonical JSON in 16-bit code units with the escapes of section 7 of
  RFC 8259, UTF-8 as in section 3 of RFC 3629, and the byte stream of the plugin digest.
- **Yaml, YamlTree**: comment stripping, the stack loop and the tree it builds.
- **LineLogger, SiteLock, Base32, Versions, Ipv6**: the streaming line logger, the per-site mutation
  lock, base32 with its overflowing accumulator, version precedence and IPv6 text.

`Sequences.dfy`, `Text.dfy` and `Wrappers.dfy` hold shared definitions.

## Where the code and its promises differ

- Version comparison is not antisymmetric: `1.0.0-01` and `1.0.0-1` each compare as the greater
  (src/update-manager.js:16 accepts leading zeros). `Versions.AntisymmetricIffNoClash` says exactly when.
- Log lines depend on chunk boundaries when a carriage return and its newline arrive apart
  (src/runtime-engine.js:99). `LineLogger.ChunksIffSame` says exactly when, for any number of chunks.
- The canonical form does not tell a numeral beyond the largest double from `null`
  (src/plugin-signing.js:10). `Json.InfiniteLooksLikeNull` gives the pair; with numbers known by the
  text JavaScript writes for them, nothing else is lost.
- A leaf with U+2028 or U+2029 does not survive: JSON leaves both as they are, and the pattern for a
  line (src/runtime-spec.js:128) does not match them. `YamlTree.SeparatorIsLost` gives an input,
  `YamlTree.LoadingUndoesPrinting` an equivalence.
- After 16 row transactions in a row have failed to commit, the next rotation drops the key that the
  rows still need (src/secret-store.js:233). `KeyStore.SixteenFailuresAndNoMore` is an equivalence.
- Merging a keyring while a rotation's transaction has failed can lose a secret at once: the incoming
  keys go in front of the retired ones (src/secret-store.js:101-103), and a restore merges before its
  swap (src/backup-restore.js:280), which may then fail and bring the old database back.
  `KeyStore.MergingCanLoseASecret` is such a run; `KeyStore.ReadableIffInReach` says exactly when.
- Merging is documented to add every key of the other keyring (src/secret-store.js:93-96); the limit of
  16 retired keys can push out the oldest. `KeyStore.FullKeyringLosesItsOldest` gives the case,
  `KeyStore.MergingIsSafe` an equivalence.
- A restore merges a keyring before it writes its journal, through a temporary file in the data
  directory (src/backup-restore.js:280, src/secret-store.js:34-39). A death or an error before the rename
  leaves that file live, and neither recovery nor a refusal removes it; a committed swap does.
  `Restore.MergeCanLeaveAFile` is such a state, `Restore.ResidueIffCutShort` an equivalence.
- A crash after the committed journal is written and before the pending marker is removed makes the
  next boot apply the same archive again (src/backup-restore.js:291-293); the outcome is the same.

## Model

| member | source | states |
|---|---|---|
| `Restore.AllOrNothing` | src/backup-restore.js:228-307 | In every state of a run without a journal, the entries a restore replaces are exactly the old ones, or exactly the new ones if a committed journal was ever written. Nothing else is among them but empty standard directories and, under the temporary name of a process that began to merge a keyring since, what that left. |
| `Restore.NoOldDataLost` | src/backup-restore.js:234-247 | In every state of a run in which no committed journal was written yet, every old entry (but for an older temporary keyring file that was written over) is whole in exactly one place: aside, with nothing but new data or debris live under its name, or live and not among the entries that recovery may delete. |
| `Restore.DeletingExpendableKeepsRecovered` | src/backup-restore.js:237-245 | A delete, finished or cut short, of an entry that the journal or the rollback directory makes replaceable changes nothing of what a complete recovery yields. |
| `Restore.JournalingIntentKeepsRecovered` | src/backup-restore.js:243-244 | Journaling the intent to restore an entry does not change what recovery yields. |
| `Restore.RenamingBackKeepsRecovered` | src/backup-restore.js:240-247 | Renaming a journaled rollback entry back keeps what recovery yields. |
| `Restore.MovingAsideKeepsRecovered` | src/backup-restore.js:283-287 | Moving a live entry aside in phase moving keeps what recovery yields. |
| `Restore.InstallingKeepsRecovered` | src/backup-restore.js:288-290 | Installing a staged entry in phase installing keeps what recovery yields. |
| `Restore.DeletingKeepsOthers` | src/backup-restore.js:237-245 | Such a delete touches no preserved entry and leaves no second copy of an entry that was moved aside. |
| `Restore.BootExtendsRecovered` | src/config.js:24-26 | The directories a boot recreates only add empty standard directories to what recovery yields. |
| `Restore.BootExtendsKept` | src/config.js:24-26 | And to the preserved entries they add nothing else. |
| `Restore.BootMovesNothing` | src/config.js:24-26 | Nor do they bring back a copy of an entry that was moved aside. |
| `Restore.InstalledMovedOnce` | src/backup-restore.js:288-290 | What is live in phase installing under a name that was moved aside is new data, never the old entry again. |
| `Restore.SwapFailureKeepsConsistent` | src/backup-restore.js:282-292 | A swap that stops anywhere before its commit keeps the run heading for the old set. |
| `Restore.BootKeepsConsistent` | src/config.js:24-26 | The run invariant survives every boot. |
| `Restore.PreparingKeepsConsistent` | src/backup-restore.js:267-281 | Wherever preparing stops, the run stays on course, with the process counted among the writers once it has touched its temporary file. |
| `Restore.ResidueIffCutShort` | src/secret-store.js:34-39 | Writing a keyring leaves an entry of neither set if and only if it stops between the first byte of the temporary file and the rename. |
| `Restore.MergeCanLeaveAFile` | src/backup-restore.js:280 | A death in between leaves that file live, in neither set, and no journal to undo it. |
| `Restore.UndoneIsRecovered` | src/backup-restore.js:240-251 | Once the rollback directory is empty, the live entries are what recovery was to yield. |
| `Restore.Host.Recover` | src/backup-restore.js:228-252 | Wherever recovery is cut short, what a later recovery yields is the same; left alone it ends without a journal and with exactly that live. |
| `Restore.Host.RemoveReplaceable` | src/backup-restore.js:236-239 | Deletes only entries that are new data, with every delete able to stop half-way. |
| `Restore.Host.RemoveNew` | src/backup-restore.js:236-239 | One such delete, finished or not, keeps the outcome and every preserved entry. |
| `Restore.Host.RestoreRollback` | src/backup-restore.js:240-247 | Brings back every rollback entry, and a crash anywhere keeps the outcome. |
| `Restore.Host.RestoreEntry` | src/backup-restore.js:241-246 | One entry: intent journaled first, then delete, then rename, each a crash point. |
| `Restore.Host.Pause` | src/restore-coordination.js:11-16 | Writes the pause marker before anything else changes. |
| `Restore.Host.Resume` | src/restore-coordination.js:26-28 | Removes the pause marker and nothing else. |
| `Restore.Host.Unpack` | src/backup-restore.js:267-277 | The stage is cleared and filled with the restorable members and the keyring; nothing else but the work directories changes. |
| `Restore.Host.Stage` | src/backup-restore.js:267-279 | When it ends the stage holds exactly the restorable members of an acceptable archive, its keyring set apart; it changes only the work directories. |
| `Restore.Host.MergeKeyring` | src/secret-store.js:34-39 | The keyring is written to a temporary file in the data directory and renamed: exactly what is live wherever either call stops. |
| `Restore.Host.Prepare` | src/backup-restore.js:267-281 | Changes only the work directories, the keyring and its temporary file, and that file only for an acceptable archive that carries a keyring. |
| `Restore.Host.MoveAside` | src/backup-restore.js:285-287 | Moves every entry that is not preserved, in any listing order, with a crash possible before each. |
| `Restore.Host.InstallAll` | src/backup-restore.js:290 | Makes the staged set live, entry by entry, with the journal still undoing all of it. |
| `Restore.Host.Exchange` | src/backup-restore.js:283-290 | Old entries out and new ones in, under a journal that undoes both: wherever it stops, the outcome is still the old set and no old entry is in two places. |
| `Restore.Host.Swap` | src/backup-restore.js:282-292 | Only its last journal write commits: until then the outcome is the old set, after it exactly the incoming set, without any temporary keyring file left before; preserved entries are untouched throughout. |
| `Restore.Host.Settle` | src/backup-restore.js:293-295 | After the commit every crash point still ends with the incoming set live. |
| `Restore.Host.Attempt` | src/backup-restore.js:264-296 | Recover, prepare, swap and settle as one guarded block: wherever it stops, the outcome is the old set unless a committed journal was written, which takes a pending request and an acceptable archive. |
| `Restore.Host.Guarded` | src/backup-restore.js:264-302 | The attempt with its error handler: an error rolls back, reports and gives up the request, and the outcome is still told by the commit alone. |
| `Restore.Host.RollBackAndReport` | src/backup-restore.js:297-302 | The error path undoes what was begun, leaves the failure marker and drops the request. |
| `Restore.Host.Finally` | src/backup-restore.js:303-306 | The agent resumes only when no journal is left. |
| `Restore.Host.ApplyPendingRestore` | src/backup-restore.js:254-307 | Every death at any call leaves the run heading for the old set before the commit and for the new set after it; preserved entries stay; one uninterrupted call with a pending request and an acceptable archive ends with the incoming set live, journal and markers gone. |
| `Restore.Start` | src/config.js:24-26 | One boot: directories recreated, then the restore step, with the same promise. |
| `Restore.RunCutShort` | src/backup-restore.js:228-307 | Any number of boots, each cut short anywhere: at that very point every old entry is whole and in one place unless a committed journal was written, preserved entries stay, and a temporary keyring file was touched only for an archive that carries a keyring. |
| `Restore.Run` | src/backup-restore.js:228-307 | Any number of boots, each cut short anywhere, then one left alone: the old set is live if no committed journal was written and the new set if one was, with a temporary keyring file beside it only after a merge cut short; a journal is committed only for a pending request and an acceptable archive; preserved entries stay; no journal, no pending marker, agent resumed. |
| `Restore.RecoverAtLast` | src/backup-restore.js:228-252 | Any number of interrupted recoveries followed by a complete one end where a single one would have. |
| `Links.ResolveLink` | src/backup-restore.js:77-94 | The push, pop and splice loop computes the nested recursion, and it ends on every map of links. |
| `Links.SegmentsIsWalk` | src/backup-restore.js:82-92 | A list of segments that resolves is walked to the same path, whatever remains to be walked afterwards. |
| `Links.ResolveIsWalk` | src/backup-restore.js:77-94 | Following a link that resolves takes the walk to what it resolves to. |
| `Links.SegmentsIsLinkFree` | src/backup-restore.js:82-92 | The resolved path holds no link at any depth. |
| `Links.SegmentsEscapeClimbs` | src/backup-restore.js:84-86 | An escape is reported only when the walk leaves the archive root. |
| `Links.LoopNeverEnds` | src/backup-restore.js:78 | A walk that returns to where it was with more to do never ends. |
| `Links.SegmentsCyclicNeverEnds` | src/backup-restore.js:78-79 | A cycle is reported only when every walk on the way to it never ends. |
| `Links.ResolutionDecidesTheWalk` | src/backup-restore.js:77-94 | The verdict on a link is the fate of its component-by-component walk: a path is where it arrives, an escape means it climbs out, a cycle means it never ends; only the depth limit says nothing. |
| `Links.LiesBelowLink` | src/backup-restore.js:97-100 | True exactly if some directory above the member is a link. |
| `Links.FindProblem` | src/backup-restore.js:95-103 | The verdict on one member, branch by branch. |
| `Links.ArchiveLinkProblems` | src/backup-restore.js:65-110 | All problems in order, or the first of them alone. |
| `Links.CleanArchiveIsSafeToFollow` | src/backup-restore.js:65-110 | With nothing reported, the walk from every link ends inside the archive at the link-free path that resolution returns, and a hard link ends at a regular file. |
| `Quiesce.Installation.Receive` | runtime-agent/server.js:176-191 | Which requests are refused, polled or started, and that the counter equals the tracked operations in flight. |
| `Quiesce.Installation.Invoke` | runtime-agent/server.js:186-191 | Counts exactly the tracked routes. |
| `Quiesce.Installation.Poll` | runtime-agent/server.js:179-181 | A waiting quiesce starts only with nothing active, gives up only at its deadline. |
| `Quiesce.Installation.Finish` | runtime-agent/server.js:186-191 | Every way an operation ends takes it out of the count. |
| `Quiesce.Installation.AskAgent` | src/restore-coordination.js:14-18 | Without an agent to connect to the restore goes on at once; otherwise it waits for the answer. |
| `Quiesce.Installation.Proceed` | src/restore-coordination.js:17-23 | A refusal lifts the pause only when no journal is left. |
| `Quiesce.Installation.Leave` | src/backup-restore.js:303-306 | The restore ends with the agent paused exactly if a journal remains. |
| `Quiesce.Installation.RestoreAndAgentExclude` | runtime-agent/server.js:176-191 | While the data directory may change the only tracked operation running is a single quiesce. |
| `Quiesce.HandleAgent` | runtime-agent/server.js:176-191 | Every event of the agent has exactly the stated effect on agent, files and restore. |
| `Quiesce.HandleRestore` | src/restore-coordination.js:11-28 | So has every event of the restore. |
| `Quiesce.Interleave` | runtime-agent/server.js:176-191 | Over every interleaving and every crash of either process: the state is the one the events add up to, the counter is exact, a journal implies the pause marker, and restore and agent exclude each other. |
| `Supervisor.Manager.ScheduleRestart` | src/cloudflare-tunnel.js:597-628 | Arms the restart timer only for the current generation, never after shutdown, an authentication failure or with one armed already. |
| `Supervisor.Manager.ScheduleAvailabilityCheck` | src/cloudflare-tunnel.js:636-648 | Arms the availability timer at most once and never after shutdown. |
| `Supervisor.Manager.StopChild` | src/cloudflare-tunnel.js:665-680 | Drops the child and every timer, starts a new generation, and waits for the process to be gone before the rest; the whole new state is stated. |
| `Supervisor.Manager.FinishStopping` | src/cloudflare-tunnel.js:674-680 | What happens once the process is gone, a launch included. |
| `Supervisor.Manager.Reconcile` | src/cloudflare-tunnel.js:417-439 | The five outcomes of a reconciliation, and that it does nothing after shutdown. |
| `Supervisor.Manager.RunOperation` | src/cloudflare-tunnel.js:309-313 | One queued operation, run until it ends or has to wait: its whole new state, and that a request is served as promised. |
| `Supervisor.Manager.Drain` | src/cloudflare-tunnel.js:309-313 | A queue of any length ends in the state of the fold of its operations from the front, up to one that has to wait. |
| `Supervisor.DrainingIsInOrder` | src/cloudflare-tunnel.js:309-313 | Operations are served in the order of asking: draining a longer queue is draining its front and, from there, what is left of it followed by the rest. |
| `Supervisor.DrainingEndsValid` | src/cloudflare-tunnel.js:309-313 | The invariant survives a queue of any length, a shutdown is final, and a queued one is never lost. |
| `Supervisor.DrainingLaunchesOnce` | src/cloudflare-tunnel.js:309-313 | However many operations a queue holds, draining it starts at most one process, and none while one is held or terminating. |
| `Supervisor.RunningKeepsSound` | src/cloudflare-tunnel.js:357-439 | What each request comes to that meets an idle supervisor, and that every operation keeps the invariant. |
| `Supervisor.StoppingKeepsSound` | src/cloudflare-tunnel.js:665-680 | Where a stop leads, with a child and without. |
| `Supervisor.Manager.Ask` | src/cloudflare-tunnel.js:357-415 | Start, configure, restart and shutdown requests, each served as stated or queued behind a stop. |
| `Supervisor.Manager.RestartTimerFires` | src/cloudflare-tunnel.js:609-626 | Launches in a new generation, or looks for the command later. |
| `Supervisor.Manager.AvailabilityTimerFires` | src/cloudflare-tunnel.js:640-646 | Reconciles without forcing a restart. |
| `Supervisor.Manager.StableTimerFires` | src/cloudflare-tunnel.js:498-502 | Forgets earlier failures only if the same child still runs. |
| `Supervisor.Manager.ProcessExits` | src/cloudflare-tunnel.js:549-569 | An exit of anything but the current child changes no child, generation, timer or failure class; one after an authentication failure leaves nothing armed. |
| `Supervisor.Manager.Output` | src/cloudflare-tunnel.js:507-547 | Output of an older generation changes nothing; late output of the current one may change only the state text and the failure class. |
| `Supervisor.Manager.TerminationObserved` | src/cloudflare-tunnel.js:674-680 | The suspended operation goes on, then the queue of any length, with the whole state that follows. |
| `Supervisor.NextKeepsValid` | src/cloudflare-tunnel.js:357-688 | Every event keeps the invariant; after a shutdown nothing is launched. |
| `Supervisor.NextLaunchesOnce` | src/cloudflare-tunnel.js:441-505 | No event starts more than one process, and none does while one is held. |
| `Supervisor.TimersLaunchWhen` | src/cloudflare-tunnel.js:609-646 | Exactly when a timer that fires starts a process. |
| `Supervisor.NextLaunchesWhen` | src/cloudflare-tunnel.js:417-505 | Exactly when a start request or the end of a stop does; exits, output and settings never do. |
| `Supervisor.ParkedUntilAsked` | src/cloudflare-tunnel.js:549-564 | A parked supervisor launches nothing until a caller asks for something other than a shutdown. |
| `Supervisor.Handle` | src/cloudflare-tunnel.js:357-688 | Every event leads to exactly the state that the transition function gives. |
| `Supervisor.Supervise` | src/cloudflare-tunnel.js:309-688 | Every run is the fold of its events, and in every state of it: at most one process alive, a held child is of the current generation with neither timer armed, at most one timer armed, at most one launch per event, nothing launched or armed after shutdown, nothing launched after an authentication failure until a caller asks. |
| `KeyStore.UniqueKeys` | src/secret-store.js:77-80 | The filter keeps each key at its first occurrence. |
| `KeyStore.DistinctIsDistinct` | src/secret-store.js:77-80 | The kept keys have no repeats and lose none. |
| `KeyStore.FrontOfDistinct` | src/secret-store.js:77-80 | The keys before a kept key are those before it in the list, so that no key moves back. |
| `KeyStore.FrontCounts` | src/secret-store.js:10-10 | A key is kept under a limit if and only if fewer distinct keys than that stand before it. |
| `KeyStore.Decrypt` | src/secret-store.js:141-149 | The loop over the ring opens a value exactly if its key is in the ring. |
| `KeyStore.RingIsFront` | src/secret-store.js:97-106 | After rotations and merges in any order the keyring holds the front of the list that has no limit. |
| `KeyStore.AheadIsFront` | src/secret-store.js:97-106 | The keys in front of a key are those that the rotations and merges since put there. |
| `KeyStore.ReadableIffInReach` | src/secret-store.js:141-149 | After rotations without a commit and merges in any order, a secret opens if and only if at most 16 keys were put in front of its own. |
| `KeyStore.AheadGrows` | src/secret-store.js:97-106 | A rotation puts one more key in front of a secret; a merge puts none in front of the active key, and at most its own in front of any other. |
| `KeyStore.SixteenFailuresAndNoMore` | src/secret-store.js:10-10 | With any keys retired before, a row sealed before a series of rotations stays readable if and only if at most 16 of them went by without a commit. |
| `KeyStore.MergingCanLoseASecret` | src/secret-store.js:97-106 | After one failed rotation, merging a keyring with 16 retired keys makes a row unreadable. |
| `KeyStore.MergingIsSafe` | src/secret-store.js:97-106 | Merging never changes an active key and merging again adds nothing; a merged key can be used if and only if it is the active one or has fewer than 16 others in front of it. |
| `KeyStore.KeyIsUsableIff` | src/secret-store.js:97-106 | The same for every key of either keyring. |
| `KeyStore.FullKeyringLosesItsOldest` | src/secret-store.js:97-106 | Of a keyring with 16 retired keys the oldest is not usable after the merge. |
| `KeyStore.Store.LoadKeyring` | src/secret-store.js:65-74 | The ring in memory is the ring on file, made around a fresh key if there was no file. |
| `KeyStore.Store.Save` | src/secret-store.js:123-130 | A saved text is sealed under the active key; empty text stays plain. |
| `KeyStore.Store.SealAgain` | src/secret-store.js:237-263 | Succeeds exactly if every row opens, and then changes keys only. |
| `KeyStore.Store.RotateMasterKey` | src/secret-store.js:229-270 | File first, rows after: for each way it can stop, exactly what the file and the rows hold; a commit takes place if and only if every row opens, and changes no text. |
| `KeyStore.Store.MergeKeyringMaterial` | src/secret-store.js:97-106 | The file holds the merged ring, or the incoming one if there was none, and the cache is dropped. |
| `KeyStore.RotationCommits` | src/secret-store.js:237-263 | The transaction of a rotation goes through if and only if every row is in reach. |
| `KeyStore.RowsOpenIffInReach` | src/secret-store.js:141-149 | Row by row: it opens to its text if and only if its key is in reach. |
| `KeyStore.DepthBounds` | src/secret-store.js:229-270 | No row lies deeper than the rows found at the start, the failed transactions and the keys merged meanwhile. |
| `KeyStore.Keep` | src/secret-store.js:229-270 | Over every run of saves, rotations cut short anywhere, merges and restarts, from a drawn, adopted or found keyring and any rows: no text changes, each secret opens to what was last saved if and only if its key was in the keyring and is in reach, and all do while the run is at most 16 deep. |
| `Cbor.State.ReadLength` | src/webauthn.js:18-27 | The loop reads the big-endian number in 0, 1, 2, 4 or 8 bytes, or fails as specified. |
| `Cbor.State.ReserveCborItems` | src/webauthn.js:29-34 | Reserves within both limits or not at all; never above 4096. |
| `Cbor.State.DecodeCborValue` | src/webauthn.js:36-75 | The decoder in place computes the decoding function: value, place in the input, slots reserved; the place never passes the end. |
| `Cbor.State.DecodeContent` | src/webauthn.js:44-74 | The branches on the major type. |
| `Cbor.State.DecodeContents` | src/webauthn.js:52-67 | The loops over array elements and map entries, with duplicate keys refused. |
| `Cbor.DecodeOfEncode` | src/webauthn.js:36-75 | Decoding the encoding of any item within the limits gives its meaning whatever follows it, and reserves exactly its cost. |
| `Cbor.EncodeOfDecode` | src/webauthn.js:36-75 | Whatever is decoded is the encoding of an item within the limits, followed by exactly the bytes left over. |
| `Cbor.PrefixIffEncoding` | src/webauthn.js:77-83 | A prefix is accepted with a value and a length if and only if those bytes encode an acceptable item with that meaning. |
| `Cbor.WholeIffEncoding` | src/webauthn.js:85-90 | An input is accepted if and only if all of it encodes an acceptable item. |
| `Cbor.AppendingChangesNothing` | src/webauthn.js:77-83 | Bytes after an item change neither the value nor the number of bytes read. |
| `Cbor.DecodeCborPrefix` | src/webauthn.js:77-83 | The size limit, then one value; equals the function of the lemmas above. |
| `Cbor.DecodeCbor` | src/webauthn.js:85-90 | Refuses trailing bytes. |
| `Json.UnquoteOfEscaped` | src/plugin-signing.js:8-10 | A quoted text, surrogates and control characters included, reads back as itself. |
| `Json.QuoteUnique` | src/plugin-signing.js:8-10 | Two quotations followed by anything are equal only if text and rest are. |
| `Json.SortingKeepsReading` | src/plugin-signing.js:8-8 | Sorting keys at every level changes nothing that a value says. |
| `Json.SortedIsInOrder` | src/plugin-signing.js:8-8 | Sorting puts the keys of every object in strictly increasing code-unit order. |
| `Json.SameReadingSameText` | src/plugin-signing.js:5-11 | Values in order that say the same are printed the same. |
| `Json.PrintUnique` | src/plugin-signing.js:5-11 | A value can be read off the front of a text in only one way. |
| `Json.CanonicalIffSameReading` | src/plugin-signing.js:5-11 | Two values have the same canonical text if and only if they say the same with objects as maps: injective up to key order. |
| `Json.InfiniteLooksLikeNull` | src/plugin-signing.js:10-10 | The one loss: a number beyond the largest double and null have the same canonical text. |
| `Json.CanonicalIsPlain` | src/plugin-signing.js:5-11 | No canonical text holds a NUL or a lone surrogate. |
| `Unicode.Utf8Injective` | src/plugin-signing.js:28-32 | Different well-formed texts have different UTF-8 bytes. |
| `Unicode.Utf8HasNoNul` | src/plugin-signing.js:31-33 | A text without NUL has no zero byte. |
| `Signing.PluginDigest` | src/plugin-signing.js:23-37 | The bytes fed to the hash, with the manifest file left out, are the specified stream. |
| `Signing.FileUnique` | src/plugin-signing.js:29-35 | Path and 32-byte digest can be read off the stream in one way only. |
| `Signing.UnsignedReading` | src/plugin-signing.js:24-25 | Removing the signature removes that key and nothing else. |
| `Signing.StreamIffSamePackage` | src/plugin-signing.js:23-37 | Two packages feed the same bytes if and only if their unsigned manifests say the same and they list the same files with the same digests. |
| `Yaml.StripYamlComment` | src/runtime-spec.js:93-115 | The loop over quote flags cuts at the first hash that is outside quotes and in front or after white space. |
| `Yaml.StrippingIsFinal` | src/runtime-spec.js:93-115 | Stripping is idempotent and never cuts inside quotes. |
| `Yaml.ParentBefore` | src/runtime-spec.js:133-134 | The parent is the latest earlier opener that the line and all lines since are indented into, or the root. |
| `Yaml.StackIndentsIncrease` | src/runtime-spec.js:121-138 | Indents on the stack strictly increase. |
| `Yaml.TopIsParent` | src/runtime-spec.js:133-134 | After popping, the top of the stack is that parent. |
| `Yaml.Pop` | src/runtime-spec.js:133-133 | The pop loop leaves exactly the part of the stack that is indented less. |
| `Yaml.AttachEntry` | src/runtime-spec.js:127-139 | One line is attached to its parent or refused as a repeated key, and the stack again holds exactly the open lines. |
| `Yaml.ParseSimpleYaml` | src/runtime-spec.js:119-142 | The stack loop computes the nesting that is defined without a stack, or the first error with its line number. |
| `YamlTree.ReadRendered` | src/runtime-spec.js:123-129 | A printed line is read back as its indent, key and value, or refused if the value holds a line separator. |
| `YamlTree.QuoteIsOneLine` | src/runtime-spec.js:128-129 | Quoting keeps a text on one line exactly if it has neither of the two Unicode line separators. |
| `YamlTree.ScalarOfQuote` | src/runtime-spec.js:76-91 | A JSON string is read as the text it stands for. |
| `YamlTree.PlaceForest` | src/runtime-spec.js:119-142 | Printed lines are attached where they belong, after any lines before them. |
| `YamlTree.ChildrenOfPlaced` | src/runtime-spec.js:119-142 | The attached lines make the tree again. |
| `YamlTree.LoadingUndoesPrinting` | src/runtime-spec.js:119-142 | Printing a tree with JSON-quoted leaves and parsing the text gives the tree back if and only if no leaf holds one of the two line separators. |
| `YamlTree.SeparatorIsLost` | src/runtime-spec.js:128-129 | A mapping of one key to U+2028 does not come back. |
| `LineLogger.SplitIffSame` | src/runtime-engine.js:92-104 | Cutting text into two chunks changes the lines if and only if the cut separates a carriage return from its newline and the line before it fits the limit. |
| `LineLogger.ChunksIffSame` | src/runtime-engine.js:92-104 | For a list of chunks of any length: the lines are those of the whole text if and only if no chunk ends in a carriage return that the text after it completes while the line before fits the limit. |
| `LineLogger.StreamIffSame` | src/runtime-engine.js:92-105 | The same for a whole stream, its unfinished last line included. |
| `LineLogger.CutAroundAnEmptyChunk` | src/runtime-engine.js:92-104 | With an empty chunk between carriage return and newline no pair of neighbours shows the cut, and the lines differ. |
| `LineLogger.ChunksDoNotMatter` | src/runtime-engine.js:92-104 | So with no chunk ending in a carriage return the lines depend only on the whole text. |
| `LineLogger.EmittedAccounts` | src/runtime-engine.js:70-80 | Every emitted line is passed on or counted exactly once, whether or not a new window begins. |
| `LineLogger.KeptCounts` | src/runtime-engine.js:65-80 | Lines passed on and lines counted add up to all lines. |
| `LineLogger.StreamAccounts` | src/runtime-engine.js:65-105 | At the end every line was passed on, in order, or counted in one notice, and no window passed more than its limit. |
| `LineLogger.Logger.FlushSuppressed` | src/runtime-engine.js:65-69 | A notice carries exactly the lines counted since the last one. |
| `LineLogger.Logger.Emit` | src/runtime-engine.js:70-80 | The window is renewed after a second and the limit applied to the line. |
| `LineLogger.Logger.FinishLine` | src/runtime-engine.js:81-85 | An empty line is dropped, any other emitted with its truncation mark. |
| `LineLogger.Logger.Append` | src/runtime-engine.js:86-91 | The buffer holds the pending line cut to the limit, and the flag says whether it was cut. |
| `LineLogger.NextSegment` | src/runtime-engine.js:95-102 | Takes one line off a chunk, without its line end, and leaves exactly the rest. |
| `LineLogger.Logger.OnData` | src/runtime-engine.js:92-104 | A chunk adds exactly the lines it completes. |
| `LineLogger.Logger.OnEnd` | src/runtime-engine.js:105-105 | The last line is finished and no count is left unreported. |
| `LineLogger.LogStream` | src/runtime-engine.js:58-109 | A whole stream: what is passed on follows from its lines and the clock alone; it is those lines, in order, less the ones counted in notices, within the limit of every window. |
| `SiteLock.Serializer.Arrive` | src/server.js:289-298 | A reading request passes; any other takes its place behind the tail it finds. |
| `SiteLock.Serializer.Resume` | src/server.js:299-310 | A request goes on only as first in line, and in arrival order. |
| `SiteLock.Serializer.Finish` | src/server.js:301-309 | Opens the gate once and removes the entry only if it is still its own. |
| `SiteLock.Serializer.MayResumeIffFirstInLine` | src/server.js:294-299 | A request stops waiting if and only if every earlier request for its site has ended: other sites never hold it up. |
| `SiteLock.Serializer.MutualExclusion` | src/server.js:289-311 | Two requests for one site never run at once. |
| `SiteLock.Serializer.EntryIffUnfinished` | src/server.js:294-306 | The map holds an entry for a site exactly while a request for it has not ended. |
| `SiteLock.Handle` | src/server.js:289-311 | Every event has exactly the stated effect on the map, the line and the gates. |
| `SiteLock.Interleave` | src/server.js:288-311 | All of this over every interleaving of arrivals, resumptions and ends, with the state they add up to. |
| `Base32.CharOfIsInAlphabet` | src/mfa.js:4-4 | The alphabet is the capital letters and the numerals from 2 to 7, in that order. |
| `Base32.ShiftInByte` | src/mfa.js:11-12 | The unmasked shift loses only bits that are no longer pending. |
| `Base32.ShiftInDigit` | src/mfa.js:30-31 | The same for five bits. |
| `Base32.TopDigit` | src/mfa.js:13-15 | The character taken is the highest five pending bits, whatever overflowed above them. |
| `Base32.TopByte` | src/mfa.js:32-35 | The byte taken is the highest eight pending bits. |
| `Base32.LastDigit` | src/mfa.js:18-18 | The last character pads the pending bits with zeros. |
| `Base32.Base32Encode` | src/mfa.js:6-20 | The text is in the alphabet and has the bits of the bytes, padded with fewer than five zeros. |
| `Base32.Base32Decode` | src/mfa.js:22-38 | The bytes have the bits of the characters in the alphabet, as many as fill whole bytes. |
| `Base32.DecodingUndoesEncoding` | src/mfa.js:6-38 | Any decoding of any encoding is the input, and the length is that of eight bits in five, rounded up. |
| `Base32.RoundTrip` | src/mfa.js:6-38 | Decoding after encoding is the identity on every byte sequence. |
| `Versions.CompareVersions` | src/update-manager.js:44-65 | The index loops compute the recursive comparison. |
| `Versions.AntisymmetricIffNoClash` | src/update-manager.js:52-62 | Swapping two versions negates the answer if and only if their first difference is not one number written two ways. |
| `Versions.LeadingZeroClashes` | src/update-manager.js:16-60 | 1.0.0-01 and 1.0.0-1 each compare as the greater: antisymmetry fails on what the pattern accepts. |
| `Versions.DecimalUnique` | src/update-manager.js:60-60 | Numerals without leading zeros are equal if their values are. |
| `Versions.CanonicalIsAntisymmetric` | src/update-manager.js:43-65 | Without leading zeros the comparison is antisymmetric. |
| `Versions.ComparisonIsPrecedence` | src/update-manager.js:43-65 | On all versions the pattern accepts: negative if and only if the first has the lower precedence of item 11 of Semantic Versioning 2.0.0, zero if and only if they are equal, positive if and only if the second precedes or they clash. |
| `Versions.ClashIsBothAfter` | src/update-manager.js:52-62 | Two versions each compare as the greater if and only if their first difference is one number written two ways. |
| `Versions.ComparisonIsTransitive` | src/update-manager.js:43-65 | And it is transitive on all of them, over prerelease lists of any length. |
| `Ipv6.FormatIpv6` | src/visitor-intelligence.js:80-95 | For groups of any number, the run left out is the leftmost longest of at least two zeros. |
| `Ipv6.PartOfGroup` | src/visitor-intelligence.js:76-91 | A group is written in one to four digits that parse to it. |
| `Ipv6.HalvesOfTwo` | src/visitor-intelligence.js:69-70 | Text with one double colon splits at it. |
| `Ipv6.ExpandingUndoesFormatting` | src/visitor-intelligence.js:69-95 | The text of eight groups expands to them, whichever zero run it leaves out. |
| `Ipv6.RoundTrip` | src/visitor-intelligence.js:58-95 | Expanding the formatted text of any eight groups returns them. |

## Left out

- Restore: power loss. Renames and deletes take effect in program order, and the journal write, a
  temporary file renamed into place (src/backup-restore.js:220-226), is one step.
- Restore: an existence check that fails although the file exists. The code treats any such error as
  absence (src/backup-restore.js:256, 305); the model takes those checks as truthful.
- Restore: what the checks of the archive, its tree and its database look at; their verdicts are
  fields of `Archive`. The text of the journal and of the markers is not parsed.
- Restore: what merging makes of the keyring is one fixed content for each archive, and it is not read
  back; `KeyStore` models the merge itself. A cleared process directory under `tmp` is not modelled, nor
  a directory that stands where the temporary keyring file is to be written.
- Restore: the runtime agent loads the same configuration when it starts (runtime-agent/server.js:7), so
  that it can recreate the standard directories while a restore is under way. In the model they are
  recreated only when a boot begins.
- Links: the code has one message for a cycle and for excessive depth; the model tells them apart.
- Quiesce: container work that outlives the agent process, and connections the restore could not make
  for other reasons than a missing socket.
- Supervisor: origin health, log text, the length and jitter of delays. `terminateProcess` ends only
  after the process has exited, and an `error` event means that the process never started.
- KeyStore: keyrings controlled by `SHAM_MASTER_KEY`, and the text form of keys. AES-GCM is abstract.
  Rotation keys are drawn at random; the model takes it that none is drawn twice (`KeyStore.Fresh`).
- Cbor: how bytes become text is a parameter. Base64url and the 2 MB check on it are not modelled.
- Signing: SHA-256, the directory walk and its locale order; the list of files is an input. Paths are
  texts without NUL or lone surrogates, as file names read from disk are.
- Yaml: the key `__proto__`, and that JavaScript lists integer-like keys first. The JSON parser is a
  parameter; the round trip takes from it only that it reads what quoting writes.
- LineLogger: decoding of bytes, and counts that are dropped when the listener is detached before the
  stream ends (src/runtime-engine.js:108).
- SiteLock: progress, since the end of a response is listened for only once the wait is over; and the
  twin lock for plugins (src/server.js:269-286), which is this one with a single site.
- Base32: letters outside ASCII whose upper case is an ASCII letter.
- Versions: the pattern that cuts a version into its parts; build metadata is dropped there.
- Ipv6: trimming, zones, dotted quads and the check by the runtime that come before the expansion; none
  of them touches formatted text.
- Routes, identity providers, certificates, containers, the plugin sandbox and the user interface:
  thin wrappers over code that is not part of this model, or settled by reading one branch.
