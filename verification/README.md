# Wattline daemon: verified protocol models

Wattline's daemon keeps a TLS identity, a configuration file, a token database, a telemetry store, a rule engine, an
enrollment PIN, a Bluetooth link and an mDNS advertisement alive on a router that may lose power, lose its radio or have
its clock set back at any moment. This project models the state machines behind those jobs and proves what each of them
guarantees over whole runs. Every failure of a dependency (a rename, a sync, a dial, a registration, a save, a random
source) is an input, so each theorem covers every pattern of failures.

Each component has a module of pure specification functions with its theorems and, where the program changes state step
by step, a class or methods in a second module (or at the end of the same one) whose contracts tie the new state to the
specification.

| files | component |
|---|---|
| CertTransaction, CertDirectory | journalled replacement of a certificate and key, with a crash possible between any two file operations |
| Uci, UciExact, UciConverse, UciGrammar, UciSections, UciCode, ByteOrder | tokenizer, parser and printer of the configuration language; what any text says |
| TokenStore, TokenLedger, TokenStoreCode | token database: memory, file, revocation channels; what every call answers |
| Telemetry, WaitQueue | bounded subscribers; the unbounded waiter queue with its one-slot wakeup channel |
| Rules, RuleEngine, RuleFirings | hold, arm, hysteresis, repeat and schedule of one rule; the engine and its reloads; exactly when rules fire |
| Pairing, PairingFairness, PairingRates, PairingAnswers, PairingCode | enrollment PIN, policy changes and their rollback, rate limits under an arbitrary clock, and what every attempt is answered |
| Connector, ConnectorSession, ConnectorCode | the reconnect loop interleaved with arm, disarm, pause, resume and stop; how it returns and how it connects |
| PasskeyPrompt, PasskeyAnswers | the passkey prompt with waiters that outlive an activation; what each call is answered and each waiter receives |
| DiscoveryKeys, Discovery, DiscoveryCode | mDNS keys, interface resolution, reconciliation |
| Settings, SettingsCode | the settings transaction across configuration, token stores and enrollment |
| SFloat | the SFLOAT codec of IEEE 11073-20601 over the reals |

Main theorems, safety first: `CertTransaction.RunRefinesRegister`, `CertTransaction.RotationAllOrNothing`,
`UciConverse.RoundTripIff`, `TokenStore.RunKeeps`, `Telemetry.RunGapFree`, `WaitQueue.WaitSafe`, `RuleEngine.ReloadInvisible`,
`PairingFairness.AcceptedOnlyFairly`, `PairingRates.RateLimitsHold`, `Connector.OneTransport`,
`ConnectorSession.PauseBars`, `PasskeyPrompt.NeverBlocks`, `Discovery.AlwaysReconciled`, `Settings.SettingsAgree`.

And what is done or answered, in both directions: `CertDirectory.Directory.RotateCertificate` and
`CertDirectory.Directory.Recover` (undisturbed they succeed, and they give up only on an operation that did not),
`UciGrammar.TokenizesExactly`, `UciSections.ParsesExactly`, `TokenLedger.LedgerDecides`, `TokenLedger.OpenExactly`,
`RuleFirings.EngineFiresExactly`, `PairingAnswers.AnswersExactly`, `PairingAnswers.LeaseExactly`, `Connector.StopReturns`,
`ConnectorSession.Connects`, `PasskeyAnswers.ReceivesExactly`, `PasskeyAnswers.JoinsExactly`, `WaitQueue.WaitLive`,
`Discovery.Responds`, `Settings.UpdateSucceedsExactly`, `SFloat.NanExactly`.

## Assumptions

- A certificate and key load or do not load by a fixed predicate on their contents; the old and the new pair each load, and
  neither mixed pair does. Operations on the certificate directory are serialized; new sibling names are unused.
- A rename and the sync of its directory are one step with three outcomes: not done, done, done with the sync reported failed.
- Hashing is an arbitrary function of the secret that yields well-formed hashes; distinctness of hashes is checked, not assumed.
- `cron.Next` is any partial function that returns a strictly later time; `Rules.OccurrencesIncreaseExactly` and
  `Rules.EachOccurrenceOnce` also take it to be the least such occurrence (`LeastNext`).
- Interface names contain no NUL (`DiscoveryKeys.NamesMustBeNulFree` shows why that matters).
- Times and durations are integers; an absent time is an option.

## Where a stronger claim is false

- Hysteresis without steady telemetry: `Rules.HysteresisNeedsTelemetry` is a run in which a battery reading disappears and
  the rule re-arms without any level having been seen. `Rules.HysteresisExactly`: between two firings closer than
  RepeatEvery it fails if and only if every re-arming tick lacked the reading.
- A late policy rollback: `PairingFairness.LateRollbackRevivesPin` re-opens enrollment with the old PIN after a backward
  clock reading, `PairingFairness.RollbackUndoesClose` after an explicit Close. `PairingFairness.RollBackFairExactly`: the
  window a rollback re-opens is fair if and only if since the change no reading went backwards, no PIN was generated and
  Close was not called (and it was fair before); `PairingFairness.AcceptedOnlyFairly` carries the equivalence to every
  exchange of every run.
- Enrolling during a settings update: `Settings.EnrolledMeanwhileKept`: a client that enrolls between applying and saving
  is in the store used afterwards if and only if the save succeeds or the token store is not being switched.
- A waiter left over from an earlier activation: `PasskeyPrompt.StaleWaiterWitness` is a run in which its last section ends
  the newer prompt. `PasskeyPrompt.StaleWaiterEndsPrompt`: in an activation otherwise undisturbed a PIN is refused if and
  only if that happened; `PasskeyPrompt.AcceptedExactly` says for every state exactly when a PIN is accepted.
- Gap-freedom after a cancellation has begun: `Telemetry.CancelMayLeaveGap` is a run with a gap.
  `Telemetry.CancelsCleanlyExactly`: no run after the cancellation has one if and only if at most one frame was waiting
  when it began. Order is kept in any case (`Telemetry.RunGapFree`).
- One firing per occurrence of a schedule: `Rules.BackwardClockRepeats` fires twice for one occurrence after the clock was
  set back. `Rules.OccurrencesIncreaseExactly`: a later firing is for a later occurrence if and only if the tick at which
  its occurrence was looked up did not read a time before the first one.
- The round trip on all documents: `UciConverse.RoundTripIff`: a document survives printing and parsing if and only if every
  type is a plain word (or the section has neither type nor name), every key is a plain word, and no list is empty. For a
  single line the restriction is weaker: `UciExact.OnlyWordsReadBack`, `UciExact.BlankMayReadBack`.
- Distinct keys for distinct advertisements: `DiscoveryKeys.MetadataMayCollide` is an instance of two with one key. It takes
  a `device_mac` option written by hand, since a device's id is printed in hexadecimal (internal/proto/frames.go:98).
  `DiscoveryKeys.CollidesExactly`: with a NUL-free host name another advertisement has the same key if and only if
  `"\0model="` occurs in the id or in the model. `DiscoveryKeys.KeyFixesAll`: with NUL-free ids keys are equal if and only
  if all facts are, whatever bytes the model holds (internal/ble/session.go:129 trims only trailing NULs).
- A preparation that fails and cleans up leaves no trace: a name whose reservation broke off is not known to the clean-up
  and stays behind as an empty file. `CertDirectory.Directory.Prepare`: with an undisturbed clean-up the directory is as it
  was if and only if no reservation was under way, and otherwise differs in that one empty file.
- A cancellation that meets no prompt is told to the next caller: `PasskeyAnswers.JoinsExactly` with the history of
  `PasskeyAnswers.Next`: it is remembered if and only if there never was a prompt (internal/ble/passkey_prompt.go:181-184),
  or if it came as a Deactivate that withdrew a prompt nobody had joined.
- `SFloat.NanExactly`: the exact set of reals that decode to NaN after encoding.

## Model

| member | source | states |
|---|---|---|
| `CertTransaction.ChosenCandidate` | internal/server/cert_transaction.go:181-266 | in every state of an interrupted transaction the first loadable of the seven candidates assembles exactly the pair the register holds |
| `CertTransaction.InstallPrefix` | internal/server/cert_transaction.go:251-260 | after any prefix of the installing moves the pair can still be found, the journal is untouched, and after all of them the pair is at the configured paths |
| `CertTransaction.ExecFinish` | internal/server/cert_transaction.go:314-325 | any prefix of the cleanup leaves the pair alone and, until the last step, the journal; the whole of it removes exactly the journalled files and the journal |
| `CertTransaction.RecoveryKeeps` | internal/server/cert_transaction.go:181-325 | recovery cut short anywhere keeps the pair the next recovery will leave; finished, it restores exactly that pair and removes exactly the transaction's files |
| `CertTransaction.CommitKeeps` | internal/server/cert_transaction.go:76-99 | the swap cut short anywhere holds the old pair before the key install, the new one after it, and always the new one on first creation |
| `CertTransaction.PrepareReachesJournal` | internal/server/cert_transaction.go:27-59 | the staging operations followed by the journal install lead to exactly the journalled directory, the pair untouched |
| `CertTransaction.StepKeeps` | internal/server/cert_transaction.go:60-99 | a rotation or recovery interrupted at any operation takes the abstract one-pair register to its next value |
| `CertTransaction.RunRefinesRegister` | internal/server/cert_transaction.go:27-325 | any run of interrupted rotations and recoveries refines a register that changes only when a rotation passes its commit point |
| `CertTransaction.CompletedRecovery` | internal/server/cert_transaction.go:181-266 | a finished recovery reports no error, leaves the register's pair loadable at the configured paths, and no journal or journalled file |
| `CertTransaction.RecoveryAlwaysSucceeds` | internal/server/cert_transaction.go:60-99 | however often rotation and recovery were interrupted, the next recovery that finishes succeeds and leaves exactly the register's pair |
| `CertTransaction.RotationAllOrNothing` | internal/server/cert_transaction.go:76-325 | interrupted after the journal install and recovered, with any number of interrupted recoveries between, the directory equals the original except for the pair: the old one before the key install, the new one after it |
| `CertTransaction.RotationBeforeJournal` | internal/server/cert_transaction.go:27-59 | interrupted before the journal install, every file but the staged ones is as it was and recovery has nothing to do |
| `CertDirectory.Directory.DoAll` | internal/server/cert_transaction.go:60-99 | operations stop at the first that does not succeed; the directory is that of a prefix, and the outcome is what became of the operation tried last (or, for a rename, that its source was missing) |
| `CertDirectory.Directory.ReplaceRecovered` | internal/server/cert_transaction.go:301-312 | remove then rename, possibly cut short; nothing when source and target are one path; if the source exists it gives up only on an operation that did not succeed |
| `CertDirectory.Directory.FinishTransaction` | internal/server/cert_transaction.go:314-325 | removes the journalled files and then the journal; it gives up only on an operation that did not succeed |
| `CertDirectory.Directory.ChooseCandidate` | internal/server/cert_transaction.go:229-247 | the loop finds the first loadable candidate, or none |
| `CertDirectory.Directory.Install` | internal/server/cert_transaction.go:251-260 | moves the chosen certificate and key into place as far as the candidate asks; if both are there it gives up only on an operation that did not succeed |
| `CertDirectory.Directory.Restore` | internal/server/cert_transaction.go:252-266 | installs the chosen pair, checks it, cleans up: a prefix of exactly these operations, with the error of the check, given up only on an operation that did not succeed |
| `CertDirectory.Directory.Recover` | internal/server/cert_transaction.go:181-266 | leaves the directory of a prefix of the recovery plan; when it finishes, of the whole plan, with the plan's error; it gives up only with the outcome of the operation just tried, all earlier ones having succeeded, so undisturbed on a directory that holds a pair it finishes with exactly that pair installed and no journal |
| `CertDirectory.Directory.CleanUp` | internal/server/cert_transaction.go:327-338 | removes only the files it is given, and each of them whose turn comes and whose removal does not fail |
| `CertDirectory.Directory.Prepare` | internal/server/cert_transaction.go:27-59 | stages the files and installs the journal; it gives up only on an operation that did not succeed, and an undisturbed clean-up restores the directory but for a name whose reservation broke off |
| `CertDirectory.Directory.Commit` | internal/server/cert_transaction.go:76-99 | swap, check and cleanup; a failed rename or a pair that does not load has run recovery, whose verdict and effect are those of the recovery plan; success means all of it was done, failure that an operation did not succeed or the new pair does not load |
| `CertDirectory.Directory.Rotate` | internal/server/cert_transaction.go:27-99 | on a settled directory: whatever gives out, the old pair is still held or the new one is; success means the new one is installed and the journal gone; failure names an operation that did not succeed |
| `CertDirectory.Directory.RotateCertificate` | internal/server/cert.go:103-124 | recovery, checks, rotation: whatever gives out, the old pair is still held or the new one is; undisturbed it succeeds with the new pair installed and no journal; it is refused exactly for what recovery leaves behind |
| `Uci.ScanWord` | internal/config/uci.go:70-164 | a plain word is read into the current token character by character |
| `Uci.ScanEscaped` | internal/config/uci.go:110-170 | inside single quotes the escaped form of any value reads back as the value, and its newlines are counted |
| `Uci.ScanLine` | internal/config/uci.go:70-170 | one printed line reads back as one command with its three fields, whatever the value contains |
| `Uci.ScanDoc` | internal/config/uci.go:70-187 | the printed document reads back as exactly its commands, in order |
| `Uci.BuildDoc` | internal/config/uci.go:22-60 | the commands of a document build exactly its sections, options and non-empty lists |
| `Uci.RoundTrip` | internal/config/uci.go:22-202 | parsing the printed form of any document whose keys are plain words and whose sections have a plain word as type, or neither type nor name, gives the same sections in order, with the same options and non-empty lists |
| `Uci.RoundTripExact` | internal/config/uci.go:172-187 | on those documents the round trip is the identity if and only if no list is empty |
| `UciExact.OnlyWordsReadBack` | internal/config/uci.go:70-187 | a type or key not beginning with a blank is read back as itself only if it is a plain word, whatever the rest of the text is |
| `UciExact.WordsReadBack` | internal/config/uci.go:70-187 | and a plain word is, whenever the text can be read |
| `UciExact.BlankMayReadBack` | internal/config/uci.go:70-187 | a single line whose type begins with a blank and is nevertheless read back as its type |
| `UciConverse.ScanConserves` | internal/config/uci.go:70-164 | of every character, what is read and what is dropped are at most what was held and what was to come |
| `UciConverse.ScanQuotes` | internal/config/uci.go:70-164 | without double quotes every single quote that is read took a backslash |
| `UciConverse.DropBound` | internal/config/uci.go:22-202 | reading back a document that survives drops no more of any character than printing added |
| `UciConverse.ReadCounts` | internal/config/uci.go:22-60 | every line of a document that was read came from a command of its own |
| `UciConverse.RoundTripIff` | internal/config/uci.go:22-202 | a document survives printing and parsing if and only if its types are plain words (or a section has neither type nor name), its keys are plain words, and no list is empty |
| `UciCode.Tokenize` | internal/config/uci.go:70-164 | the loop computes the specified tokens or error of every text, which UciGrammar.TokenizesExactly says in terms of a grammar |
| `UciGrammar.Reads` | internal/config/uci.go:70-165 | a text made of pieces (plain and escaped characters, quoted fragments, blanks, command ends, comments) and a tail reads as the words and lines cut out of the list of pieces, with line numbers, or as the error of the unfinished tail |
| `UciGrammar.TokenizesExactly` | internal/config/uci.go:70-165 | every text is such a list and tail, so the tokenizer is described on every input; it errs if and only if a quote or an escape is unfinished |
| `UciGrammar.CommentsIgnored` | internal/config/uci.go:105-109 | after any complete pieces a comment up to the end of its line is as if absent |
| `UciGrammar.DoubleQuotesReadBack` | internal/config/uci.go:110-142 | a value in double quotes with quotes and backslashes escaped reads back as itself |
| `UciGrammar.JoinsLines` | internal/config/uci.go:143-155 | a backslash before a newline joins two fragments into one word |
| `UciGrammar.SemicolonEnds` | internal/config/uci.go:98-104 | a semicolon ends a command like a newline: the same error or the same commands but for line numbers |
| `UciCode.ReadQuoted` | internal/config/uci.go:110-142 | the inner loop over a quoted fragment, with escapes only inside double quotes |
| `UciCode.ParseUci` | internal/config/uci.go:22-60 | the parsing loop computes the specified document or the first bad command |
| `UciSections.InterpretsExactly` | internal/config/uci.go:22-60 | accepted exactly if the first command is a well-formed header and every other one a well-formed header or entry; the sections then hold the last value of each option and all values of each list in order; otherwise the first command that does not fit is blamed |
| `UciSections.ParsesExactly` | internal/config/uci.go:22-60 | a text parses to a document if and only if its commands are well formed and build exactly that document |
| `UciCode.SortedKeys` | internal/config/uci.go:189-202 | the in-place exchange sort returns exactly the keys in ascending byte order |
| `UciCode.PlaceLeast` | internal/config/uci.go:194-200 | one pass moves the least remaining key into place and permutes the array |
| `UciCode.Serialize` | internal/config/uci.go:172-187 | the printing loops produce the specified text |
| `UciCode.WriteOptions` | internal/config/uci.go:176-178 | one line per option in key order |
| `UciCode.WriteLists` | internal/config/uci.go:179-183 | one line per list value, lists in key order |
| `UciCode.WriteThenRead` | internal/config/uci.go:22-202 | the writer followed by the reader returns the normalized document |
| `TokenStore.EncodeLists` | internal/auth/store.go:416-491 | what is written lists each record once, under its own ID |
| `TokenStore.EncodeOrdered` | internal/auth/store.go:416-433 | the file lists the bootstrap token first and then the others by identifier |
| `TokenStore.LoadExactly` | internal/auth/store.go:141-236 | a file is read if and only if every token is valid and IDs and hashes are distinct; the records are then exactly what it says |
| `TokenStore.OpenEstablishes` | internal/auth/store.go:141-236 | a store that opened, whatever file it found and whatever failed, is consistent with its file and contains the bootstrap record |
| `TokenStore.Reopen` | internal/auth/store.go:141-236 | reopening the file of a consistent store with the same secret succeeds without writing and rebuilds the records with the persisted last-seen times |
| `TokenStore.StepKeeps` | internal/auth/store.go:238-491 | every operation under every persistence failure keeps the file the projection of memory, hashes distinct, bootstrap present and subscriptions accounted for |
| `TokenStore.RunKeeps` | internal/auth/store.go:141-541 | the same over every sequence of operations |
| `TokenStore.IssueThenAuthenticate` | internal/auth/store.go:278-313 | a secret handed out authenticates as that client now and after a restart; a refused issue changed neither memory nor file |
| `TokenStore.RevokeIsFinal` | internal/auth/store.go:334-353 | after a successful revocation no secret with that hash authenticates, now or after a restart, and its channels are closed; a failed one changed nothing |
| `TokenLedger.AuthenticateExactly` | internal/auth/store.go:238-276 | a secret gets the principal of the record that has its hash, as administrator if and only if that is the bootstrap record, and is denied if and only if no record has it |
| `TokenLedger.LastSeenExactly` | internal/auth/store.go:253-260 | the time noted is the latest of the clock, the creation and the previous use; nothing else of any record changes |
| `TokenLedger.FlushesExactly` | internal/auth/store.go:261-270 | all last-seen times are flushed if and only if nothing was flushed before or an interval has passed, and the write does not fail |
| `TokenLedger.IssueExactly` | internal/auth/store.go:278-313 | a secret is handed out if and only if the label is acceptable, randomness was available, identifier and hash are unused and the write does not fail; otherwise nothing changes |
| `TokenLedger.RevokeExactly` | internal/auth/store.go:334-353 | succeeds if and only if the identifier is a managed token and the write does not fail, and removes exactly that token; otherwise nothing changes |
| `TokenLedger.ChannelsExactly` | internal/auth/store.go:360-414 | a channel waits from its subscription until its cancellation, the revocation of its token or the retirement of the store, and the last two close it |
| `TokenLedger.OpenExactly` | internal/auth/store.go:141-236 | a store opens if and only if the file is valid, no managed token has the bootstrap secret and what must be written was; it then holds the file's managed tokens and the configured bootstrap record |
| `TokenLedger.OpensAtLatest` | internal/auth/store.go:184-195 | the flush interval runs on from the latest last-seen time in the file |
| `TokenLedger.LedgerDecides` | internal/auth/store.go:141-414 | through any calls, failed writes and restarts every reply is the one given by a ledger of handed-out and not revoked tokens, kept from the replies alone |
| `TokenLedger.IssuedSecretWorks` | internal/auth/store.go:238-313 | a handed-out secret is answered with its client principal, now and after a restart, and the bootstrap secret with the administrator's |
| `TokenLedger.RevokedSecretDenied` | internal/auth/store.go:238-353 | a revoked secret is denied, now and after a restart |
| `TokenStoreCode.HashesDistinct` | internal/auth/store.go:532-541 | the loop decides whether all hashes are distinct |
| `TokenStoreCode.ReadTokens` | internal/auth/store.go:177-196 | the reading loop accepts what the specification accepts and builds its records |
| `TokenStoreCode.OpenStore` | internal/auth/store.go:141-236 | opening as a whole: the specified store and file, or none |
| `TokenStoreCode.LiveStore.Listing` | internal/auth/store.go:416-433 | the listing has the bootstrap token first and then IDs in order |
| `TokenStoreCode.LiveStore.PersistLocked` | internal/auth/store.go:416-491 | the file changes exactly at the rename, whatever is reported |
| `TokenStoreCode.LiveStore.Find` | internal/auth/store.go:239-251 | finds the record with the secret's hash, or none |
| `TokenStoreCode.LiveStore.Authenticate` | internal/auth/store.go:238-276 | the method computes the specified reply, records and file, whose meaning is TokenLedger.AuthenticateExactly, LastSeenExactly and FlushesExactly |
| `TokenStore.FlushesSpaced` | internal/auth/store.go:253-270 | over any sequence of calls the times of successive flushes are at least the interval apart |
| `TokenStore.FlushStep` | internal/auth/store.go:253-270 | an authentication writes the file only when it advances the time of the last flush, by at least the interval; nothing else changes that time |
| `TokenStoreCode.LiveStore.Issue` | internal/auth/store.go:278-313 | adds a record and persists it, or restores memory when the rename did not happen |
| `TokenStoreCode.LiveStore.Revoke` | internal/auth/store.go:334-353 | removes the record, persists, and notifies; restores memory when the rename did not happen |
| `TokenStoreCode.LiveStore.NotifyRevoked` | internal/auth/store.go:409-414 | closes exactly the channels waiting on the token, each once |
| `TokenStoreCode.LiveStore.SubscribeRevocation` | internal/auth/store.go:360-394 | a new channel for a live client token, none for the bootstrap token (which cannot be revoked), a refusal for any other ID |
| `TokenStoreCode.LiveStore.Cancel` | internal/auth/store.go:384-393 | withdraws one channel without closing it |
| `TokenStoreCode.LiveStore.Invalidate` | internal/auth/store.go:400-407 | closes every waiting channel once and refuses later subscriptions |
| `Telemetry.StepKeeps` | internal/state/store.go:66-219 | every channel operation of a publication, subscription, reception or cancellation keeps the invariant on order, queue, registration and closing |
| `Telemetry.RunGapFree` | internal/state/store.go:66-219 | in every interleaving a subscriber receives published states in order; until it begins to cancel, initial snapshot, received and waiting frames are a gap-free run of them; a channel is closed once, when its subscriber has left |
| `Telemetry.CancelMayLeaveGap` | internal/state/store.go:210-219 | a run in which a reader takes the second frame after the cancellation discarded the first |
| `Telemetry.CancelsCleanlyExactly` | internal/state/store.go:174-219 | no run after a cancellation leaves a gap if and only if at most one frame was waiting when it began |
| `Telemetry.NothingAfterClose` | internal/state/store.go:195-219 | a subscriber that has left is sent nothing more and its channel is closed only once; after an overflow it keeps every accepted frame |
| `Telemetry.Drained` | internal/state/store.go:195-219 | a subscriber that reads on receives every accepted frame |
| `Telemetry.OverflowKeepsFrames` | internal/state/store.go:66-80 | a subscriber is dropped exactly when its queue is full and keeps all the frames it had not read |
| `Telemetry.Store.Publish` | internal/state/store.go:66-80 | offers to every registered subscriber, one after the other, and drops the full ones |
| `Telemetry.Store.SubscribeWithSnapshot` | internal/state/store.go:168-182 | the initial snapshot is the current state and the subscription starts with the next |
| `Telemetry.Store.Cancel` | internal/state/store.go:174-182 | removes the subscriber, drains and closes its channel once, touches no other; nothing if it has left already |
| `Telemetry.Store.DrainOnce` | internal/state/store.go:210-219 | one turn of the draining loop: discards a frame or closes |
| `WaitQueue.StepKeeps` | internal/state/device.go:121-193 | every interleaved step keeps: a queued state means the wakeup token is present, on its way, or already taken |
| `WaitQueue.WaitSafe` | internal/state/device.go:121-193 | in every interleaving no wakeup is lost, and a result is the first published state from registration on that satisfies the predicate |
| `WaitQueue.WaitLive` | internal/state/device.go:141-193 | once publishers are quiet the waiter on its own returns the first satisfying state if there is one, and otherwise has looked at everything |
| `Rules.HoldDatesFromRun` | internal/rules/engine.go:157-204 | the hold timer always dates from the start of the current unbroken run of connected, satisfied ticks |
| `Rules.FiresOnlyAfterHold` | internal/rules/engine.go:157-204 | a non-schedule rule fires only at the end of an unbroken run of connected, satisfied ticks at least as long as its hold |
| `Rules.DisarmedUntilRearm` | internal/rules/engine.go:184-201 | after a firing the rule stays disarmed until a connected re-arm tick |
| `Rules.SuccessiveFirings` | internal/rules/engine.go:184-201 | two successive firings are at least RepeatEvery apart (when positive) or separated by a connected re-arm tick |
| `Rules.Hysteresis` | internal/rules/engine.go:94-155 | with telemetry never unset, that tick had receded past the threshold by the margin |
| `Rules.RearmsExactly` | internal/rules/engine.go:138-155 | a battery or temperature rule is re-armed exactly by a connected tick whose reading has receded or is missing |
| `Rules.HysteresisExactly` | internal/rules/engine.go:94-201 | without assumption, firings closer than RepeatEvery have such a tick between them, and hysteresis fails exactly when all of those lacked the reading |
| `Rules.HysteresisNeedsTelemetry` | internal/rules/engine.go:138-155 | without that assumption a concrete rule fires twice with no receded level between |
| `Rules.ScheduleFiresForOccurrence` | internal/rules/engine.go:161-183 | a schedule rule fires only for an occurrence after an earlier tick since which it was connected throughout and did not fire |
| `Rules.OccurrencesIncreaseExactly` | internal/rules/engine.go:161-183 | a later firing is for a later occurrence if and only if the tick at which its occurrence was looked up did not read a time before the first one |
| `Rules.EachOccurrenceOnce` | internal/rules/engine.go:161-183 | with tick times that never decrease each occurrence fires at most once |
| `Rules.BackwardClockRepeats` | internal/rules/engine.go:165-171 | with a clock set back during a disconnection one occurrence fires twice |
| `RuleEngine.FiredOf` | internal/rules/engine.go:157-204 | with distinct names, the firings of one rule at a tick are what its own state machine does |
| `RuleEngine.BuildStates` | internal/rules/engine.go:44-58 | building succeeds if and only if every schedule parses, and makes one fresh state per rule |
| `RuleEngine.ReloadKeepsState` | internal/rules/engine.go:68-91 | a reload that still lists a rule unchanged keeps its state exactly |
| `RuleEngine.ReloadInvisible` | internal/rules/engine.go:68-204 | over any run of ticks, reloads that keep the rule, and failed reloads, its firings are what it would do alone |
| `RuleEngine.EngineHolds` | internal/rules/engine.go:68-204 | the hold guarantee for the whole engine across reloads and other rules |
| `RuleEngine.EngineRearms` | internal/rules/engine.go:68-204 | the repeat and re-arm guarantee for successive entries of a rule in the engine log |
| `RuleEngine.EngineHysteresis` | internal/rules/engine.go:68-204 | hysteresis for successive entries of a rule in the engine log |
| `RuleFirings.ConditionExactly` | internal/rules/engine.go:94-135 | a battery, power or temperature rule is satisfied if and only if there is a reading strictly on its side of its threshold |
| `RuleFirings.InputPowerExactly` | internal/rules/engine.go:94-103 | an input-power rule is satisfied if and only if it asks for what is: power when the battery charges or the USB-C port takes DC input |
| `RuleFirings.ArmedExactly` | internal/rules/engine.go:183-203 | the rule remembers exactly the time of its last firing, and is armed if and only if there was none or a re-arm tick came since |
| `RuleFirings.FiresExactly` | internal/rules/engine.go:157-203 | over any ticks a rule fires at one if and only if the unbroken run of satisfied ticks ending there has lasted the hold and it has not fired before, was re-armed since, or RepeatEvery is positive and has passed since |
| `RuleFirings.ScheduleFiresExactly` | internal/rules/engine.go:163-182 | a schedule rule fires at a tick if and only if it is connected and the occurrence found by its last look-up has come |
| `RuleFirings.EngineFiresExactly` | internal/rules/engine.go:68-203 | whatever other rules and reloads do, the engine's log of a rule lists in order exactly the ticks its history calls for |
| `RuleFirings.ReloadCarries` | internal/rules/engine.go:68-92 | a changed rule of the same name keeps hold, arming and last firing, and its pending occurrence if it stays a schedule; a new name starts afresh |
| `RuleEngine.Engine.Tick` | internal/rules/engine.go:157-204 | the loop computes the specified states and firings, which are exactly those RuleFirings.EngineFiresExactly calls for |
| `RuleEngine.Engine.Reload` | internal/rules/engine.go:68-91 | replaces the states or, on an error, changes nothing |
| `PairingFairness.AcceptedOnlyFairly` | internal/auth/pairing.go:114-264 | in every run a successful exchange used the most recently generated PIN, with no clock reading since its generation going backwards and no Close since, before the expiry last set, if and only if no rollback has tainted the window |
| `PairingFairness.RollBackFairExactly` | internal/auth/pairing.go:173-180 | the window a rollback re-opens is fair if and only if it was before and since the change no reading went backwards, no PIN was generated and Close was not called |
| `PairingFairness.StepKeeps` | internal/auth/pairing.go:114-264 | every call keeps: an open window is fair exactly if untainted |
| `PairingFairness.PromptRollbacksAreFair` | internal/auth/pairing.go:138-221 | if every rollback comes before any further reading or Close, every success is fair |
| `PairingFairness.LateRollbackRevivesPin` | internal/auth/pairing.go:173-236 | a run from the start in which a rollback after a backward reading makes the old PIN acceptable again |
| `PairingFairness.RollbackUndoesClose` | internal/auth/pairing.go:129-181 | a run from the start in which a rollback undoes an explicit Close |
| `PairingRates.StepBounded` | internal/auth/pairing.go:277-331 | counters never exceed their limits and the source table never exceeds its capacity, whatever the clock does |
| `PairingRates.SpanBound` | internal/auth/pairing.go:277-331 | a log spaced by a window counter has at most twice the limit in any span of one window |
| `PairingRates.RateLimitsHold` | internal/auth/pairing.go:201-331 | while readings do not decrease, any span of one window contains at most twice the overall limit of recorded failures and twice the per-source limit from one source |
| `PairingAnswers.LeaseExactly` | internal/auth/pairing.go:114-181 | the PIN that is open, and until when, after each operation: kept while unexpired under an honest clock, renewed if always on, else closed; and which policy changes succeed |
| `PairingAnswers.LimitedExactly` | internal/auth/pairing.go:277-319 | an attempt is limited if and only if the current window holds the overall limit of failures, or the source's own limit, or the source has none in its window and as many other sources as the overall limit have |
| `PairingAnswers.AttemptExactly` | internal/auth/pairing.go:201-221 | limited, accepted or rejected, each exactly when the failures and the open PIN say so |
| `PairingAnswers.AnswersExactly` | internal/auth/pairing.go:201-319 | after any calls, whatever the clock did, the next attempt is answered by the failures since the clock last went backwards and by the open PIN, and by nothing else |
| `PairingCode.Enrollment.ObserveNow` | internal/auth/pairing.go:223-236 | a backward reading clears the windows and closes or re-opens enrollment |
| `PairingCode.Enrollment.Refresh` | internal/auth/pairing.go:238-247 | expiry closes enrollment or generates a new PIN |
| `PairingCode.Enrollment.Evict` | internal/auth/pairing.go:305-311 | the loop removes exactly the expired sources |
| `PairingCode.Enrollment.RateLimited` | internal/auth/pairing.go:277-281 | the specified state and answer; PairingAnswers.LimitedExactly says what the answer means |
| `PairingCode.Enrollment.RecordFailure` | internal/auth/pairing.go:283-291 | counts the failure overall and, if there is room, for its source |
| `PairingCode.Enrollment.Exchange` | internal/auth/pairing.go:201-221 | the whole exchange up to issuing, and the store it would issue into is unchanged |
| `PairingCode.Enrollment.Reconfigure` | internal/auth/pairing.go:138-181 | the policy change or its failure, and the state its rollback restores |
| `PairingCode.Enrollment.RollBack` | internal/auth/pairing.go:173-180 | restores policy and window, nothing else |
| `PairingCode.Enrollment.RebindStore` | internal/auth/pairing.go:186-199 | later tokens are issued into the new store |
| `Connector.StepKeeps` | internal/ble/connector.go:304-419 | every step of the loop and of its callers keeps the invariant on transports, session, published state and authorization |
| `Connector.OneTransport` | internal/ble/connector.go:304-419 | in every run at most one transport dialed without error is open; none is when the next dial begins or the loop has returned; an installed session is the only one that may be open |
| `Connector.HandshakeAuthorized` | internal/ble/connector.go:142-205 | a transport reaches the handshake only if nobody armed or disarmed between the claim and the return of its dial |
| `Connector.StoreAgrees` | internal/ble/connector.go:126-140 | the published armed flag is the policy's in every state; connected and ready while waiting on a session; neither once returned |
| `Connector.DelayHonoured` | internal/ble/connector.go:92-199 | under the current policy the loop sleeps exactly the delay of the last arming that no reconnect attempt has used, or else the retry delay; a claiming reconnect attempt uses it up, a first attempt does not |
| `Connector.NoDialAfterStop` | internal/ble/connector.go:326-332 | a stopped connector never begins a dial |
| `Connector.LoopEnabled` | internal/ble/connector.go:167-302 | a stopped loop waits for nothing but the end of a dial, or of a handshake whose transport it closed: the stop channel gets it on everywhere else |
| `Connector.RestsExactly` | internal/ble/connector.go:285-419 | stopped and with nothing from outside ending, the loop stays exactly where it has returned, or a dial or handshake has still to end |
| `Connector.StopReturns` | internal/ble/connector.go:304-419 | from every reachable stopped state, whatever dials, handshakes, peers and pausers do, the loop has returned after 17 turns of its own, provided nobody arms, disarms or resumes |
| `Connector.CanReturn` | internal/ble/connector.go:304-419 | and there is always such a run, by the loop alone |
| `ConnectorSession.PauseBars` | internal/ble/connector.go:313-390 | a pause that precedes the pause check bars the dial, one that precedes the second check the handshake, one that precedes the last check the session, until somebody resumes |
| `ConnectorSession.PausedStaysQuiet` | internal/ble/connector.go:313-402 | so no transport is dialed and no session installed |
| `ConnectorSession.FreeExactly` | internal/ble/connector.go:304-420 | a reachable connector is on its way to a session if and only if it is armed, not paused and not stopped |
| `ConnectorSession.Connects` | internal/ble/connector.go:304-411 | from any reachable state that is armed, not paused and not stopped, 23 turns with a dial and a handshake that succeed reach an installed session that the store shows |
| `ConnectorSession.CanConnect` | internal/ble/connector.go:304-411 | such turns always exist |
| `ConnectorSession.SessionsEarned` | internal/ble/connector.go:330-402 | a session is only ever installed on a transport whose handshake ended without error, and no handshake begins on one whose dial failed |
| `ConnectorSession.CallsDecide` | internal/ble/connector.go:70-134 | armed, paused and stopped are exactly what the calls so far say |
| `ConnectorSession.SleepsExactly` | internal/ble/connector.go:142-199 | the loop sleeps before a reconnect attempt, and only before one, for the delay still owed or else the retry delay, and only the timer ends the sleep with an attempt |
| `ConnectorSession.PhaseFollows` | internal/ble/connector.go:357-408 | the store says handshaking from the announcement on, and then the mode the device is in |
| `ConnectorSession.SessionEnds` | internal/ble/connector.go:262-283 | a reported disconnection clears session and store in four turns and returns to the top of the loop |
| `ConnectorCode.Link.ArmReconnect` | internal/ble/connector.go:95-103 | arms, sets the pending delay, starts a new policy generation, republishes the flag |
| `ConnectorCode.Link.DisarmReconnect` | internal/ble/connector.go:107-115 | disarms, clears the pending delay, starts a new policy generation, republishes the flag |
| `ConnectorCode.Link.SetConnectionReconnect` | internal/ble/connector.go:126-134 | the published phase stays and the armed flag follows |
| `ConnectorCode.Link.ReconnectPolicy` | internal/ble/connector.go:142-183 | reading the policy sends the loop exactly where the specification does: await, claim, or sleep |
| `ConnectorCode.Link.Section` | internal/ble/connector.go:167-199 | one section of the waiting loop is one step of the machine |
| `ConnectorCode.Link.WaitForDial` | internal/ble/connector.go:167-199 | whatever callers do between its sections, the loop follows the machine; it leaves with a generation current and armed at that moment, or because it was stopped |
| `ConnectorCode.Link.ClaimReconnect` | internal/ble/connector.go:152-162 | succeeds exactly under the current armed generation and then consumes the pending delay |
| `ConnectorCode.Link.BeginPause` | internal/ble/connector.go:70-81 | pauses once and returns the session to close |
| `ConnectorCode.Link.Resume` | internal/ble/connector.go:83-90 | every waiter on a resume channel is released |
| `ConnectorCode.Link.ClearSession` | internal/ble/connector.go:262-270 | forgets the session only if it is this one; the store shows disconnected |
| `PasskeyPrompt.StepKeeps` | internal/ble/passkey_prompt.go:31-186 | every operation and every waiter step keeps: one outcome and one waiter per channel, the unsettled channel empty, replay accounted for |
| `PasskeyPrompt.NeverBlocks` | internal/ble/passkey_prompt.go:77-186 | in every interleaving each channel is sent to at most once, so no send under the lock blocks; a channel has one waiter; a PIN a waiter got was submitted in the activation the waiter joined |
| `PasskeyPrompt.ReplayOnce` | internal/ble/passkey_prompt.go:159-173 | a replay happens at most once per activation, never after deactivation, and replays the PIN last submitted in it |
| `PasskeyPrompt.AcceptedExactly` | internal/ble/passkey_prompt.go:77-157 | a six-digit PIN is accepted if and only if there is a newest channel, nothing was sent to it, it was not withdrawn, and no waiter of any channel ended since it was made |
| `PasskeyPrompt.StaleWaiterEndsPrompt` | internal/ble/passkey_prompt.go:31-157 | in an otherwise undisturbed activation a PIN is refused if and only if a waiter left over from an earlier activation ended since |
| `PasskeyPrompt.StaleWaiterWitness` | internal/ble/passkey_prompt.go:95-100 | such a run: accepted just before the old waiter ends, refused after |
| `PasskeyAnswers.ReceivesExactly` | internal/ble/passkey_prompt.go:77-131 | a waiting caller can receive if and only if its prompt was answered, and receives exactly that: the PIN accepted for it or the cancellation that came while it was open |
| `PasskeyAnswers.AnswersExactly` | internal/ble/passkey_prompt.go:139-186 | Submit and Cancel answer the newest prompt if and only if it is open, and otherwise change no channel |
| `PasskeyAnswers.JoinsExactly` | internal/ble/passkey_prompt.go:77-115 | a call of Wait joins the standing prompt, finds it taken, learns of a cancellation it is owed, or opens its own, each exactly when the history says |
| `PasskeyAnswers.ReplaysExactly` | internal/ble/passkey_prompt.go:159-173 | a PIN is replayed if and only if the prompt is active, one was submitted in this activation and none replayed yet |
| `PasskeyPrompt.Prompt.Activate` | internal/ble/passkey_prompt.go:31-45 | a fresh channel, nothing submitted, nothing replayed |
| `PasskeyPrompt.Prompt.Deactivate` | internal/ble/passkey_prompt.go:46-62 | no replay any more; an unconsumed prompt is withdrawn |
| `PasskeyPrompt.Prompt.BeginWait` | internal/ble/passkey_prompt.go:77-115 | joins the open prompt, reports a second waiter or a cancellation, or opens its own prompt |
| `PasskeyPrompt.Prompt.EndWait` | internal/ble/passkey_prompt.go:95-100 | the last section of a wait, of either kind |
| `PasskeyPrompt.Prompt.Submit` | internal/ble/passkey_prompt.go:139-157 | refuses anything but six digits, refuses without an unsettled prompt, otherwise sends |
| `PasskeyPrompt.Prompt.RearmSubmitted` | internal/ble/passkey_prompt.go:159-173 | a new channel already holding the submitted PIN |
| `PasskeyPrompt.Prompt.CancelPrompt` | internal/ble/passkey_prompt.go:175-186 | sends a cancellation or remembers it |
| `DiscoveryKeys.InterfaceKeyInjective` | internal/discovery/service.go:301-305 | interface keys are equal if and only if the lists of index and name are |
| `DiscoveryKeys.KeyFixesInterfaces` | internal/discovery/service.go:299-306 | equal keys mean equal interfaces whatever bytes host name, id and model contain |
| `DiscoveryKeys.KeyFixesJoint` | internal/discovery/service.go:299-306 | with NUL-free host names keys are equal if and only if all facts the program makes are, and id and model as one string |
| `DiscoveryKeys.KeyFixesAll` | internal/discovery/service.go:299-306 | with NUL-free host names and ids, keys are equal if and only if instance, port, TXT record and interfaces are, whatever bytes the model holds |
| `DiscoveryKeys.CollidesExactly` | internal/discovery/service.go:287-306 | another advertisement has the same key if and only if the separator before the model occurs in the id or in the model |
| `DiscoveryKeys.MetadataMayCollide` | internal/discovery/service.go:266-300 | an instance of it, with an id such as only a configured device_mac can be |
| `DiscoveryKeys.NamesMustBeNulFree` | internal/discovery/service.go:301-305 | with a NUL in a name two different interface lists have one key |
| `DiscoveryKeys.TxtInjective` | internal/discovery/txt.go:26-51 | the TXT record determines the metadata it was made from |
| `Discovery.RevokeFirst` | internal/discovery/service.go:405-411 | whatever is live while the registrar is at work is on the desired interfaces |
| `Discovery.ReconcileKeeps` | internal/discovery/service.go:377-432 | one reconciliation establishes the relation between desired publication, active registration, timers and the retry count |
| `Discovery.AlwaysReconciled` | internal/discovery/service.go:333-463 | at every point of every run: registrations shut down exactly once or active; the active one on exactly the interfaces last resolved; exactly one timer when publication is wanted or resolution failed, otherwise none |
| `Discovery.Responds` | internal/discovery/service.go:433-463 | every refresh, timer and snapshot with another identity than the last brings the advertisement in line with what is then desired; a snapshot with the same identity changes nothing |
| `Discovery.AttemptsExactly` | internal/discovery/service.go:333-368 | the number the retry delay is computed from is that of the retry timers made since the advertisement was last as desired or a refresh came |
| `Discovery.RevalidatingMeansPublished` | internal/discovery/service.go:400-431 | with NUL-free host names a revalidation timer means that all the program makes is advertised as desired, and with NUL-free ids exactly the desired facts, whatever the model |
| `DiscoveryCode.Partition` | internal/discovery/service.go:98-109 | splits configured values into names and addresses, refusing a link-local address without a zone |
| `DiscoveryCode.OwnsAny` | internal/discovery/service.go:126-140 | the nested loops decide whether an address of the interface matches a selector |
| `DiscoveryCode.SortByIndex` | internal/discovery/service.go:149-154 | index order, same interfaces |
| `DiscoveryCode.ResolveInterfaces` | internal/discovery/service.go:79-156 | fails exactly in the listed cases; otherwise exactly the eligible interfaces asked for, the first of each index, in index order |
| `DiscoveryCode.ResolutionUnique` | internal/discovery/service.go:79-156 | that contract leaves exactly one result |
| `DiscoveryCode.Desire` | internal/discovery/service.go:248-307 | suppressed exactly until port, identity and fingerprint are in place; an error exactly when resolution fails or is empty; otherwise exactly the resolved interfaces, the port of the preferred scheme and every advertised fact, field by field |
| `DiscoveryCode.BuildKeys` | internal/discovery/service.go:299-306 | the two keys are the specified strings |
| `DiscoveryCode.Publisher.Withdraw` | internal/discovery/service.go:381-384 | shuts the active registration down once and forgets it |
| `DiscoveryCode.Publisher.TakeOver` | internal/discovery/service.go:426-430 | the new registration is active before the previous one is shut down |
| `DiscoveryCode.Publisher.ReconcileNow` | internal/discovery/service.go:377-432 | the closure computes the specified state, which is reconciled |
| `DiscoveryCode.Publisher.Finish` | internal/discovery/service.go:348-354 | at the end both timers are stopped and the active registration is shut down |
| `DiscoveryCode.Publisher.Prepare` | internal/discovery/service.go:438-461 | what an event changes before the reconciliation |
| `DiscoveryCode.Publisher.Handle` | internal/discovery/service.go:439-463 | one turn of the event loop computes the specified step |
| `Settings.UpdateWorks` | internal/api/admin.go:412-461 | one update, wherever it fails: agreement is kept; a failure leaves configuration and store; a success merges the patch and a switch invalidates the old store once |
| `Settings.MergeExactly` | internal/api/admin.go:314-398 | each field follows its own entry of the patch, and the bootstrap secret none |
| `Settings.UpdateSucceedsExactly` | internal/api/admin.go:412-461 | an update succeeds if and only if it decodes, every field is acceptable, the new store opens, the PIN it needs can be drawn and the configuration is saved |
| `Settings.UpdatedLease` | internal/api/admin.go:412-461 | an open PIN survives a successful update with its new lifetime; always-on enrollment opens one if there is none |
| `Settings.SettingsAgree` | cmd/wattlined/main.go:145-229 | after any sequence of updates and enrollment calls: one store for authenticating and issuing, at the saved path, opened with the daemon's secret; the saved policy in force; subscribers invalidated once exactly for stores that a saved switch left |
| `Settings.FailedSaveRestores` | internal/api/admin.go:451-455 | a failed save restores store, policy and enrollment window whatever enrollment did meanwhile |
| `Settings.EnrolledMeanwhileKept` | cmd/wattlined/main.go:187-202 | a client enrolled between applying and saving is in the store used afterwards if and only if the save succeeded or the store was not being switched |
| `Settings.AgentFollows` | cmd/wattlined/main.go:203-211 | the agent PIN goes with the saved one through every outcome |
| `SettingsCode.Daemon.Apply` | cmd/wattlined/main.go:171-216 | store opening, policy change, switch and agent PIN in order, with what the rollback needs |
| `SettingsCode.Daemon.RollBack` | cmd/wattlined/main.go:195-214 | undoes exactly what was applied |
| `SettingsCode.Daemon.Save` | cmd/wattlined/main.go:145-158 | the saved configuration becomes current and keeps the bootstrap secret |
| `SettingsCode.Daemon.Commit` | cmd/wattlined/main.go:218-229 | invalidates the pending old store once, only after a switch |
| `SettingsCode.Daemon.PutSettings` | internal/api/admin.go:412-461 | the handler as a whole is the specified update and keeps agreement |
| `SFloat.Encode` | internal/proto/sfloat.go:28-39 | the loop packs the mantissa at the smallest exponent that fits, or the NaN code |
| `SFloat.Unpack` | internal/proto/sfloat.go:8-22 | decoding a packed pair gives it back, except the four reserved codes |
| `SFloat.ThroughExact` | internal/proto/sfloat.go:8-39 | NaN exactly when no exponent fits or a reserved code is hit; otherwise within half a unit of the chosen exponent |
| `SFloat.ThroughMonotone` | internal/proto/sfloat.go:8-39 | encoding then decoding is monotone wherever it is not NaN |
| `SFloat.NanExactly` | internal/proto/sfloat.go:8-39 | the exact intervals of reals that do not survive |
| `SFloat.ThresholdRange` | internal/control/service.go:361 | on (0,60] the result is never NaN and the error is at most 0.05 |

## Left out

- X.509 generation, PEM, permission and expiry checks, path trust and `flock`: only the fixed loading predicate is kept.
- A volatile directory layer in which a rename is lost although its sync was reported: each rename and its sync are one step.
- EnsureCertificate: it runs the same recovery and the same rotation, and would only add an easy caller.
- JSON decoding and the token file's encoding: the file is the list of tokens; an unreadable file is one that does not load.
- SHA-256, random sources, cron parsing, duration and float printing: abstract functions or inputs.
- The history ring and the pending and recent commands of the telemetry store: bookkeeping that no modelled guarantee reads.
- `List`, `Status` and other read-only views: settled by reading one function.
- UciExact.OnlyWordsReadBack: says nothing of words that begin with a blank, because single lines with such words can read back; UciConverse.RoundTripIff covers whole documents.
- Rules.FiresOnlyAfterHold: not claimed across edits of a rule or for a disabled rule, because a reload carries the hold start by name and a disabled rule keeps it.
- SFloat.Encode: infinities and floating-point rounding; arithmetic is exact and NaN is an option.
- Policy changes are serialized, as the settings lock does: a second change before the first is committed or rolled back is not modelled in PairingFairness.
- The claim that a paused connector has no live session is not made, only ConnectorSession.PauseBars: a pause between the last pause check and the installation finds no session to close (internal/ble/connector.go:387-402).
- A transport that a dialer returns together with an error: it is modelled, but the loop never closes it when the policy is current, so Connector.OneTransport speaks of transports dialed without error.
- The connector's failure counter, the identity it publishes and the session's protocol: they do not affect the modelled guarantees.
- Time in the connector: a sleeping loop may wake at any moment.
- SFLOAT of other exponent ranges, frame builders and parsers in internal/proto: settled by reading one function.
- Timer factories that return nothing are an input of a reconciliation; Discovery.AlwaysReconciled claims a timer only when one could be made.
- Parsing of addresses and trimming and lower-casing of the fingerprint: inputs of DiscoveryCode.ResolveInterfaces and DiscoveryCode.Desire.
- Reloading the configuration from disk (cmd/wattlined/main.go:160-169) replaces the configuration without touching store or policy, so Settings.SettingsAgree speaks of updates through the settings handler only.
- Settings other than the live ones: one field stands for all of them, and their validation is an input.
- Handlers that were not wired up (a missing save or apply function): the daemon wires all of them.
- Views, sockets, Tailscale, BlueZ and D-Bus: input and output.
