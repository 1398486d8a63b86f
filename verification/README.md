# Models of NetBerth's core protocols

Models, in Dafny, of the parts of NetBerth whose correctness depends on whole runs or on all inputs, with proofs of
what they promise. `dafny verify dfyconfig.toml` checks everything. Where the program loops over buffers or changes
fields, the model is a method with loop invariants or a class, proved against a specification on values; the promises
are then lemmas about that specification.

| part | modules |
|---|---|
| SQL placeholder rewriting | `Rebind`, `RebindShapes`, `RebindLaws` |
| encrypted backups (format NBBK2) | `Bytes`, `Streams`, `Nbbk2`, `BackupCrypto`, `BackupLaws` |
| UDP sessions of a forwarding rule | `UdpSessions`, `UdpSessionMap` |
| connection cap of a forwarding rule | `ConnCap` |
| running rules against the database | `ForwardRules`, `ForwardEvents`, `ForwardEngine` |
| STUN attributes, binding exchange, consensus | `StunAttributes`, `StunLaws`, `StunBind`, `StunChecks`, `Consensus` |
| rate limiter | `RateLimit`, `RateLimitLaws`, `RateLimitTable`, `RateLimiter` |
| login lockout | `BruteForce`, `BruteForceLaws`, `LoginCalls`, `LoginLimiter` |
| refresh tokens | `RefreshTokens`, `RefreshTokenLaws`, `RefreshTokenHistory`, `AuthHandlers` |
| retries and circuit breaker | `Retry` |

`Wrappers` holds the option type, `Tables` facts about sizes of sets and maps.

## How to read it

**Concurrency.** The session map, the connection counter, the limiters and the rule table are transition systems: one
step for each critical section, atomic operation or goroutine move, taken in any order that `CanStep` allows. `Run`
ranges over all such orders. The classes carry a ghost `state`; each method is proved to take exactly one step of it, so
what is proved of runs holds of any sequence of calls. For the rule table `ForwardRules` takes a whole handler with its
event as one step; `ForwardEvents` takes apart the database statements, the reading of the row and the section under the
engine's lock, lets them interleave freely, and shows that the moves of one handler, taken in a row, amount to its step.

**Cryptography** is ideal. A key is the pair of passphrase and salt. `BackupLaws.Ideal` says that `open` succeeds exactly
on what some run of the history sealed, be the run complete or broken off, `BackupLaws.Honest` that these runs drew
different salts and stayed below 2^64 - 1 chunks; `BackupLaws.IdealIsRealizable` shows that such a cipher exists for every history and every sealing
that adds a tag and keeps plaintexts apart. CRC-32 is an arbitrary function. Exactly
the tokens the server signed verify, and token IDs are never drawn twice.

**Clocks** never run backwards. A step that reads the clock several times has one parameter for each reading. Floats and
durations are reals or integers.

## Where the code and its promises differ

- The comment at the head of the backup package says that modifying any byte makes decryption fail. Nothing looks
  behind the footer: a stream is accepted exactly when some honest envelope is a *prefix* of it
  (`BackupLaws.AcceptedIff`, `BackupLaws.RoundTrip` with any tail).
- The comment above `Rebind` mentions single-quoted literals only; the code also protects quoted identifiers and both
  kinds of comment. The rewriting can be undone exactly when no plain digit follows a placeholder or a plain `$`
  (`RebindLaws.InvertibleIff`); `?1` becomes `$11` (`RebindLaws.DigitAfterPlaceholder`).
- A session created after the map was cleared can still be closed exactly while the cleaner has not left, whose select
  may take one more tick after `done` is closed; its own reader never closes it, because it finds `done` closed before
  its first read (`UdpSessions.LateSessionClosesIff`). Afterwards it stays open for good
  (`UdpSessions.LateSessionStays`, `UdpSessions.PacketAfterClose`).
- A connection can be refused while no handler runs, because another listener has not yet taken back its own addition
  (`ConnCap.RefusalWithoutHandlers`); the exact condition is `ConnCap.RefusedIff`.
- The engine follows the database only if handlers of one rule do not overlap. An event that read its row before
  another update and takes the lock after it brings the old contents back (`ForwardEvents.OvertakenReload`); one that
  read it before a deletion starts the deleted rule again (`ForwardEvents.ReloadAfterDeletion`), and no watchdog pass
  ever stops that (`ForwardEvents.WatchdogLeavesOrphans`). In every interleaving the engine is in step exactly when, for
  each ID, the row last put into force asks for what the row in the database asks for (`ForwardEvents.InStepIff`).
- A watchdog pass on rows read before another change keeps the engine in step exactly when every row it read still
  agrees with what runs (`ForwardRules.StaleSnapshotIff`). On current rows it restores the engine fully exactly when
  nothing runs without a row and nothing that keeps running has old contents (`ForwardRules.WatchdogInStepIff`). A
  deletion that the database refuses still stops the rule (`ForwardRules.FailedDelete`).
- The fingerprint check looks at the distance to the end of the message, not at the length of the value
  (`StunLaws.FingerprintIff`); a FINGERPRINT without value followed by an empty attribute can pass
  (`StunLaws.EmptyFingerprintAccepted`). With the prescribed four bytes it passes exactly when it is last and right.
- The rate limiter's bound on charged requests, and that eviction goes unnoticed, hold exactly when
  burst <= rate * 300 s (`RateLimit.BoundedIff`, `RateLimitLaws.InvisibleIff`). Clients that a full table does not know
  pass uncounted, any number of requests at once (`RateLimitTable.FullPasses`): the bound on everything that passes holds
  in all runs with n > 0 clients exactly when besides n <= 100,000 (`RateLimitTable.AllPassedBoundedIff`).
- Lockout windows begin with a failure, so `maxFailures` failures within one window's length need not lock; twice that
  minus two do, while the table has room, and one fewer may not (`BruteForceLaws.EnoughAlwaysLock`,
  `BruteForceLaws.OneFewerMayPass`); a full table takes no note of new peers (`BruteForceLaws.FullTableForgets`). Before
  its time a lock is lifted by a success of the peer and by nothing else (`BruteForceLaws.LockKept`). No login handled
  alone can bring that about; under every policy that locks, one already in the handler when the lock falls can
  (`BruteForceLaws.InFlightSuccessUnlocks`). Cleanup goes unnoticed if the clock stands still while a failure is
  recorded; otherwise any delay shows, for every policy that depends on windows (`BruteForceLaws.AlwaysInvisibleIff`).
- The first backoff delay is not capped: delay k is min(base * factor^k, max) for all k exactly when base <= max
  (`Retry.DelayIff`). A breaker with a threshold below one still starts closed (`Retry.ThresholdBelowOne`).

## Model

| member | source | states |
|---|---|---|
| Rebind.ItoaValue | internal/db/dialect.go:89-92 | the number written for a placeholder reads back as that number |
| RebindShapes.NoLeadingZero | internal/db/dialect.go:89-92 | and it is written without leading zeros |
| Rebind.Rebind | internal/db/dialect.go:23-99 | the single-pass five-state loop with lookahead computes, for Postgres, the token-level rewriting: segments copied, k-th placeholder spelled `$k`; for SQLite the query itself |
| RebindLaws.LexCoversQuery | internal/db/dialect.go:38-97 | the segments, characters and placeholders of a query are the whole query, in order |
| RebindShapes.QuotedRead | internal/db/dialect.go:41-60 | text written between quotes, its quotes doubled, is read to the closing quote |
| RebindShapes.QuotedShape | internal/db/dialect.go:41-60 | and whatever is read inside quotes is such text, closed unless the query ends |
| RebindShapes.LineShape | internal/db/dialect.go:61-65 | a line comment ends at its first line break |
| RebindShapes.BlockShape | internal/db/dialect.go:66-72 | a block comment ends with its first end mark |
| RebindShapes.SegmentsComplete | internal/db/dialect.go:38-97 | every protected segment of a query is a whole literal, quoted identifier or comment, except perhaps the last, cut off by the end |
| RebindShapes.QuotedCopied | internal/db/dialect.go:41-60 | a quoted literal or identifier, whatever it contains, is one token and is copied, and the rest is rewritten as if it stood alone |
| RebindShapes.OpenQuotedCopied | internal/db/dialect.go:41-60 | so is one that the query does not close |
| RebindShapes.LineCommentCopied | internal/db/dialect.go:61-65 | so is a line comment, with its line break or up to the end of the query |
| RebindShapes.BlockCommentCopied | internal/db/dialect.go:66-72 | so is a block comment, with its first end mark or up to the end of the query |
| RebindShapes.CharacterBecomes | internal/db/dialect.go:73-95 | any character that opens none of these is copied, except `?`, which becomes `$` and its number |
| RebindLaws.SegmentStable | internal/db/dialect.go:41-72 | a literal, quoted identifier or comment ends at the same place when what follows it is rewritten |
| RebindLaws.RelexSpelled | internal/db/dialect.go:38-97 | splitting the output gives the segmentation of the input with each placeholder spelled out |
| RebindLaws.RebindIdempotent | internal/db/dialect.go:23-99 | rewriting twice is rewriting once |
| RebindLaws.InvertibleIff | internal/db/dialect.go:23-99 | reading each plain `$digits` as `?` gives the query back exactly when no plain digit follows a placeholder or a plain `$` |
| RebindLaws.CollapseShrinks | internal/db/dialect.go:89-92 | otherwise the text read back is strictly shorter than the query |
| RebindLaws.NumbersInOrderIff | internal/db/dialect.go:89-92 | the parameter numbers of the output, left to right, are 1, 2, ..., count of placeholders exactly when no plain digit follows a placeholder or a plain `$` |
| RebindLaws.DigitAfterPlaceholder | internal/db/dialect.go:89-92 | a query that cannot be restored: `?1` |
| Streams.Reader.ReadFull | internal/backupcrypto/backupcrypto.go:81 | whatever pieces the source hands out, a full read depends on its content alone, with end and failure told apart as the program expects |
| Streams.Writer.Write | internal/backupcrypto/backupcrypto.go:209-217 | a sink takes all it is given or, when full, a prefix, and says which |
| BackupCrypto.WriteRecord | internal/backupcrypto/backupcrypto.go:207-217 | length, nonce and sealed bytes reach the sink as one record, or a prefix of it reaches a full sink |
| BackupCrypto.WriteChunk | internal/backupcrypto/backupcrypto.go:200-219 | after it the sink holds the header and index + 1 records of the envelope, or a prefix and an error |
| BackupCrypto.WriteFooter | internal/backupcrypto/backupcrypto.go:221-241 | completes the envelope with the sealed chunk count |
| BackupCrypto.FillBuffer | internal/backupcrypto/backupcrypto.go:78-94 | the buffer holds exactly the next 1 MiB chunk of the plaintext, and an end is reported exactly at the last |
| BackupCrypto.EncryptStream | internal/backupcrypto/backupcrypto.go:56-97 | the sink receives exactly the envelope of the plaintext, for every pattern of short reads; a prefix of it when source or sink fails |
| BackupCrypto.ReadFooter | internal/backupcrypto/backupcrypto.go:243-260 | accepts exactly an authenticated footer with the right count |
| BackupCrypto.DecryptRecords | internal/backupcrypto/backupcrypto.go:122-152 | outcome and output are those of reading record by record, also for a sink that runs full |
| BackupCrypto.DecryptStream | internal/backupcrypto/backupcrypto.go:102-153 | the same for the whole stream, with the errors for passphrase, magic and version |
| BackupCrypto.Encrypt | internal/backupcrypto/backupcrypto.go:156-162 | a non-empty passphrase always yields the envelope, however the source is read |
| BackupCrypto.Decrypt | internal/backupcrypto/backupcrypto.go:165-171 | yields the plaintext exactly when the stream is accepted, and nothing otherwise |
| BackupLaws.AadInjective | internal/backupcrypto/backupcrypto.go:186-198 | different record numbers are authenticated differently, and the footer like none of them |
| BackupLaws.OpensAsChunk | internal/backupcrypto/backupcrypto.go:144-147 | under the key of an honest run the only thing that opens as record i is chunk i of that run |
| BackupLaws.OpensAsFooter | internal/backupcrypto/backupcrypto.go:252-258 | and the only footer is the one with its chunk count |
| BackupLaws.WrittenIsChunkPrefix | internal/backupcrypto/backupcrypto.go:122-152 | on any bytes after an honest salt, after every turn of the loop, the output is a whole-chunk prefix of the honest plaintext |
| BackupLaws.WritesWholeChunks | internal/backupcrypto/backupcrypto.go:122-152 | the same of the final output, accepted or rejected, under any passphrase |
| BackupLaws.HonestStreamAccepted | internal/backupcrypto/backupcrypto.go:122-152 | from any point on track, a stream that goes on with the remaining honest records is accepted with the whole plaintext |
| BackupLaws.ForeignKeyRejected | internal/backupcrypto/backupcrypto.go:117-147 | with a salt or passphrase of no honest run nothing is accepted and nothing written |
| BackupLaws.AcceptedIff | internal/backupcrypto/backupcrypto.go:102-153 | whatever other runs broke off, a stream is accepted exactly when the envelope of a run completed under that passphrase is a prefix of it |
| BackupLaws.AcceptedHasOwner | internal/backupcrypto/backupcrypto.go:102-153 | an accepted stream yields exactly the plaintext of that envelope |
| BackupLaws.RoundTrip | internal/backupcrypto/backupcrypto.go:56-153 | decrypting an envelope gives the plaintext back, whatever follows it |
| BackupLaws.AlteredRejected | internal/backupcrypto/backupcrypto.go:9-12 | a stream carrying the salt of an envelope that does not start with all of it is rejected: no record can be deleted, swapped, spliced or changed |
| BackupLaws.StrictPrefixRejected | internal/backupcrypto/backupcrypto.go:122-127 | every strict prefix of an envelope is rejected |
| BackupLaws.CutOffRejected | internal/backupcrypto/backupcrypto.go:78-94 | no stream with the salt of a run that broke off is accepted, under any passphrase |
| BackupLaws.FailedRunRejected | internal/backupcrypto/backupcrypto.go:78-97 | whatever an encryption with a failing source or sink left in an empty sink is rejected under every passphrase |
| BackupLaws.WrongPassphraseRejected | internal/backupcrypto/backupcrypto.go:45-47 | another passphrase gives the error for damaged data and no output |
| BackupLaws.ErrorCauses | internal/backupcrypto/backupcrypto.go:102-121 | an empty passphrase, a short header or other magic bytes, and another version have each their own error, and no other stream has these |
| BackupLaws.EnvelopeStarts | internal/backupcrypto/backupcrypto.go:70-76 | an envelope begins with "NBBK", 2 and the salt |
| BackupLaws.OversizeRefused | internal/backupcrypto/backupcrypto.go:128-134 | a record announcing more than 2^20 bytes is refused whatever the cipher |
| BackupLaws.EnvelopeLength | internal/backupcrypto/backupcrypto.go:78-97 | an envelope of p bytes is 21 + p + 32 * ceil(p / 2^20) + 40 bytes long |
| UdpSessions.StepInv | internal/engine/forward/forward.go:86-176 | every step keeps each session open and stored, or closed exactly once and absent |
| UdpSessions.SessionsOpenXorClosed | internal/engine/forward/forward.go:86-176 | so in every interleaving, and no two live sessions share a key |
| UdpSessions.FailingReaderClosesOnlyItsOwn | internal/engine/forward/forward.go:128-137 | a reader that fails closes its own session if that is still stored, and nobody else's |
| UdpSessions.TickRemovesIdle | internal/engine/forward/forward.go:165-173 | a tick removes exactly the sessions whose last stamp is older than the TTL when it looks at them, the clock being read for each |
| UdpSessions.TickKeepsUsed | internal/engine/forward/forward.go:86-176 | in every run a tick keeps exactly the sessions whose client sent its last packet within the TTL before the tick looked at them, and closes the others |
| UdpSessions.PacketServed | internal/engine/forward/forward.go:86-113 | a packet is served by its client's session, by a new one if there is none and dialling works, and touches no other |
| UdpSessions.ReaderCanEnd | internal/engine/forward/forward.go:117-142 | while the map is open a reader can always reach its read, and when that fails its session is closed and gone |
| UdpSessions.ClosedForGood | internal/engine/forward/forward.go:144-156 | every session created before the map is cleared is closed once and stays so |
| UdpSessions.ClosesIff | internal/engine/forward/forward.go:86-176 | an open session can still be closed in some run exactly while the map is not cleared, the cleaner has not left or its reader is in a read |
| UdpSessions.LateSessionClosesIff | internal/engine/forward/forward.go:86-176 | in every run, a session open after the map was cleared has no reader in a read and can still be closed exactly while the cleaner has not left |
| UdpSessions.LateSessionStays | internal/engine/forward/forward.go:86-176 | in every run, once the map is cleared and the cleaner has left, an open session stays open and stored for good |
| UdpSessions.PacketAfterClose | internal/engine/forward/forward.go:435-449 | a packet handled after close and the cleaner's end leaves such a session |
| UdpSessionMap.SessionMap.GetOrCreate | internal/engine/forward/forward.go:86-113 | returns the open session of the key, stamped with the present time, creating and storing at most one, and fails only if there is none and dialling fails |
| UdpSessionMap.SessionMap.ReaderFailed | internal/engine/forward/forward.go:128-137 | takes the failing reader's step on the mutable map |
| UdpSessionMap.SessionMap.CleanerTick | internal/engine/forward/forward.go:166-173 | takes the cleaner's step with a clock reading for each entry |
| UdpSessionMap.SessionMap.CloseBegin | internal/engine/forward/forward.go:147-148 | the first half of close happens once, however often it is called |
| UdpSessionMap.SessionMap.CloseClear | internal/engine/forward/forward.go:149-154 | afterwards the map is empty and every session ever created was closed exactly once |
| ConnCap.CapHolds | internal/engine/forward/forward.go:358-373 | in every interleaving the counter is the running handlers plus additions in flight, and running handlers never exceed a positive cap |
| ConnCap.RefusedIff | internal/engine/forward/forward.go:359-364 | a connection is refused exactly when handlers and additions in flight already reach a positive cap |
| ConnCap.RefusalWithoutHandlers | internal/engine/forward/forward.go:359-364 | a run in which a connection is refused while nothing runs |
| ConnCap.RuleInstance.Arrive | internal/engine/forward/forward.go:359-367 | the atomic addition admits exactly as the step does |
| ForwardRules.StepInStep | internal/engine/forward/forward.go:213-233 | every whole handler with its event, and a pass on current rows, keeps: running rules are the enabled rows with equal contents, and every instance not listed is cancelled |
| ForwardRules.AlwaysInStep | internal/service/wire.go:93-108 | so after every sequence of handlers that do not overlap |
| ForwardEvents.AlwaysSound | internal/engine/forward/forward.go:213-233 | in every interleaving of statements, row reads, reloads, removals and passes the table points at live instances of the right rules and every other instance has been cancelled |
| ForwardEvents.LastEnforcedShows | internal/service/wire.go:93-108 | in every interleaving what runs under an ID is what the row last put into force asked for |
| ForwardEvents.InStepIff | internal/service/wire.go:93-108 | after every interleaving the engine is in step exactly when each ID's row in the database asks for what the row last put into force asked for |
| ForwardEvents.LatestLoadShows | internal/service/wire.go:93-108 | a rule is right whenever the event that put it into force read its row after the last write and nothing was put into force since, whatever other rules' handlers do meanwhile |
| ForwardEvents.SerialHandler | internal/api/handler/forward_handler.go:73-155 | the moves of one handler, its event or one pass, taken in a row, amount to its single step |
| ForwardEvents.CreateAchieves | internal/api/handler/forward_handler.go:73-119 | a created rule is in the database as requested and runs just so exactly if enabled; no other rule is touched |
| ForwardEvents.UpdateAchieves | internal/api/handler/forward_handler.go:121-148 | an updated rule has every field of the request but ID, tenant and owner, which it keeps; it runs just so if the request enables it and not at all otherwise; no other rule is touched |
| ForwardEvents.DeleteAchieves | internal/api/handler/forward_handler.go:150-155 | a deleted rule is neither in the database nor running; one that could not be deleted only stops |
| ForwardEvents.NothingAchieved | internal/api/handler/forward_handler.go:121-148 | refused requests and updates of missing rules change nothing |
| ForwardEvents.OvertakenReload | internal/service/wire.go:101-106 | two overlapping updates of one rule can end with the older contents running |
| ForwardEvents.ReloadAfterDeletion | internal/service/wire.go:101-107 | an update overlapping a deletion can end with the deleted rule running |
| ForwardEvents.WatchdogLeavesOrphans | internal/engine/forward/forward.go:463-477 | no number of passes on current rows stops a rule whose row is gone |
| ForwardRules.FailedDelete | internal/api/handler/forward_handler.go:150-155 | a deletion the database refuses keeps that exactly when the rule was not enabled |
| ForwardRules.StartedInStep | internal/engine/forward/forward.go:190-202 | starting on the rows of the database establishes it |
| ForwardRules.ReloadWellFormed | internal/engine/forward/forward.go:213-224 | reloading runs the new contents if enabled, nothing otherwise, and leaves no instance of the rule behind |
| ForwardRules.WatchdogAgrees | internal/engine/forward/forward.go:468-477 | from any state, for any rows, exactly the enabled ones of these rows run afterwards and other rules are untouched |
| ForwardRules.WatchdogIdle | internal/engine/forward/forward.go:468-477 | on current rows, when in step, a pass changes nothing |
| ForwardRules.StaleSnapshotIff | internal/engine/forward/forward.go:463-477 | on other rows it keeps the engine in step exactly when each row's flag agrees with what runs |
| ForwardRules.WatchdogRepairs | internal/engine/forward/forward.go:455-481 | from any state a pass on current rows makes running IDs agree with enabled rows for every ID in the database |
| ForwardRules.WatchdogInStepIff | internal/engine/forward/forward.go:455-481 | and puts the engine fully in step exactly when nothing runs without a row and every enabled rule that runs has its row's contents |
| ForwardEngine.RuleEngine.Reload | internal/engine/forward/forward.go:213-224 | the mutable table takes the step of the specification |
| ForwardEngine.RuleEngine.Remove | internal/engine/forward/forward.go:226-233 | likewise |
| ForwardEngine.RuleEngine.Start | internal/engine/forward/forward.go:190-202 | starts the enabled rows, in order |
| ForwardEngine.RuleEngine.Watchdog | internal/engine/forward/forward.go:467-478 | one pass over the rows is the pass of the specification |
| StunAttributes.XorTwice | internal/engine/stun/attributes.go:106-113 | exclusive or with the same mask twice is the identity |
| StunAttributes.XorBit | internal/engine/stun/attributes.go:106-113 | each bit is the exclusive or of the operands' bits |
| StunChecks.SampleAddress | internal/engine/stun/attributes.go:99-117 | the sample of section 2.2 of RFC 5769 decodes to 192.0.2.1, port 32853 |
| StunAttributes.ParseAddressValue | internal/engine/stun/attributes.go:93-135 | decodes exactly the layouts of sections 15.1, 15.2 and 15.11 of RFC 5389 and nothing shorter |
| StunAttributes.XorInPlace | internal/engine/stun/attributes.go:123-131 | the IPv6 loop replaces every byte by its exclusive or with cookie and transaction ID |
| StunAttributes.AddressRoundTrip | internal/engine/stun/attributes.go:93-135 | decoding undoes encoding for IPv4 and IPv6, plain and XORed, every port and transaction ID |
| StunChecks.ParsedIsEncoded | internal/engine/stun/attributes.go:93-135 | exactly values of known family and sufficient length are addresses, and each is what an encoder writes for the address |
| StunChecks.OnlyKnownTypes | internal/engine/stun/attributes.go:54-81 | each attribute type contributes to its own result only, and other types to none |
| StunChecks.ErrorRoundTrip | internal/engine/stun/attributes.go:63-75 | an encoded error is read back as class times hundred plus number and the reason, whatever the reserved bits |
| StunChecks.AlternateRoundTrip | internal/engine/stun/attributes.go:76-80 | an encoded alternate server is read back |
| StunAttributes.ParseAttributes | internal/engine/stun/attributes.go:44-87 | terminates on any bytes within bounds with the values collected along the attribute walk |
| StunAttributes.FingerprintOffset | internal/engine/stun/attributes.go:140-162 | finds the first FINGERPRINT on the same walk, or none |
| StunAttributes.ValidFingerprint | internal/engine/stun/attributes.go:168-180 | decides whether the message is in order |
| StunLaws.WalkEncoded | internal/engine/stun/attributes.go:45-85 | the walk over encoded attributes, whatever their padding, meets exactly these, each where it was put |
| StunChecks.WalkToTruncated | internal/engine/stun/attributes.go:45-53 | attributes before a truncated one count, the truncated one does not |
| StunLaws.ParseInvertsEncode | internal/engine/stun/attributes.go:44-87 | parsing an encoded list sees exactly the attributes of the list |
| StunLaws.LastValueWins | internal/engine/stun/attributes.go:54-81 | mapped, error and alternate values are the last ones any attribute carries, and absent exactly when none does |
| StunLaws.OffsetFound | internal/engine/stun/attributes.go:140-162 | in an encoded message the search returns the position of the first FINGERPRINT, or -1 without one |
| StunLaws.FingerprintIff | internal/engine/stun/attributes.go:164-180 | an encoded message is accepted exactly when it has no FINGERPRINT or its first one begins the last eight bytes and the last four are the masked checksum of all before it |
| StunLaws.FingerprintLastIff | internal/engine/stun/attributes.go:164-180 | with a value of four bytes: exactly when it is the last attribute and its value is right |
| StunLaws.EmptyFingerprintAccepted | internal/engine/stun/attributes.go:173-179 | a FINGERPRINT that is not last and has no value is accepted if the attribute header after it spells the checksum |
| StunBind.CookieBytes | internal/engine/stun/stun.go:231-234 | comparing the cookie as a number is comparing its four bytes |
| StunBind.HandleDatagram | internal/engine/stun/stun.go:225-267 | a datagram concludes the exchange exactly if it is an authentic final response, with the outcome its attributes give |
| StunChecks.AuthenticIff | internal/engine/stun/stun.go:223-246 | authentic means: server's address (IPv4 also in its form in sixteen bytes) and port, twenty bytes, cookie, transaction, as many bytes as announced, FINGERPRINT in order |
| StunChecks.ImproperSkipped | internal/engine/stun/stun.go:223-246 | a datagram failing any of these ends nothing: before the last attempt it is as good as silence |
| StunChecks.LateAnswerSkipped | internal/engine/stun/stun.go:236-238 | in particular any answer to another transaction, however well formed |
| StunChecks.FinalResponseChecked | internal/engine/stun/stun.go:195-273 | whenever a response ends the exchange it passed each check, and type and attributes give the outcome |
| StunChecks.OutOfAttempts | internal/engine/stun/stun.go:199-222 | when nothing ends the exchange earlier the last attempt names the error |
| StunChecks.DeadlineEnds | internal/engine/stun/stun.go:207-209 | a deadline that cannot be set ends it at once |
| StunBind.StunBind | internal/engine/stun/stun.go:195-273 | after one to three requests the first conclusive attempt decides the outcome, for any behaviour of the socket |
| StunBind.ConclusionUnique | internal/engine/stun/stun.go:195-273 | the events determine how many requests are sent and the outcome |
| StunBind.MappedIff | internal/engine/stun/stun.go:223-262 | an address is returned exactly when one of three attempts brings a success response with right source, cookie, transaction, length and fingerprint that carries it, and none before it ends the exchange |
| StunBind.ForgeriesIgnored | internal/engine/stun/stun.go:223-246 | exchanging inconclusive datagrams for other inconclusive ones changes nothing |
| StunBind.MessageRead | internal/engine/stun/stun.go:228-248 | a well-formed message of the server is authentic exactly when its FINGERPRINT is in order, and its contents are what was encoded |
| StunBind.HonestResponseAnswers | internal/engine/stun/stun.go:225-262 | a success response whose last address attribute encodes `addr` answers with `addr`, up to its FINGERPRINT |
| StunBind.HonestServerReached | internal/engine/stun/stun.go:195-273 | behind any inconclusive attempts the exchange returns the address the server sent |
| StunChecks.HonestErrorReached | internal/engine/stun/stun.go:249-258 | behind any inconclusive attempts an honest error response ends the exchange with its code, reason and alternate server |
| Consensus.PickMajority | internal/engine/stun/stun.go:396-407 | finds a value above half if there is one, in whatever order the map is walked |
| Consensus.ProbeMultiple | internal/engine/stun/stun.go:379-421 | reports the majority address and port of all servers, and flags exactly a difference between two successful probes |
| Consensus.FailedProbesVote | internal/engine/stun/stun.go:385-393 | a failed probe votes for the address it saw, and for nothing if it saw none |
| Consensus.MajorityUnique | internal/engine/stun/stun.go:396-407 | at most one address and one port can pass the test |
| Consensus.ConsensusReported | internal/engine/stun/stun.go:396-407 | consensus address and port were reported together by some server |
| Consensus.UnflaggedConsensus | internal/engine/stun/stun.go:408-421 | without the flag, if more than half succeeded, the consensus is the mapping they all saw |
| Consensus.ArrivalOrderIrrelevant | internal/engine/stun/stun.go:382-421 | the same answers in another order give the same report |
| RateLimit.StepInv | internal/api/middleware/ratelimit.go:38-80 | tokens stay within 0 and burst, the table within its cap |
| RateLimit.StepPays | internal/api/middleware/ratelimit.go:54-77 | no request or wait, and with burst <= rate * 300 s no cleanup, gives a client more than the credit of the time it took |
| RateLimit.AdmittedAtMost | internal/api/middleware/ratelimit.go:51-81 | over any stretch of a run without cleanup, or with burst <= rate * 300 s, at most burst + rate * time requests of a client are charged and let through |
| RateLimit.OverrunAdmits | internal/api/middleware/ratelimit.go:38-49 | with burst > rate * 300 s a burst, an eviction and a burst admit 2 * burst |
| RateLimit.BoundedIff | internal/api/middleware/ratelimit.go:38-80 | all runs keep that bound exactly when burst <= rate * 300 s |
| RateLimitTable.PassedIsAdmitted | internal/api/middleware/ratelimit.go:55-63 | while the table has room for every client, whatever passes was charged |
| RateLimitTable.FullPasses | internal/api/middleware/ratelimit.go:57-61 | a full table lets any number of simultaneous requests of an unknown client through |
| RateLimitTable.OverflowPasses | internal/api/middleware/ratelimit.go:57-61 | 100,000 clients and one more exceed the bound |
| RateLimitTable.AllPassedBoundedIff | internal/api/middleware/ratelimit.go:38-80 | all runs with at most n clients keep the bound on everything that passes, charged or not, exactly when n is 0, or burst <= rate * 300 s and n <= 100,000 |
| RateLimitLaws.EvictionInvisible | internal/api/middleware/ratelimit.go:38-49 | below the table cap and with burst <= rate * 300 s every answer is that of a limiter that never evicts |
| RateLimitLaws.EvictionVisible | internal/api/middleware/ratelimit.go:38-49 | with burst > rate * 300 s some history of one client is answered differently |
| RateLimitLaws.CleanupKeepsRecent | internal/api/middleware/ratelimit.go:38-49 | in every run a cleanup keeps exactly the clients whose last request is at most 300 s old when it looks |
| RateLimitLaws.InvisibleIff | internal/api/middleware/ratelimit.go:38-80 | so eviction is invisible in all runs exactly when burst <= rate * 300 s |
| RateLimitLaws.RefusedHasSpent | internal/api/middleware/ratelimit.go:65-75 | whoever is refused was let through more often than burst - 1 + rate * time since some moment; only time inside the client's own requests earns nothing |
| RateLimiter.Limiter.Admit | internal/api/middleware/ratelimit.go:51-79 | one critical section on the mutable table gives the answer and takes the step of the specification |
| RateLimiter.Limiter.Charge | internal/api/middleware/ratelimit.go:65-77 | refills and charges the stored bucket object and touches no other |
| RateLimiter.Limiter.Sweep | internal/api/middleware/ratelimit.go:41-47 | a tick removes exactly the idle entries, whatever order the map is walked in |
| BruteForce.StepInv | internal/api/middleware/bruteforce.go:78-120 | every entry counts at least one failure, locks end no later than a lock duration from now, the table stays within its cap |
| BruteForce.StepExplained | internal/api/middleware/bruteforce.go:78-120 | every step keeps each count and each lock explained by failures of the history in one window with no success since |
| BruteForce.RejectionIsEarned | internal/api/middleware/bruteforce.go:53-98 | in any run a rejected attempt was preceded by maxFailures failures inside one window, no success since the first of them, the last of them locking |
| BruteForceLaws.LockKept | internal/api/middleware/bruteforce.go:53-120 | before a lock runs out a step lifts it exactly when it is a success of the peer |
| BruteForceLaws.LockHolds | internal/api/middleware/bruteforce.go:53-61 | so while no login of the peer succeeds, every attempt before the lock ends is rejected, through failures, cleanups and other peers |
| BruteForceLaws.LockedOutSerially | internal/api/middleware/bruteforce.go:47-76 | when logins do not overlap, every one before a lock ends is rejected before the handler runs |
| LoginCalls.FailedLoginsLock | internal/api/middleware/bruteforce.go:47-98 | a peer not known so far is locked out by maxFailures logins answered Unauthorized within one window, none succeeding, while the table has room: the next login is rejected exactly until the lock ends |
| LoginCalls.FailuresCounted | internal/api/middleware/bruteforce.go:69-98 | fewer are all counted and lock nobody, whatever else happens meanwhile |
| LoginCalls.RecordedNothing | internal/api/middleware/bruteforce.go:66-75 | a rejected login, or an answer that is neither success nor Unauthorized, records nothing; a success forgets the peer and no other |
| LoginCalls.RecordedFailure | internal/api/middleware/bruteforce.go:69-98 | a failed login counts one more, or as the first of a new window, and locks if there are enough |
| LoginCalls.CleanupForgets | internal/api/middleware/bruteforce.go:113-117 | a cleanup forgets exactly the peers whose window is twice over and whose lock has run out |
| BruteForceLaws.InFlightSuccessUnlocks | internal/api/middleware/bruteforce.go:66-74 | under every policy with maxFailures and lock of at least one, a login already in the handler when the lock falls lifts it by succeeding |
| BruteForceLaws.EnoughAlwaysLock | internal/api/middleware/bruteforce.go:78-98 | while the table has room for all that fail, 2 * maxFailures - 2 failures (one, for maxFailures below two) within any stretch as long as the window lock the peer, wherever windows begin |
| BruteForceLaws.FullTableForgets | internal/api/middleware/bruteforce.go:84-86 | a full table never locks a peer it does not know |
| BruteForceLaws.OneFewerMayPass | internal/api/middleware/bruteforce.go:91-95 | one fewer need not, for every policy with maxFailures of at least two and a window of at least one |
| BruteForceLaws.CleanupInvisible | internal/api/middleware/bruteforce.go:108-120 | from states that agree on what matters, a limiter that clears and one that never does answer alike if the clock stands still within a failure |
| BruteForceLaws.PromptInvisible | internal/api/middleware/bruteforce.go:108-120 | so from the start, for as many failing peers as the table holds |
| BruteForceLaws.DelayShowsCleanup | internal/api/middleware/bruteforce.go:86-95 | for every policy that depends on windows, any delay within a failure can make a cleared entry tell |
| BruteForceLaws.AlwaysInvisibleIff | internal/api/middleware/bruteforce.go:78-120 | whatever the clock does, cleanup is invisible exactly when every failure locks or no lock lasts |
| LoginLimiter.Limiter.Attempt | internal/api/middleware/bruteforce.go:55-62 | rejects exactly when a lock of the peer is running |
| LoginLimiter.Limiter.RecordFailure | internal/api/middleware/bruteforce.go:78-99 | takes the step of a failure on the mutable table of entries |
| LoginLimiter.Limiter.Reset | internal/api/middleware/bruteforce.go:102-106 | forgets the peer and no other |
| LoginLimiter.Limiter.Cleanup | internal/api/middleware/bruteforce.go:108-120 | removes exactly the stale entries whose lock has run out |
| LoginLimiter.Limiter.LoginMiddleware | internal/api/middleware/bruteforce.go:47-76 | a whole login on the mutable table records what the handler's answer says, or is rejected and records nothing |
| RefreshTokens.StepInv | internal/api/handler/auth_handler.go:43-356 | stored rows are refresh tokens the server signed, for the user and expiry they were signed with; nothing signed or stored is forgotten |
| RefreshTokenLaws.StepLive | internal/api/handler/auth_handler.go:99-145 | a step changes a user's live tokens by exactly those it ends and the one it issues |
| RefreshTokenLaws.StepCount | internal/api/handler/auth_handler.go:43-356 | live tokens of a user: +1 for a login, 0 for a refresh, -1 for a logout with a live token, to zero for a changed password, unchanged otherwise |
| RefreshTokenLaws.RunCount | internal/api/handler/auth_handler.go:43-356 | the same balance over every run |
| RefreshTokenLaws.DeadForGood | internal/api/handler/auth_handler.go:339-352 | a token revoked or never stored is not redeemed in any later step |
| RefreshTokenLaws.RedeemedOnce | internal/api/handler/auth_handler.go:108-146 | in any run each token is redeemed at most once |
| RefreshTokenLaws.AccessNeverRefreshes | internal/api/handler/auth_handler.go:339-348 | the access token of an answer is redeemed in no run |
| RefreshTokenLaws.LiveIff | internal/api/handler/auth_handler.go:327-356 | a token is live exactly when some step issued it and none since redeemed it, logged out with it or changed its user's password |
| RefreshTokenHistory.RedeemedIff | internal/api/handler/auth_handler.go:108-146 | after any history a refresh is granted exactly when the token's user exists and the token is just the one with which some login or refresh was answered, at most its lifetime ago, that was neither redeemed nor logged out with in time, and whose user's password was not changed, since |
| RefreshTokenHistory.VerifiesIff | internal/auth/auth.go:141-158 | a token verifies exactly when some earlier answer contained just this token and it has not expired |
| RefreshTokenHistory.LoginIff | internal/api/handler/auth_handler.go:43-106 | a login is granted exactly for name and password of an enabled account within the length limits, with both tokens for that account and of the configured lifetimes |
| RefreshTokenHistory.RefreshAnswer | internal/api/handler/auth_handler.go:136-145 | a refresh answers with tokens of the same user and the configured lifetimes |
| RefreshTokenHistory.ChangePasswordIff | internal/api/handler/auth_handler.go:166-215 | a password changes exactly for an existing user giving the current one, within the length limits, and nothing else about accounts changes |
| RefreshTokenHistory.NewPasswordOnly | internal/api/handler/auth_handler.go:166-215 | from then until the next such change the new password signs in and no other does |
| AuthHandlers.AuthHandler.GenerateTokens | internal/auth/auth.go:104-139 | signs one token of either kind with its own ID and expiry |
| AuthHandlers.AuthHandler.RevokeAllUserRefreshTokens | internal/api/handler/auth_handler.go:354-356 | revokes the rows of the user and no others |
| AuthHandlers.AuthHandler.Login | internal/api/handler/auth_handler.go:43-106 | answer and new tables are those of the specification |
| AuthHandlers.AuthHandler.RefreshToken | internal/api/handler/auth_handler.go:108-146 | likewise, with the old token revoked and the new one stored |
| AuthHandlers.AuthHandler.Logout | internal/api/handler/auth_handler.go:308-320 | likewise; unknown and revoked tokens still succeed |
| AuthHandlers.AuthHandler.ChangePassword | internal/api/handler/auth_handler.go:166-215 | likewise, with the same order of refusals |
| Retry.CircuitBreaker.Allow | pkg/retry/backoff.go:51-67 | grants exactly as the specification does |
| Retry.CircuitBreaker.Failure | pkg/retry/backoff.go:76-84 | takes the step of a failure |
| Retry.ClosedIff | pkg/retry/backoff.go:69-84 | for a threshold of at least one the breaker is closed exactly while consecutive failures are below it |
| Retry.RefusedIff | pkg/retry/backoff.go:51-67 | a call is refused exactly when the threshold is reached and the last failure is at most the wait ago, whatever probes were granted since |
| Retry.ThresholdBelowOne | pkg/retry/backoff.go:80-82 | with a lower threshold it is closed exactly without failures |
| Retry.DelayIs | pkg/retry/backoff.go:90-114 | with base <= max delay k is min(base * factor^k, max) |
| Retry.DelayIff | pkg/retry/backoff.go:90-114 | that holds for every k exactly when base <= max |
| Retry.Do | pkg/retry/backoff.go:88-118 | at most MaxAttempts calls; the count returned is the calls made; the result is the first success or the last error; the k-th delay is delay k; the breaker saw exactly these calls and granted each |
| Retry.NextCallIff | pkg/retry/backoff.go:92-106 | behind a new breaker another call is made after n failures exactly when n is 0 or below the threshold or the wait is over |

## Left out

- Real AES-GCM, Argon2id, CRC-32, SHA-256, JWT and Argon2 password hashes, and failures of the random source.
- A footer that opens to fewer than eight bytes: the program would index out of range; under the ideal cipher it never happens, and the model rejects it.
- Nonces and salts are inputs; a list of draws that is too short is continued with zeros.
- Sockets, HTTP bodies, SQL and files: they appear as byte strings, events and maps. Failed database statements inside the token helpers, whose errors the program ignores, are not modelled.
- Copying of forwarded bytes, byte counters, access lists, listener start-up and `Engine.Stop`.
- A session map key holds network and address as the program does; that the key's network is always "udp" is not used.
- The UDP, limiter and rule classes take one critical section per call; the Go scheduler, memory ordering of racing atomics and overlapping handlers of one user's tokens are not modelled. Reading a rule with its access lists takes three statements; the `Load` move may return any row under that ID. Breaker calls and token handlers are taken one at a time.
- Normalising client addresses: a peer is one key.
- Rates, bursts, lock durations and windows below zero.
- The retry loop around a probe and NAT type detection; a probe is its outcome. An error with an empty text is taken for a failure.
- The symmetric-NAT analysis, other engines, the reverse-proxy route table, and CRUD handlers: easy members, or no such invariant.
- Retry.Do: leaves out jitter, sleeping and the truncation of delays to whole nanoseconds.
- StunBind.StunBind: the request is its transaction ID; building it and the pauses between attempts are not modelled.
- RateLimit.AdmittedAtMost: counts requests charged to a bucket; requests that pass a full table uncharged are counted by `RateLimitTable.Passed` only.
- Decoding of login and password-change bodies, two-factor setup, and issuing times of tokens; both tokens of an answer are signed and stored at one instant.
- The byte length of names and passwords is the length of the string.
