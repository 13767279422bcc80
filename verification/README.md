# Nebula: a verified model

Nebula runs a VPN service: an API, an agent on each server, an edge relay and an admin console. This
project models the parts of it whose correctness rests on an argument rather than on a single line of
code, and proves that argument for every input, every run or every interleaving.

| file | what it models |
|---|---|
| `KeyMaterial.dfy`, `FirstRun.dfy`, `Rotation.dfy` | processes that race and crash while creating certificates and keys; what one left to itself comes to; rotation of the control-plane identity |
| `Ledger.dfy`, `LedgerCrash.dfy`, `LedgerCodec.dfy` | the agent's idempotency ledger, with its file modelled character by character; what a crash inside a record leaves; a codec that meets what the ledger relies on |
| `Vless.dfy`, `VlessText.dfy` | the VLESS header parser; the same told byte by byte, host names read back as numbers and characters |
| `Relay.dfy`, `RelayProgress.dfy` | the asynchronous relay behind it, what every interleaving keeps and what it gets done |
| `Retention.dfy` | pruning history in bounded batches under row locks and a foreign key |
| `Erasure.dfy` | erasing an account across tables with RESTRICT foreign keys |
| `Usage.dfy` | totals from counters that reset, with readings that overlap |
| `AuditChain.dfy` | the hash-chained audit export and its verification |
| `Alerts.dfy` | the throttle that decides when a health problem is mailed |
| `Routes.dfy` | the share of API addresses each account is told |
| `Expiry.dfy` | extending an expiry by months |
| `Admins.dfy` | managing administrators and what it does to their sessions |
| `SetCookie.dfy`, `BodyLimit.dfy`, `PeerKeys.dfy` | the Set-Cookie parser, the request-body limit, migration 0009 |
| `Text.dfy` | splitting, joining and trimming text, shared by the others |

Protocols that interleave (key material, rotation, relay, readings, admin requests, runs of the health
check) are state machines over values: `Step` is total, an event that cannot happen where it stands does
nothing, and a run is any sequence of events. Code that works on its own state or in a loop is a class
or a method proved against a function, and the properties are proved of that function. JSON, SHA-256,
ISO 8601 times, `parseInt`, `Date` parsing, clocks, locks, refusals and failures of the file system are
parameters; where a law is needed of one it is a predicate, and a witness shows the law can be met.

Where the code does not do what its comments, or a reader, would expect, the model follows the code:

- A crash between creating the last file of a set and writing it leaves an empty file that every later
  start takes for present (`KeyMaterial.PresentButEmpty`; `CompleteIsUsableIff` says exactly when).
- Rotating a certificate that has no key beside it can end with one process's certificate beside another's key
  (`Rotation.LoneCertificateMixes`; `SafeStartIff` says exactly which directories are safe to start from).
- A torn ledger line costs the torn entry and also the first one recorded after it (`Ledger.SessionAfterTear`).
- A crash inside a record can reload to neither the state before the record nor the one after it: when it comes
  between the append and the rewritten file (`LedgerCrash.CrashKeepsTooMany`), and when it is the second crash on one
  line, which takes the first one's entry with it (`LedgerCrash.SecondCrashForgets`). `BeforeOrAfterIff` says exactly
  when, for every state a run reaches.
- Re-recording a key in the ledger does not move it: eviction goes by first appearance (`Ledger.SurvivesIff`).
- The relay's fallback destination is sent the header's payload, not what the client has sent since
  (`Relay.FallbackDropsMessage`; `FallbackCarriesAllIff` says exactly when nothing is missing).
- An account whose address another user's activation hangs off cannot be erased (`Erasure.ForeignActivationBlocks`;
  `EraseAccount` succeeds exactly when there is no such activation).
- Readings that overtake one another count bytes twice (`Usage.FourForTwo`; before any restart, `NeverTwiceIff` says
  exactly when). Taken in the order they are asked for, they never do, restarts or not.
- A comment says that a state file that cannot be written costs only a duplicate mail and never a suppressed one. A
  refused write hides the recovery that follows it (`Alerts.RefusedWriteHidesRecovery`; `SilentIff` says exactly when a
  check is silent), and a write cut short can hide a recovery or a different set of problems (`CutHidesRecovery`,
  `CutCanSilence`; `CutSilencesIff` says exactly when).
- A later expiry can be extended to an earlier moment when both are clamped to one day
  (`Expiry.LaterBaseEarlierExpiry`; `MonotoneIff` says exactly when).
- The downgrade of migration 0009 cannot restore its constraint when two newest rows of a key are of one
  age (`PeerKeys.TwinsStay`; `UniqueIff` says exactly when).

## Model

| member | source | states |
|---|---|---|
| `KeyMaterial.GenerationRun` | services/api/src/nebula_api/bootstrap.py:160-172 | from an empty directory, every interleaving of any number of processes and crashes keeps all files of one generation, created in order, each made by the one process that owns the first |
| `KeyMaterial.UntouchedRun` | services/api/src/nebula_api/bootstrap.py:208-226 | whatever file is there before, whole or half-written, no run adds to, replaces or completes the set |
| `KeyMaterial.NeverChanges` | services/api/src/nebula_api/pki.py:284-296 | a file once there keeps its generation and its bytes through any further run |
| `KeyMaterial.CreatorOwnsAll` | services/vpn-agent/src/nebula_agent/enrollment.py:281-319 | a process that reports it created the set made and wrote every file of it, and at most one does |
| `KeyMaterial.CompleteIsUsableIff` | services/vpn-agent/src/nebula_agent/enrollment.py:89-108 | when all files are present all but the last are written, and the set is usable exactly when its maker is past writing the last |
| `KeyMaterial.PresentButEmpty` | services/vpn-agent/src/nebula_agent/enrollment.py:207-218 | a run in which a crash leaves an empty last file and another process reports the set present |
| `FirstRun.CreatesTheSet` | services/vpn-agent/src/nebula_agent/enrollment.py:300-319 | in an empty directory a process left to itself ends having created exactly the files of its plan (one for a secret, two for either pair, three for a node), each its own and written |
| `FirstRun.LeavesTheSet` | services/vpn-agent/src/nebula_agent/enrollment.py:89-108 | where all of those files are there it reports nothing to do, where only some are it raises, and either way no file changes |
| `FirstRun.CreatedOnce` | services/api/src/nebula_api/bootstrap.py:88-126 | a second process after the first finds the set and leaves it |
| `FirstRun.EveryProcessEnds` | services/api/src/nebula_api/bootstrap.py:160-172 | in any run, whatever other processes do in between, eleven steps of its own see a process to its end |
| `Rotation.PairsMatch` | services/api/src/nebula_api/bootstrap.py:247-263 | with rotations, concurrent starts and crashes anywhere, a complete current pair is a matching one, and so is the pair moved aside |
| `Rotation.OldPairKept` | services/api/src/nebula_api/bootstrap.py:231-263 | a complete pair in any sound state, its maker still at work or not, is never lost: through any further run each file is under exactly one of its two names |
| `Rotation.EveryPairKept` | services/api/src/nebula_api/bootstrap.py:231-263 | a pair complete at any point of a run, made before it or during it, is kept through whatever follows |
| `Rotation.SafeStartIff` | services/api/src/nebula_api/bootstrap.py:247-263 | a quiet directory never comes to hold a mismatched pair, in any run, exactly when it is empty, holds a key alone or holds a matching pair |
| `Rotation.LoneCertificateMixes` | services/api/src/nebula_api/bootstrap.py:255-256 | from a certificate without a key, a run that ends with a mismatched pair |
| `Rotation.RotatesThePair` | services/api/src/nebula_api/bootstrap.py:247-263 | a rotation left to itself puts both old files aside and ends with a whole new pair in their place, made and written by the process it starts |
| `Rotation.RefusesWhileAside` | services/api/src/nebula_api/bootstrap.py:247-253 | with either file of an earlier rotation still aside a rotation changes nothing |
| `Rotation.HalfAPairIsNotRotated` | services/api/src/nebula_api/bootstrap.py:255-256 | with no certificate a rotation changes nothing, and with a certificate and no key it leaves the certificate moved aside |
| `Ledger.OperationLedger.constructor` | services/vpn-agent/src/nebula_agent/ledger.py:47-55 | a new ledger is the load of its file |
| `Ledger.OperationLedger.Load` | services/vpn-agent/src/nebula_agent/ledger.py:57-83 | the loop over lines leaves the replay of the entries the file holds |
| `Ledger.OperationLedger.Remember` | services/vpn-agent/src/nebula_agent/ledger.py:79-81 | a key's first appearance fixes its place, its last one its value |
| `Ledger.FindsLast` | services/vpn-agent/src/nebula_agent/ledger.py:85-86 | what is found under a key is the last entry recorded with it |
| `Ledger.OperationLedger.RecordEntry` | services/vpn-agent/src/nebula_agent/ledger.py:88-108 | memory and file both become what `Record` says |
| `Ledger.AppendClean` | services/vpn-agent/src/nebula_agent/ledger.py:110-113 | a line appended to a newline-terminated file adds exactly its entry to what a load finds, and leaves the file newline-terminated |
| `Ledger.AppendTorn` | services/vpn-agent/src/nebula_agent/ledger.py:110-113 | a line appended to a torn tail is lost with the tail, and nothing else is |
| `Ledger.OperationLedger.CompactIfNeeded` | services/vpn-agent/src/nebula_agent/ledger.py:115-122 | the oldest entries beyond the maximum leave memory, and the file is rewritten exactly then |
| `Ledger.OperationLedger.DropOldest` | services/vpn-agent/src/nebula_agent/ledger.py:118-121 | the first entries of the order leave the order and the dictionary, the others stay |
| `Ledger.OperationLedger.Rewrite` | services/vpn-agent/src/nebula_agent/ledger.py:124-129 | the file becomes the entries in order, one a line |
| `Ledger.RewriteReplays` | services/vpn-agent/src/nebula_agent/ledger.py:124-129 | a rewritten file is newline-terminated and replays to exactly the memory it was written from |
| `Ledger.RunAgrees` | services/vpn-agent/src/nebula_agent/ledger.py:57-129 | after every run of records, restarts and crashes the file replays to the order and entries in memory, unless the session began on a torn tail, has recorded and has not compacted; then the file lacks exactly that tail and the session's first record |
| `Ledger.CleanRunAgrees` | services/vpn-agent/src/nebula_agent/ledger.py:57-129 | on a newline-terminated file, records and restarts in any order keep file and memory in agreement |
| `Ledger.SessionAgrees` | services/vpn-agent/src/nebula_agent/ledger.py:88-129 | within one session, a newline-terminated start or one compaction is enough for that |
| `Ledger.CrashReload` | services/vpn-agent/src/nebula_agent/ledger.py:104-129 | what a crash reloads to at each of its points, in the append, after it with the rewritten file not in place, after everything, on a clean tail and on a torn one |
| `Ledger.RunReaches` | services/vpn-agent/src/nebula_agent/ledger.py:57-129 | in every state a run reaches the file replays to the memory, or is newline-terminated and lacks keys of a memory that is within its bound |
| `LedgerCrash.CrashBeforeIff` | services/vpn-agent/src/nebula_agent/ledger.py:104-129 | in every state a run reaches, exactly when a crash inside the next record leaves the memory as it was |
| `LedgerCrash.CrashAfterIff` | services/vpn-agent/src/nebula_agent/ledger.py:104-129 | and exactly when it leaves the memory as the record would have |
| `LedgerCrash.BeforeOrAfterIff` | services/vpn-agent/src/nebula_agent/ledger.py:104-129 | the two together: when a crash loses or keeps the record as a whole, after any run of records, restarts and crashes |
| `LedgerCrash.CleanIff` | services/vpn-agent/src/nebula_agent/ledger.py:104-129 | on a newline-terminated file that agrees with memory, that fails only for an eviction cut short |
| `LedgerCrash.TornIff` | services/vpn-agent/src/nebula_agent/ledger.py:72-81 | on a torn tail, it holds exactly when the tail said nothing of its own, or the record undoes it |
| `LedgerCrash.CrashKeepsTooMany` | services/vpn-agent/src/nebula_agent/ledger.py:115-129 | one entry allowed and a second key: a crash before the rewritten file is in place reloads to both |
| `LedgerCrash.SecondCrashForgets` | services/vpn-agent/src/nebula_agent/ledger.py:110-113 | two crashes, the first after a whole object, the second a character later: neither entry is left |
| `Ledger.RunKeeps` | services/vpn-agent/src/nebula_agent/ledger.py:88-122 | in every run of records, crashes and restarts the order is duplicate-free with the dictionary's keys, and no longer than the maximum after a record |
| `Ledger.RecordAllKeeps` | services/vpn-agent/src/nebula_agent/ledger.py:88-122 | the same over any number of records from any indexed state |
| `Ledger.SessionAfterTear` | services/vpn-agent/src/nebula_agent/ledger.py:72-81 | after a torn tail and until a compaction, the file lacks the tail and the first entry recorded after it, and nothing else |
| `Ledger.BlankIff` | services/vpn-agent/src/nebula_agent/ledger.py:72-74 | a line is skipped exactly when stripping leaves nothing of it |
| `Ledger.LossBound` | services/vpn-agent/src/nebula_agent/ledger.py:72-129 | over every run, compacting or not, each crash costs at most one completed record |
| `Ledger.LostIff` | services/vpn-agent/src/nebula_agent/ledger.py:104-129 | a record appended to a torn tail leaves the file's complete lines as they were; of any other the file says what memory does |
| `Ledger.AppendsSettle` | services/vpn-agent/src/nebula_agent/ledger.py:110-113 | until the file is rewritten, every record that is not lost is one more complete line |
| `Ledger.SurvivesIff` | services/vpn-agent/src/nebula_agent/ledger.py:115-122 | a key survives a record exactly when its place in the order is past the overflow |
| `LedgerCodec.LawfulCodecExists` | services/vpn-agent/src/nebula_agent/ledger.py:28-44 | a line codec with the laws the ledger relies on exists |
| `Vless.RoundTrip` | services/edge-relay/src/vless.js:44-105 | parsing the encoding of any well-formed header with any payload gives back that request |
| `Vless.AcceptedIff` | services/edge-relay/src/vless.js:44-105 | a message is accepted exactly when it is the encoding of a well-formed header followed by the payload handed on |
| `Vless.Unambiguous` | services/edge-relay/src/vless.js:44-105 | header and payload are determined by the bytes |
| `Vless.CutIsRefused` | services/edge-relay/src/vless.js:44-105 | a header cut short anywhere is refused |
| `Vless.ParseRequest` | services/edge-relay/src/vless.js:44-105 | the parser, with its index and accumulators, computes `Parse` on every input, all indexing in range |
| `Vless.Differs` | services/edge-relay/src/vless.js:53-56 | the accumulated differences of sixteen bytes are zero exactly when the bytes are equal |
| `Vless.Admits` | services/edge-relay/src/vless.js:51-61 | the OR of XORs over every byte of every UUID accepts exactly the listed UUIDs |
| `Vless.Accumulates` | services/edge-relay/src/vless.js:53-57 | the accumulator stays zero exactly while the bytes agree |
| `Vless.Word` | services/edge-relay/src/vless.js:67 | shift and OR of two bytes is the 16-bit number |
| `Vless.ReadHost` | services/edge-relay/src/vless.js:70-100 | the branches on the address type give the text to dial and where the payload begins, or the same refusal as the reading of the address |
| `Vless.GroupTexts` | services/edge-relay/src/vless.js:92-95 | the loop over an IPv6 address gives its eight groups |
| `VlessText.NumeralIff` | services/edge-relay/src/vless.js:75 | the text of a number is the one numeral that reads as it, in base 10 or 16, with no zero in front |
| `Vless.V4Faithful` | services/edge-relay/src/vless.js:75 | distinct IPv4 addresses are dialled by distinct names |
| `Vless.V6Faithful` | services/edge-relay/src/vless.js:92-96 | distinct IPv6 addresses are dialled by distinct names |
| `VlessText.V4TextIff` | services/edge-relay/src/vless.js:75 | a text is an IPv4 host exactly when its pieces between points are the numerals of the four bytes, in order |
| `VlessText.V6TextIff` | services/edge-relay/src/vless.js:92-96 | a text is an IPv6 host exactly when, between brackets, its pieces between colons are the hexadecimal numerals of the eight pairs of bytes, in order and the first byte of each the greater |
| `VlessText.NameTextIff` | services/edge-relay/src/vless.js:82-86 | a text is a host name exactly when its characters are the bytes, a byte-order mark aside, at least one and all of them letters, digits, points, dashes or underscores |
| `VlessText.OutcomeUnframed` | services/edge-relay/src/vless.js:45-65 | a message that ends before the address, or whose user is not listed, is refused as such |
| `VlessText.OutcomeV4` | services/edge-relay/src/vless.js:66-105 | for address type 1 the outcome on every message: short, a bad port or command, or the very bytes of version, command and port, the four bytes as a dotted host, and what follows them |
| `VlessText.OutcomeV6` | services/edge-relay/src/vless.js:66-105 | the same for type 3 and sixteen bytes |
| `VlessText.OutcomeName` | services/edge-relay/src/vless.js:66-105 | the same for type 2 and bytes that read as a name |
| `VlessText.OutcomeNoName` | services/edge-relay/src/vless.js:77-88 | type 2 with its bytes not all there, or that read as no name, is refused as short or as a bad address |
| `VlessText.OutcomeOther` | services/edge-relay/src/vless.js:98-100 | any other type is a bad address |
| `Vless.UuidBytes` | services/edge-relay/src/vless.js:13-23 | the loop over hexadecimal pairs computes `UuidOf` |
| `Vless.UuidIff` | services/edge-relay/src/vless.js:13-23 | a text names a UUID exactly when, dashes and letter case aside, it is that UUID's hexadecimal |
| `Vless.ListIff` | services/edge-relay/src/vless.js:29-39 | a text admits exactly some UUIDs when it lists them in order between commas, with blanks around entries and blank entries allowed |
| `Vless.ListRoundTrip` | services/edge-relay/src/vless.js:29-39 | a comma-separated list of UUIDs, each spelled in any accepted way, admits exactly those |
| `Relay.RunSound` | services/edge-relay/src/index.js:50-119 | in every interleaving messages are handled in arrival order, each socket gets the header's payload then the messages handled while it was the destination, the client sees nothing or one response head and one stream, all of it or at the end all but the last chunk read, and there is at most one fallback dial, only for TCP and only if nothing came back |
| `Relay.HeaderOpensStream` | services/edge-relay/src/index.js:89-105 | with the relay's own UUIDs a stream is opened by a well-formed header alone, dialled at the address and port it names, its payload sent first, and UDP only to port 53 |
| `Relay.StepSound` | services/edge-relay/src/index.js:76-118 | every event keeps all of that |
| `Relay.ChunkSound` | services/edge-relay/src/index.js:123-146 | a chunk from the destination reaches the client in order, the head ahead of the first |
| `Relay.EndSound` | services/edge-relay/src/index.js:76-87 | the end of a pump closes the stream or turns to the fallback, keeping all of that |
| `Relay.FallbackCarriesAllIff` | services/edge-relay/src/index.js:76-105 | the fallback has been sent everything from the client exactly when no later message was handled before the switch |
| `Relay.FallbackDropsMessage` | services/edge-relay/src/index.js:76-105 | a run in which a message never reaches the fallback |
| `RelayProgress.EverythingIsPassedOn` | services/edge-relay/src/index.js:107-118 | from every state in which a stream is open, once the writes ahead settle every message has been handled, in arrival order, and the last destination, unless it broke or the client closed, has been sent the payload and all that came since it was dialled |
| `RelayProgress.OneAtATime` | services/edge-relay/src/index.js:107-113 | until the write of a message settles no later one is handled, whatever else happens |
| `RelayProgress.ClientCloses` | services/edge-relay/src/index.js:114-118 | a client that closes closes the destination behind what it has sent |
| `RelayProgress.FailedWriteCloses` | services/edge-relay/src/index.js:112 | a write that fails closes |
| `RelayProgress.ClosedForGood` | services/edge-relay/src/index.js:123-146 | once closed, nothing more is sent to the client in any run that follows |
| `RelayProgress.FirstOpens` | services/edge-relay/src/index.js:89-105 | a first message that is a header dials the address it names and sends its payload |
| `RelayProgress.OtherFirstCloses` | services/edge-relay/src/index.js:89-99 | any other first message closes and dials nothing |
| `RelayProgress.FailedDialCloses` | services/edge-relay/src/index.js:89-105 | so does a first dial that fails |
| `RelayProgress.OpenerIff` | services/edge-relay/src/index.js:89-99 | every well-formed header opens a stream, but for UDP to another port than 53 |
| `RelayProgress.AnswerPasses` | services/edge-relay/src/index.js:123-146 | from every state with a stream open and the client there, a chunk read reaches the client, the response head ahead of the first |
| `RelayProgress.EndTurnsToFallback` | services/edge-relay/src/index.js:76-87 | a destination that ends without a byte is replaced by the fallback, at its own port or the one asked for and with the payload sent, for TCP and once; any other end closes |
| `Retention.DeleteInBatches` | services/api/src/nebula_api/retention.py:175-203 | for any choice of batches and any rows locked at each, every batch takes only rows doomed and unlocked then; unless refused, what is left doomed was locked at the last look or 2000 batches of 2000 were taken; with steady locks the count is exact; a refusal keeps the batches before it |
| `Retention.RunPass` | services/api/src/nebula_api/retention.py:157-164 | one pass never deletes more than the simple delete, and all of it when nothing stands in the way |
| `Retention.Database.PruneHistory` | services/api/src/nebula_api/retention.py:94-172 | the five passes delete only what may go, report what they deleted, equal one set-delete when nothing is locked, refused or over the cap, and keep the foreign key after every one of their batches |
| `Retention.Cutoffs` | services/api/src/nebula_api/retention.py:112-113 | operational history goes by one number of days, the audit log by the other |
| `Retention.PrunedByTime` | services/api/src/nebula_api/retention.py:119-129 | a check, health report or audit entry that was deleted is older than its own cutoff, and every row left is as it was |
| `Retention.PrunedWhenOver` | services/api/src/nebula_api/retention.py:130-150 | a delivery or operation that was deleted was over and its end past the cutoff, and no check newer than the cutoff named the operation |
| `Retention.CalmLeavesNoHistory` | services/api/src/nebula_api/retention.py:118-155 | on a calm database nothing past its cutoff is left, but finished operations a check still names |
| `Retention.Composed` | services/api/src/nebula_api/retention.py:118-164 | passes done one after another, records first, compose to that result |
| `Retention.EveryBatchKeepsReferences` | services/api/alembic/versions/20260720_0003_operations.py:149-154 | the RESTRICT foreign key holds after every batch of any run of batches, such as those `PruneHistory` returns |
| `Retention.WholeHistory` | services/api/src/nebula_api/retention.py:157-164 | the batches of the passes over records and operations make up one run of batches from the tables before to the tables after |
| `Retention.FewerReferences` | services/api/src/nebula_api/retention.py:118-155 | records that survive a locked or refused pass only keep more operations alive |
| `Retention.SetDeleteTwice` | services/api/src/nebula_api/retention.py:94-172 | a second run with the same cutoffs finds nothing to do |
| `Erasure.Database.EraseAccount` | services/api/src/nebula_api/account_erasure.py:22-94 | the deletes and updates in their order succeed exactly when no other user's activation hangs off a request with the address, every other delete being allowed when it comes; they do to every row what `AccountErased` says, and otherwise change nothing |
| `Erasure.ForeignActivationBlocks` | services/api/alembic/versions/20260720_0001_protocol-neutral.py:479-484 | tables that meet every constraint in which an account cannot be erased |
| `Erasure.EraseDevices` | services/api/src/nebula_api/account_erasure.py:42-53 | every device of the account, and no other, is revoked, keeps an earlier time of revocation and forgets what it was; its live credentials go to revoking, no others change |
| `Erasure.RowByRow` | services/api/src/nebula_api/account_erasure.py:41-94 | every row of every table, by its columns: which are deleted, what becomes of the account's user row, devices and credentials, and that all others are as they were |
| `Erasure.RequestsAllow` | services/api/alembic/versions/20260720_0001_protocol-neutral.py:550-555 | at the moment requests are deleted, only another user's activation can stand in the way |
| `Erasure.ForeignKeysKept` | services/api/alembic/versions/20260720_0004_auth_security.py:36-45 | every foreign key holds afterwards, that of a token on its successor in the same session included |
| `Erasure.ChecksKept` | services/api/alembic/versions/20260720_0001_protocol-neutral.py:57-64 | the user and device CHECK constraints hold afterwards |
| `Erasure.EmailsStayUnique` | services/api/src/nebula_api/account_erasure.py:87-94 | a fresh placeholder address keeps addresses unique |
| `Erasure.NothingNamesThem` | services/api/src/nebula_api/account_erasure.py:55-94 | no session, token, activation, reset, request, request event, permission, assignment or delivery of the account remains, and no row carries its address |
| `Erasure.OthersUntouched` | services/api/src/nebula_api/account_erasure.py:42-94 | everything of any other account that does not share the address is exactly as it was |
| `Usage.UsageLedger.Record` | services/api/src/nebula_api/usage/service.py:157-174 | every sample is applied in turn, and the number that moved a total is returned |
| `Usage.UsageLedger.Apply` | services/api/src/nebula_api/usage/service.py:176-226 | one sample changes its own row as `Applied` says, and reports whether a total moved |
| `Usage.UsageLedger.ForgetReadings` | services/api/src/nebula_api/usage/service.py:228-263 | the readings of the named rows, and no others, are forgotten unless newer, and their number is returned |
| `Usage.MoveCountIs` | services/api/src/nebula_api/usage/service.py:157-174 | the number returned is that of the samples which, each in its turn, added to a total |
| `Usage.ForgetCountIs` | services/api/src/nebula_api/usage/service.py:228-263 | the number returned is that of the places naming a row with no newer reading |
| `Usage.SourcesCount` | services/api/src/nebula_api/usage/service.py:3-12 | over any run a source has served what was served, and its counter shows what was since its last restart |
| `Usage.ForgettingIsReadingZero` | services/api/src/nebula_api/usage/service.py:228-263 | forgetting a reading is recording that the counter stands at zero |
| `Usage.NeverOvercounts` | services/api/src/nebula_api/usage/service.py:359-378 | in every run of traffic, restarts, readings and late or repeated records, readings of which no differing one was overtaken never count a byte twice |
| `Usage.ExactWhenBracketed` | services/api/src/nebula_api/usage/service.py:1-30 | with every restart between recorded readings, totals and bytes not yet read make up exactly what was served |
| `Usage.NeverTwiceIff` | services/api/src/nebula_api/usage/service.py:359-378 | before any restart, no order of recording the readings, and one more after them, counts a byte twice exactly when no differing reading was overtaken |
| `Usage.OvertakenCountsTwice` | services/api/src/nebula_api/usage/service.py:371-378 | any overtaken pair, recorded the other way round, overcounts at the next reading |
| `Usage.FourForTwo` | services/api/src/nebula_api/usage/service.py:371-378 | a run in which two bytes are counted as four |
| `Usage.CredentialsIndependent` | services/api/src/nebula_api/usage/service.py:157-174 | a poll moves each credential by its own readings alone |
| `AuditChain.ChainLines` | services/api/src/nebula_api/audit/chain.py:61-70 | the generator yields the chained lines and the closing line |
| `AuditChain.Verify` | services/api/src/nebula_api/audit/chain.py:73-101 | the loop with its early exits computes `Verified`, each fault where it is met |
| `AuditChain.ExportVerifies` | services/api/src/nebula_api/audit/chain.py:73-101 | every export verifies, blank lines or not, with its own count, head and hashes |
| `AuditChain.VerifiedIsExport` | services/api/src/nebula_api/audit/chain.py:73-101 | only exports verify |
| `AuditChain.DigestDetermines` | services/api/src/nebula_api/audit/chain.py:57-58 | equal digests of equally many events mean equal events, or the two chains have different texts of the same hash at some event |
| `AuditChain.ClosingSealsEverything` | services/api/src/nebula_api/audit/chain.py:1-9 | a file that verifies with an export's count and head is the export of those events, whatever was changed, removed, reordered or inserted, or its events collide with them at some event |
| `AuditChain.LaterExportExtends` | services/api/src/nebula_api/audit/chain.py:104-112 | every export extends every earlier export of the same log |
| `AuditChain.ExtensionHoldsTheOlder` | services/api/src/nebula_api/audit/chain.py:104-112 | an accepted extension holds every older event unchanged and in place, or the two collide at some event |
| `Alerts.Supervisor.ShouldSend` | services/vpn-agent/src/nebula_agent/healthcheck.py:271-294 | decides and updates the state file as `Sends` and `NextFile` say |
| `Alerts.CutReads` | services/vpn-agent/src/nebula_agent/healthcheck.py:297-317 | a write cut short at any character reads back as what is left of the fingerprint, and as the time if anything is |
| `Alerts.FingerprintIff` | services/vpn-agent/src/nebula_agent/healthcheck.py:285-287 | one-line subjects have the same fingerprint exactly when they are the same problems in any order, but for one empty subject against none |
| `Alerts.LineBreakConfuses` | services/vpn-agent/src/nebula_agent/healthcheck.py:285 | a subject with a line break can look like two |
| `Alerts.ReadsBackIff` | services/vpn-agent/src/nebula_agent/healthcheck.py:297-317 | the state file gives back time and fingerprint, line breaks included, exactly when there is no carriage return in it |
| `Alerts.UniversalLineEnd` | services/vpn-agent/src/nebula_agent/healthcheck.py:297-317 | reading turns a carriage return, alone or before a line break, into one line break, and nothing else |
| `Alerts.RefinesReference` | services/vpn-agent/src/nebula_agent/healthcheck.py:271-317 | over every run of checks, deciding from the file is deciding from the sets of problems themselves |
| `Alerts.SilentIff` | services/vpn-agent/src/nebula_agent/healthcheck.py:271-294 | over every run without cut writes, a check is silent exactly when its problems are those of the last send written down, if it can be read, and there are none or that send is less than a day old |
| `Alerts.RefusedWriteHidesRecovery` | services/vpn-agent/src/nebula_agent/healthcheck.py:310-317 | a problem mailed and not written down: the recovery is never mailed |
| `Alerts.SilenceIsBacked` | services/vpn-agent/src/nebula_agent/healthcheck.py:271-294 | a silent run with problems follows a decision to mail the same problems less than a day before |
| `Alerts.ChangeIsSent` | services/vpn-agent/src/nebula_agent/healthcheck.py:285-290 | every change of problems is mailed, recovery included, and staying healthy is not |
| `Alerts.RepeatsAreADayApart` | services/vpn-agent/src/nebula_agent/healthcheck.py:291-294 | two mails in a row about the same problems are at least a day apart |
| `Alerts.CutSilencesIff` | services/vpn-agent/src/nebula_agent/healthcheck.py:310-317 | after a write cut short a check is silent for a day, problems or recovery, exactly when its fingerprint is what was left of the last one |
| `Alerts.CutHidesRecovery` | services/vpn-agent/src/nebula_agent/healthcheck.py:310-317 | two checks in which a write cut to nothing hides the recovery |
| `Alerts.CutCanSilence` | services/vpn-agent/src/nebula_agent/healthcheck.py:310-317 | two checks in which that happens |
| `Alerts.LawfulClockExists` | services/vpn-agent/src/nebula_agent/healthcheck.py:303-313 | a time format with the laws the state file relies on exists |
| `Routes.ConfiguredRoutes` | services/api/src/nebula_api/api_routes.py:47-52 | the loop gives each wanted entry where it first occurs |
| `Routes.CleanIs` | services/api/src/nebula_api/api_routes.py:49 | an entry is blanks, the route, slashes and blanks; the route begins with no blank and ends with no slash |
| `Routes.FirstsIff` | services/api/src/nebula_api/api_routes.py:47-52 | a route is listed exactly when it is https and some entry cleans to it, and none is listed twice |
| `Routes.FirstsInOrder` | services/api/src/nebula_api/api_routes.py:47-52 | routes are listed in the order they are first named |
| `Routes.AccountGetsIff` | services/api/src/nebula_api/api_routes.py:66-74 | sorting and slicing give an account exactly the routes with fewer than the share ranked below them, and those it asked through |
| `Routes.AskedThroughStays` | services/api/src/nebula_api/api_routes.py:73 | the route a request came in on is always in the answer |
| `Routes.AnswerSize` | services/api/src/nebula_api/api_routes.py:72-74 | the answer has at least the share, and at most the share and the routes asked through |
| `Routes.ShareSize` | services/api/src/nebula_api/api_routes.py:72 | exactly the share of routes is ranked low enough |
| `Routes.FilterInOrder` | services/api/src/nebula_api/api_routes.py:74 | the answer keeps the order of the list |
| `Routes.AnswerInOrder` | services/api/src/nebula_api/api_routes.py:66-74 | the same of the whole answer |
| `Routes.WholeList` | services/api/src/nebula_api/api_routes.py:66-67 | a share of none, or of as many as there are, is the list as it is |
| `Routes.OrderDoesNotMatter` | services/api/src/nebula_api/api_routes.py:66-74 | who gets what does not depend on the order of the list |
| `Routes.AddingRoute` | services/api/src/nebula_api/api_routes.py:72 | a new route brings no other into a share, and puts out at most one, by coming in itself |
| `Routes.AddingToTheList` | services/api/src/nebula_api/api_routes.py:66-74 | the same of the whole answer, host and all |
| `Expiry.ExtendBy` | apps/admin/components/expiry-control.tsx:17-35 | the mutations of `Date` in their order give the same day of the target month, or its last day, counted from the expiry if it is still to come and from now otherwise; a positive extension is after both |
| `Expiry.MonthLengths` | apps/admin/components/expiry-control.tsx:28-32 | the last day of each of the twelve months |
| `Expiry.CalendarAgrees` | apps/admin/components/expiry-control.tsx:28-32 | the months' lengths add up to the day numbers of ECMA-262 between any two years |
| `Expiry.AdvancesExactly` | apps/admin/components/expiry-control.tsx:26-33 | year × 12 + month advances by exactly the months asked for, and the day is clamped |
| `Expiry.StrictlyLater` | apps/admin/components/expiry-control.tsx:17-35 | a positive extension is strictly later than its base |
| `Expiry.MonotoneInDays` | apps/admin/components/expiry-control.tsx:26-33 | a base on a later day never gives an earlier day |
| `Expiry.MonotoneIff` | apps/admin/components/expiry-control.tsx:26-33 | a later base gives a moment no earlier exactly unless both are clamped to one day and the later is earlier in its day |
| `Expiry.LaterBaseEarlierExpiry` | apps/admin/components/expiry-control.tsx:26-33 | noon on 30 January against the start of 31 January, in every year |
| `Expiry.TwiceIsNotLater` | apps/admin/components/expiry-control.tsx:26-33 | extending by m then n is never later than by m + n, and equal exactly when the month between cuts no day the last keeps |
| `Expiry.TwiceIsOnceForShortDays` | apps/admin/components/expiry-control.tsx:26-33 | equal when the day is at most 28 |
| `Expiry.TwiceCanBeEarlier` | apps/admin/components/expiry-control.tsx:26-33 | 31 January, by two single months and by two at once |
| `Admins.InvitedStaysUnique` | services/api/src/nebula_api/admin_management.py:97-141 | an invitation keeps addresses and usernames unique |
| `Admins.InviteRefusedIff` | services/api/src/nebula_api/admin_management.py:97-141 | an invitation is refused exactly when it would leave two accounts with one address or username |
| `Admins.Service.ChangeRole` | services/api/src/nebula_api/admin_management.py:143-162 | only another, existing admin changes, to the role asked for, and loses earlier sessions exactly when the role differs |
| `Admins.Service.SetDisabled` | services/api/src/nebula_api/admin_management.py:164-185 | the same for the state, with its timestamp |
| `Admins.ActionTakesEffect` | services/api/src/nebula_api/admin_management.py:97-231 | what an owner asks for comes about: the invited is there, the role or state is the one asked for, sessions are ended |
| `Admins.SignedIn` | services/api/src/nebula_api/auth/admin_service.py:497-522 | a sign-in of an active admin is accepted and listed |
| `Admins.SessionEnds` | services/api/src/nebula_api/admin_management.py:197-214 | a session that is ended is accepted no more, and every other is as it was |
| `Admins.PasswordChanged` | services/api/src/nebula_api/auth/admin_service.py:683-743 | after a change of password the replacement is accepted, the session used and the admin's earlier ones are not, and nobody else's changes |
| `Admins.StaysAccepted` | services/api/src/nebula_api/auth/admin_service.py:497-522 | an accepted session stays accepted through every step but its own end, a change of its admin's password, or another owner's action that ends it |
| `Admins.ActionEnds` | services/api/src/nebula_api/admin_management.py:143-231 | a change of role or state, or ending all sessions, leaves no session created before it valid |
| `Admins.RunSound` | services/api/src/nebula_api/admin_management.py:143-246 | every run of requests keeps an active owner, the pairing of disabled and its timestamp, unique names, and no mark in the future |
| `Admins.OwnerStays` | services/api/src/nebula_api/admin_management.py:362-364 | no request leaves the service without an active owner |
| `Admins.NeverLiveAgain` | services/api/src/nebula_api/admin_management.py:187-195 | after a change of role or state, or ending sessions, no session created before it is accepted or listed again, whatever follows |
| `Admins.EndedForGood` | services/api/src/nebula_api/auth/admin_service.py:497-522 | what is no longer accepted stays so through any run |
| `PeerKeys.KeyKept` | services/api/alembic/versions/20260903_0009_wireguard_public_key_live.py:49-61 | every key that had a peer still has one |
| `PeerKeys.LiveKept` | services/api/alembic/versions/20260903_0009_wireguard_public_key_live.py:51-52 | no live peer is removed or changed |
| `PeerKeys.UniqueIff` | services/api/alembic/versions/20260903_0009_wireguard_public_key_live.py:49-63 | keys are unique afterwards exactly when no key without a live peer has two newest peers of one age |
| `PeerKeys.TwinsStay` | services/api/alembic/versions/20260903_0009_wireguard_public_key_live.py:49-63 | two revoked peers of one key and one creation time both survive |
| `PeerKeys.ExactlyOne` | services/api/alembic/versions/20260903_0009_wireguard_public_key_live.py:49-63 | with distinct creation times exactly one peer is left for each key |
| `PeerKeys.UpAndDown` | services/api/alembic/versions/20260903_0009_wireguard_public_key_live.py:32-63 | up and down again with no peer in between deletes nothing |
| `PeerKeys.Schema.Upgrade` | services/api/alembic/versions/20260903_0009_wireguard_public_key_live.py:32-40 | always possible, and touches no row |
| `PeerKeys.Schema.Downgrade` | services/api/alembic/versions/20260903_0009_wireguard_public_key_live.py:43-63 | succeeds exactly under that condition, and otherwise changes nothing |
| `BodyLimit.DeclaredBodyIsTooLarge` | services/api/src/nebula_api/request_limits.py:50-58 | the first Content-Length header, in any case, decides, and one that is no number declares nothing |
| `BodyLimit.TotalIsBody` | services/api/src/nebula_api/request_limits.py:30-41 | what is counted against the limit is the length of the body put together |
| `BodyLimit.ReadBody` | services/api/src/nebula_api/request_limits.py:30-41 | refuses at the first message over the limit, else buffers up to the end of the body, never more than the limit |
| `BodyLimit.Handle` | services/api/src/nebula_api/request_limits.py:22-48 | refused exactly when the declared length or what had to be read is over the limit, and what the application is given is the original stream |
| `BodyLimit.Replay.Receive` | services/api/src/nebula_api/request_limits.py:43-46 | returns the next original message, buffered or not |
| `BodyLimit.ReceiveInOrder` | services/api/src/nebula_api/request_limits.py:43-48 | the k-th receive returns the k-th original message, for any number of calls |
| `SetCookie.ParseSetCookie` | apps/admin/lib/api/set-cookie.ts:20-76 | the loop and switch compute `Parsed` |
| `SetCookie.RoundTrip` | apps/admin/lib/api/set-cookie.ts:20-76 | any printed cookie with any attributes, in any order, spelling and number, is read back as what they mean |
| `SetCookie.ReadBack` | apps/admin/lib/api/set-cookie.ts:34-74 | each field of what is read back is what the last attribute spelled path, max-age, expires or samesite, in any case, that is understood says, or whether one spelled secure or httponly is there; the value loses quotes around it |
| `SetCookie.SameSiteIff` | apps/admin/lib/api/set-cookie.ts:62-71 | which spellings, in any case, are understood as which policy |
| `Text.LowerAt` | apps/admin/lib/api/set-cookie.ts:36 | lowering turns each capital letter of ASCII into its small one and keeps everything else |
| `SetCookie.ValueBackIff` | apps/admin/lib/api/set-cookie.ts:78-82 | the value comes back exactly when it does not stand in quotes |
| `SetCookie.OrderAcrossKeys` | apps/admin/lib/api/set-cookie.ts:34-74 | reordering attributes of different keys changes nothing |
| `SetCookie.MeaningIs` | apps/admin/lib/api/set-cookie.ts:34-74 | each field is what the last attribute of its own key that is understood says, and no other attribute bears on it |
| `SetCookie.UnknownIsIgnored` | apps/admin/lib/api/set-cookie.ts:38-73 | any attribute that is not known, anywhere, changes nothing |
| `SetCookie.DomainIsIgnored` | apps/admin/lib/api/set-cookie.ts:13-19 | a header with a Domain, in any case and place, is read as the header without it |

## Left out

- Cryptography, TLS, certificate building, password hashing: a generated certificate is taken to match its key, and hashes are parameters.
- HTTP routing, SQL text, Redis, subprocesses, mail delivery and the user interface: input and output.
- Provisioning, reconciliation, quota enforcement, refresh-token rotation and the collectors: not part of this model.
- Key material, rotation and the relay are state machines over values, not mutable objects: steps interleave, so no single object's method is the unit.
- Two rotations at once, and owner requests whose authorisation and change interleave: each rotation, and each request, is taken to be the only one of its kind at work.
- Relay: back-pressure and the timing of socket errors are events that may come at any time; bytes are not lost inside a socket that has not broken.
- Retention: a refused pass is given by the batch at which it is refused; why the database refuses is not modelled.
- Usage.NeverOvercounts: with restarts, that no differing reading is overtaken is shown to be enough, and not shown to be needed.
- Usage: keeping counters across a configuration change is taken as the bracketing that `ExactWhenBracketed` requires; the calls that arrange it are not modelled.
- AuditChain: JSON is read before it gets here; a line is an event with two fields, a closing line, blank, or junk.
- Alerts: a decision to send is what is modelled; whether the mail then arrives is not.
- Routes: ranks are assumed distinct, as digests are; the host of a route is a parameter.
- Expiry: time zones, daylight saving and the text of the `datetime-local` value are not modelled.
- Admins: step-up checks, CSRF tokens and session lifetimes are not modelled beyond a session being ended at any time.
- SetCookie: lower case is that of ASCII letters, which decides the same keys and values.
- BodyLimit: the stream is everything the client will ever send; waiting for more is an outcome.
