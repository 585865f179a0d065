# A verified model of LetDX

LetDX is a ledger: a C server, LetDB, that keeps accounts in memory and every change in a write-ahead log, and a Go
driver, LetDD, that talks to it over a line protocol. This project models the two programs and their wire in Dafny and
proves what they are for: that acknowledged changes survive crashes, that the log always folds to the accounts in memory,
that the two independently written codecs undo each other, and what the sequence numbers guarantee when many drivers,
retries, cancellations and restarts interleave.

`dafny verify dfyconfig.toml` checks everything.

## How it is laid out

Code that changes things step by step is a class whose methods carry the source's own branches and loops, proved against
a function on values; the laws are lemmas about those functions and about runs built from them.

| part | files |
|---|---|
| accounts, guard, records and their effect | `Ledger.dfy` (values), `Accounts.dfy` (growable list, state, guard) |
| record layout, checksum, file image | `Layout.dfy`, `Crc32cSpec.dfy`, `Crc32c.dfy`, `Damage.dfy`, `Log.dfy` |
| log file and write-ahead log | `Wal.dfy` |
| request handling and start-up | `Protocol.dfy`, `Server.dfy`, `Engine.dfy`, `Errors.dfy` |
| runs with crashes | `Recovery.dfy` (steps and invariant), `Durability.dfy`, `LiveLedger.dfy`, `Conversations.dfy` |
| what requests are answered, and what a driver reads | `Answers.dfy`, `EndToEnd.dfy` |
| laws of every log, and accounts as functions of it | `LedgerLaws.dfy`, `History.dfy` |
| requests on the wire | `Numbers.dfy`, `Uint128.dfy`, `Requests.dfy`, `Decoder.dfy`, `Grammar.dfy` |
| responses on the wire | `Encoder.dfy`, `Responses.dfy` |
| a connection, and both ends together | `Connection.dfy`, `Framing.dfy`, `Session.dfy`, `Wire.dfy` |
| the driver's client and retries | `Supervisor.dfy`, `Driver.dfy` |
| many drivers and one server | `Nonces.dfy`, `NonceLaws.dfy` |

## What the model assumes

- The host is little-endian. `u128` fields are naturals below 2^128 and unsigned arithmetic on them wraps.
- A file is at most 2^63 - 1 bytes long, the largest offset the system can express. That alone bounds accounts and
  records far below 2^64, so no bound on either is assumed.
- `time()` is an arbitrary input each time it is read, and may fail.
- A write takes any prefix of what it is given; a read of a file returns fewer bytes than asked only at the end of the file.
- A loss of power keeps everything that the current and the last synced contents agree on. Behind that it leaves the one or
  the other up to some record, and then any bytes at all that do not pass for a record: too few, or with a checksum that
  does not fit. Killing the process loses nothing that was written.
- Growing the account list succeeds or fails as an input says, in live requests and in replay alike.
- A connection does not outlive the server process, and connections are accepted in the order they were made.

## What was found

- A record that a restart brought back can still disappear. Replay does not sync, so a record that was written but not
  synced when the process died is in memory and visible to clients after the restart, and gone after a later loss of
  power (`Durability.RecoveredRecordCanVanish`). While idle a loss of power is harmless exactly when no process has died
  between write and sync since the last sync or loss of power (`Durability.PowerLossIsHarmlessIffSettled`). No
  acknowledged record is affected.
- The guard never looks at the recipient's balance, so an account that was created solvent and never allowed debt can end
  up owing more than it owns: three requests do it (`LedgerLaws.ReceivingCanBankrupt`, `LiveLedger.BankruptIsReached`).
  What such an account owes is always exact and never wraps; what it owns wraps with its income
  (`LedgerLaws.ExactAccount`). A guarded transfer keeps a solvent recipient solvent exactly when the recipient's debits
  plus the amount stay below 2^128 or wrap to no less than its credits (`LedgerLaws.TransferKeepsSolvent`), and an account
  is solvent all along exactly when it was created so and that held of every transfer it received
  (`LedgerLaws.AlwaysSolventIff`).
- The response encoder checks its capacity for integers only. It writes past a short buffer exactly when the first byte
  that does not fit is a literal one (`Encoder.ContainedIsExact`); three bytes of room are such a buffer for the shortest
  response (`Encoder.ShortBufferIsOverrun`). 73 bytes are always enough and the server uses 128.
- A call whose context is done when its reply arrives keeps the connection without counting the accepted request. The
  driver is then exactly one behind, and every logged request on that connection is refused until it reconnects
  (`NonceLaws.StaleCounterExists`, `NonceLaws.StaleIsRefused`).
- `uint128.Parse` accepts negative numbers of any size: `-1` becomes 2^65 - 1 (`Uint128.MinusOneIsAccepted`). What minus n
  becomes is the two's complement of n over 128 bits exactly when n, divided by 2^64 and rounded up, is a multiple of
  2^63 (`Uint128.NegativeIsComplement`). It is n itself, the sign silently lost, exactly when the low word of n is zero
  and n fits 128 bits (`Uint128.NegativeLosesSign`).
- Delays stop growing once the doubled delay no longer fits 64 bits. With a positive minimum below 2^62 and a larger
  maximum no delay shrinks exactly as long as all of them fit, and the first one that does not is the minimum again
  (`Supervisor.NeverShrinksIffFits`, `Supervisor.OverflowFallsBack`). A minimum of zero, or one no smaller than the
  maximum, gives constant delays; from 2^62 on delays may fail to fit without shrinking
  (`Supervisor.ConstantDelays`, `Supervisor.LargeMinimum`). For any limits at all, negative ones too, the exact condition
  is `Supervisor.NeverShrinksIsExact`.
- `docs/LETDB.md` says that replay may cut the log at the last valid entry and continue from there. The code stops reading
  at the cut, which is what the model does.

## Model

| member | source | states |
|---|---|---|
| Errors.Code | LetDB/src/error.c:47-57 | codes of errors lie strictly between 1000 and 7000, so the 16-bit product and sum never wrap |
| Errors.CodeIsInjective | LetDB/src/error.c:47-57 | two errors with the same code are the same error |
| Errors.CodesCount | LetDB/src/error.c:47-57 | every code: the module in thousands and the place of the error in its enumeration |
| Errors.ActionsSorted | LetDB/src/error.c:63-280 | exactly which errors end the process, which ones end the connection, and that all others are answered |
| Ledger.TimelessGuard | LetDB/src/guard.c:26-96 | the guard's verdict does not depend on the one field taken from the wall clock |
| Ledger.TimelessApply | LetDB/src/state.c:41-63 | up to that field, the effect of an operation does not depend on when it is applied, live or replayed |
| Ledger.AdmittedIsReplayable | LetDB/src/guard.c:40-81 | a log in which every record was allowed where it stands names only accounts that exist at that point |
| Ledger.FoldNext | LetDB/src/storage/wal.c:176-224 | the next record of a replayable log is in bounds and moves the fold on by exactly its effect |
| Ledger.CapacityGrows | LetDB/src/account.c:50-68 | the array that holds a given number of accounts doubles exactly when it is full, so whether an add needs memory is a function of the count, live and replayed |
| Ledger.FullAtDoublings | LetDB/src/account.c:52-68 | the array is full at 1024 accounts and its doublings, and nowhere else |
| Ledger.GuardIsExact | LetDB/src/guard.c:26-84 | in raw fields, exactly which transfers the guard lets through |
| Ledger.GuardObjects | LetDB/src/guard.c:26-84 | the error of every refused transfer: the first objection in the source's order, each with its exact condition |
| Ledger.OthersAreUnguarded | LetDB/src/guard.c:86-96 | adding is never refused, an update exactly when its account is not there |
| Accounts.AccountList.Add | LetDB/src/account.c:50-72 | appends, growing the array when it is full; the id is the old length; refuses without change |
| Accounts.AccountList.Get | LetDB/src/account.c:74-83 | the account, or not found exactly when the id is out of range |
| Accounts.AccountList.Update | LetDB/src/account.c:85-90 | replaces one account in place, with no check of its own |
| Accounts.State.AddAccount | LetDB/src/state.c:26-39 | the list grows by the account |
| Accounts.State.MakeTransfer | LetDB/src/state.c:41-63 | in-place updates equal the transfer on values, or the clock failed and nothing changed |
| Accounts.State.UpdateAccount | LetDB/src/state.c:65-69 | only the flags of one account change |
| Accounts.GuardKeeper.MakeTransfer | LetDB/src/guard.c:26-84 | the nested checks compute the guard on values, which `Ledger.GuardIsExact` and `Ledger.GuardObjects` pin down, and change nothing |
| Accounts.GuardKeeper.UpdateAccount | LetDB/src/guard.c:86-96 | refuses exactly the ids that are not there |
| Layout.EntryRoundTrip | LetDB/include/let/storage/wal.h:56-105 | every record is read back from its packed bytes |
| Layout.LittleEndian | LetDB/include/let/storage/wal.h:56-105 | byte i of a stored integer is byte i of the number |
| Layout.FieldsAt | LetDB/include/let/storage/wal.h:45-96 | where each field of each entry type is in the packed structure, type codes and padding included |
| Layout.SignedIsComplement | LetDB/include/let/storage/wal.h:56-60 | a time is stored as its 64-bit two's complement and read back |
| Layout.RecordRoundTrip | LetDB/src/storage/wal.c:263-266 | a stored record passes its checksum and decodes to itself |
| Crc32cSpec.StepIsLinear | LetDB/src/storage/crc.c:27-35 | the one-bit register step distributes over exclusive or |
| Crc32cSpec.StepIsInjective | LetDB/src/storage/crc.c:27-35 | the one-bit register step loses nothing, because the top bit of the polynomial is set |
| Crc32cSpec.BurstChangesRegister | LetDB/src/storage/crc.c:21-38 | equally long bit strings that differ only inside a window of 32 bits leave different registers |
| Crc32c.TableIsRight | LetDB/include/let/storage/crc.h:19-84 | each of the 256 entries is eight bit steps of its index |
| Crc32c.UpdateFeedsByte | LetDB/src/storage/crc.c:27-35 | one table lookup is the same as feeding the eight bits of the byte |
| Crc32c.Compute | LetDB/src/storage/crc.c:12-39 | the loop over four-byte chunks and the trailing loop compute the bit-by-bit reflected CRC32C of section 12.1 of RFC 3720, for every byte string |
| Crc32c.CheckValue | LetDB/src/storage/crc.c:12-39 | the checksum of the nine ASCII digits is the published 0xE3069283 |
| Damage.ResidueCheck | LetDB/src/storage/wal.c:153-154 | a record passes its checksum if and only if the register over all its bytes is the residue |
| Damage.BurstIsDetected | LetDB/src/storage/wal.c:153-154 | a stored record with a burst of at most 32 bits changed, checksum included, fails its check |
| Damage.ByteBurstChangesCrc | LetDB/src/storage/crc.c:21-38 | messages that differ only inside four consecutive bytes have different checksums |
| Log.ImageAppend | LetDB/src/storage/wal.c:269-272 | the image of a log and one more record is the image followed by the encoded record |
| Log.ImagePrefix | LetDB/src/storage/wal.c:139-151 | the image of a prefix of the log is the matching prefix of the image |
| Log.ScanImage | LetDB/src/storage/wal.c:149-225 | scanning an image and a tail reads the log back and goes on with the tail |
| Log.ScanFrom | LetDB/src/storage/wal.c:149-174 | scanning from the k-th record gives the rest of the scan and stops for the same reason |
| Wal.LogFile.Read | LetDB/src/storage/wal.c:150-150 | the bytes at the cursor, fewer only at the end, and the cursor moves past them |
| Wal.LogFile.Write | LetDB/src/storage/wal.c:269-272 | overwrites or extends at the cursor with the part that was taken |
| Wal.LogFile.Truncate | LetDB/src/storage/wal.c:320-328 | cuts the file and leaves the cursor |
| Wal.HeaderIsExact | LetDB/src/storage/wal.c:93-118 | opening accepts exactly the files that begin with the header, and each of its three errors has its exact condition |
| Wal.HeaderBytes | LetDB/include/let/storage/wal.h:20-25 | the header byte by byte |
| Wal.WriteAheadLog.Init | LetDB/src/storage/wal.c:48-133 | a new file gets as much of the header as it takes, with a write error unless that is all; an old one is judged as `Wal.HeaderIsExact` says, and not changed |
| Wal.WriteAheadLog.Replay | LetDB/src/storage/wal.c:135-253 | the error, the count, the accounts up to the wall clock and the file are those of the scan of the old file, which `Durability.ReplayOutcome` spells out with truncation on and off |
| Wal.WriteAheadLog.Finish | LetDB/src/storage/wal.c:227-252 | what stopped the loop is an error, or is cut off, and the cursor goes to the end |
| Wal.WriteAheadLog.ReplayNext | LetDB/src/storage/wal.c:149-225 | one turn of the loop agrees with the scan: a record applied, or the scan's own reason to stop |
| Wal.WriteAheadLog.ApplyEntry | LetDB/src/storage/wal.c:176-224 | replays one record by its type, unguarded, with exactly its effect, or fails for want of memory or time exactly when it must |
| Wal.FailureIsFirst | LetDB/src/storage/wal.c:176-224 | replay fails exactly when some record finds no memory for a larger array or no time, and then as the first such record does |
| Wal.WriteAheadLog.Write | LetDB/src/storage/wal.c:255-282 | sequence check, append, sync, count, in that order, each failure with the state it leaves |
| Wal.ScanNext | LetDB/src/storage/wal.c:150-174 | what the next read of replay finds, in terms of the scan of the whole file, in all five cases |
| Wal.ProgressMoves | LetDB/src/storage/wal.c:176-224 | applying the next record keeps memory equal to the fold of what was read, or its failure is the failure of the whole replay |
| Server.GuardMeansInBounds | LetDB/src/guard.c:40-63 | an operation the guard lets through indexes the list in bounds |
| Engine.Engine.Start | LetDB/src/let.c:22-73 | on a file created or found: requests are accepted only after header, replay and listening all succeed, in that order; the accounts are the recovered ones, and none on a new file |
| Engine.Engine.Request | LetDB/src/let.c:178-324 | the dispatch over the mutable parts equals the request on values, in every branch and for every answer of the system; `Answers` says what that is in terms of the log |
| Recovery.AppendToImage | LetDB/src/storage/wal.c:269-272 | a write at the end leaves the image of the longer log, or the old log with a torn piece behind it |
| Recovery.ScanHolds | LetDB/src/storage/wal.c:149-174 | a log with anything behind it that is no record is read back exactly, and reading stops there for the right reason |
| Recovery.SurvivorHolds | LetDB/src/storage/wal.c:274-278 | whatever a loss of power leaves, garbage included, holds a prefix of the log no shorter than the synced part |
| Recovery.AcceptedIsAdmitted | LetDB/src/let.c:228-254 | a request that passes guard and sequence check extends the log by a record the guard allows there |
| Recovery.WriteKeeps | LetDB/src/let.c:210-254 | appending keeps the invariant, whole or torn |
| Recovery.SyncKeeps | LetDB/src/storage/wal.c:274-281 | syncing and counting keep the invariant, or the process ends |
| Recovery.ApplyKeeps | LetDB/src/let.c:215-257 | applying the synced record keeps the invariant, or the process ends |
| Recovery.AnswerKeeps | LetDB/src/let.c:136-147 | an answer is given only for a durable record, at its own number |
| Recovery.PowerLossKeeps | LetDB/src/storage/wal.c:227-243 | a loss of power at any point keeps the invariant |
| Recovery.BootKeeps | LetDB/src/let.c:44-55 | a restart keeps the invariant |
| Recovery.RunKeeps | LetDB/src/let.c:22-161 | in every state of every run with crashes the log is one the guard admits, the file holds it, the synced part holds its durable part, memory is its fold, and no answer is lost |
| Durability.RestartReads | LetDB/src/storage/wal.c:135-253 | whatever a restart finds is an admitted log that extends the synced part and is at most the log with the record in flight |
| Durability.Durable | LetDB/src/storage/wal.c:135-282 | stop any run anywhere, lose power with any garbage left behind, and restart with truncation: replay fails only as clock or memory fail it, and otherwise accounts and counter are those of a log with every answered record at its number and at most one more per crash |
| Durability.IdleAgrees | LetDB/src/storage/wal.c:255-282 | between requests the file is exactly the image of the log, the cursor is at its end, the counter is its length, record i has id i, and its fold is the accounts |
| Durability.IdsAreUnique | LetDB/src/storage/wal.c:257-260 | however often and in whatever order requests arrive, no reachable log holds two records with one id |
| Durability.UnguardedReplayIsSafe | LetDB/src/storage/wal.c:177-221 | for every admitted log and every prefix, replay indexes in bounds and no per-account counter is at its maximum |
| Durability.TruncatingReplay | LetDB/src/storage/wal.c:148-252 | a good log followed by anything that is not a good record is cut to exactly the log, and a later replay finds nothing to cut |
| Durability.ReplayOutcome | LetDB/src/storage/wal.c:148-252 | every outcome: the tail is cut exactly when truncation is on and it is short or fails its checksum; otherwise short, damaged and unknown tails are three different errors and the file is left alone |
| Durability.DamagedRecordIsCut | LetDB/src/storage/wal.c:152-171 | with one record damaged by a burst of at most 32 bits, replay keeps exactly the records before it |
| Durability.PowerLossKeepsLogIffSynced | LetDB/src/storage/wal.c:250-252 | while idle, no loss of power takes a record away if and only if the whole log was synced |
| Durability.SyncedIffSettled | LetDB/src/storage/wal.c:269-281 | in every state of every run the whole log is synced if and only if no process has died between write and sync since the last sync or loss of power |
| Durability.PowerLossIsHarmlessIffSettled | LetDB/src/storage/wal.c:250-252 | so by events alone: while idle no loss of power takes a record away if and only if that has not happened |
| Durability.RecoveredRecordCanVanish | LetDB/src/storage/wal.c:250-252 | a run in which a record that a restart brought back is gone after a loss of power |
| Durability.RequestIsRun | LetDB/src/let.c:98-157 | a whole request is a path of the run model: accepted, it adds exactly its record; rejected, it changes nothing; otherwise the process ends |
| Durability.RefusalIsReject | LetDB/src/error.c:97-130 | everything the guard can object to is answered with an error and ends nothing |
| Durability.NonceIsChecked | LetDB/src/storage/wal.c:257-260 | a wrong sequence number touches neither file nor counter |
| LedgerLaws.AccountsAreAdds | LetDB/src/account.c:50-72 | there are as many accounts as add records |
| LedgerLaws.CounterCountsTransfers | LetDB/src/state.c:53-57 | an account's counter is the number of transfer records that name it, and so never wraps |
| LedgerLaws.CountersSumToTwiceTransfers | LetDB/src/state.c:41-63 | all counters sum to twice the number of transfer records |
| LedgerLaws.TransferBalance | LetDB/src/state.c:53-54 | a transfer between two accounts changes what they own together only by wrapping, by 2^128 each time |
| LedgerLaws.Conservation | LetDB/src/state.c:26-70 | what the accounts own is what the add records brought in plus 2^128 times the net wraps; exact if and only if as many credits as debits wrapped |
| LedgerLaws.ExactAccount | LetDB/src/guard.c:65-76 | of an account never allowed debt, whatever it receives: its credits are exactly the initial ones plus what it sent and never wrap, its debits are the initial ones plus what it received modulo 2^128 |
| LedgerLaws.SolventIff | LetDB/src/guard.c:65-76 | such an account covers its credits if and only if the initial credits plus what it sent are at most its debits so reduced |
| LedgerLaws.Solvency | LetDB/src/guard.c:65-76 | in particular, one created solvent whose income fits its field has exactly its recorded credits and debits and covers its credits |
| LedgerLaws.TransferKeepsSolvent | LetDB/src/guard.c:40-81 | a guarded transfer keeps a sender without debt solvent, and a solvent recipient if and only if the recipient's debits plus the amount stay below 2^128 or wrap to no less than its credits |
| LedgerLaws.AlwaysSolventIff | LetDB/src/guard.c:40-81 | over every admitted log an account never allowed debt is solvent all along if and only if it was created so and could absorb every transfer it received |
| LedgerLaws.ReceivingCanBankrupt | LetDB/src/guard.c:40-81 | an admitted log of two adds and one transfer ends with an account never allowed debt whose debits are zero and whose credits are one |
| History.AccountIsItsHistory | LetDB/src/state.c:26-70 | every field of every account, in debt or not, is a function of the log: amounts given and moved modulo 2^128, transfers counted, time of its add record, flags last given |
| History.AdmittedIff | LetDB/src/guard.c:40-96 | exactly which records a log may be continued with, in terms of the log alone |
| History.PermissionsHold | LetDB/src/guard.c:55-63 | an account never given the send flag has sent nothing, one never given the receive flag has received nothing |
| History.TimesMove | LetDB/src/state.c:59-60 | a transfer sets the last change of exactly the two accounts it names; an update of the flags sets no time |
| LiveLedger.CountsAndBalance | LetDB/src/let.c:178-324 | counting and conservation hold of the accounts of the running server in every reachable idle state |
| LiveLedger.SolventAccounts | LetDB/src/let.c:228-262 | the exact credits and debits, and the exact condition for solvency, hold of the running server's accounts in every reachable idle state, live or rebuilt |
| LiveLedger.AdmittedIsReached | LetDB/src/let.c:178-324 | every admitted log with valid times that a file has room for is the log of an idle server at the end of some run |
| LiveLedger.BankruptIsReached | LetDB/src/let.c:228-262 | a run without a crash reaches the insolvent account |
| LiveLedger.NewAccountIsNamed | LetDB/src/let.c:210-226 | an accepted add is answered with the number of adds before it, and that is where the new account is |
| LiveLedger.IdleIsTidy | LetDB/src/let.c:98-157 | every idle server state, live or rebuilt, meets what the connection loop and the sequence-number protocol require, its file being the image of its log |
| Answers.LiveAccount | LetDB/src/let.c:264-278 | the accounts of a live or rebuilt server are field by field what its log says |
| Answers.QueriesAreAnswered | LetDB/src/let.c:178-324 | in every reachable idle state: what magic, close, count and account queries return, the last with exactly the credits, debits and flags of the log or "not found" exactly out of range, and that nothing changes |
| Answers.NoTimeNoAnswer | LetDB/src/let.c:182-185 | without a time every request ends the process and changes nothing before that |
| Answers.RequestsAreAnswered | LetDB/src/let.c:193-320 | in every reachable idle state and for every answer of the system: exactly when an add, transfer or update succeeds, what it is answered with, every error in order, and the log, file, counter and memory afterwards |
| Conversations.TurnSends | LetDB/src/let.c:108-147 | a turn that logs and acknowledges a record sends the beginning of exactly its acknowledgement; any other turn sends an error, a query's answer, or nothing |
| Conversations.TurnsEnd | LetDB/src/let.c:98-157 | with more turns than there are bytes the conversation is the whole conversation, and over |
| Conversations.ConversationIsRun | LetDB/src/let.c:96-157 | every beginning of a conversation over bytes is a path of the run model whose answers grow by exactly the records it acknowledged, ending idle with its server or dead with its file |
| Conversations.AcknowledgedSurvives | LetDB/src/let.c:96-157 | whatever a conversation on any reached server has acknowledged by any turn is what a restart reads, each record at its own number, even if power is lost right then |
| EndToEnd.ChangeThenLook | LetDD/tcp/client.go:51-103 | a driver that sends a change the log allows and then a query reads, through both codecs, the acknowledgement and the account as log and change make it |
| EndToEnd.AddThenLook | LetDD/tcp/request.go:24-82 | an added account is read back with the very credits, debits and flags, under the id it was told |
| EndToEnd.TransferThenLook | LetDD/tcp/request.go:24-82 | a moved amount is read back on the sender's credits and the recipient's debits, and nowhere else |
| EndToEnd.UpdateThenLook | LetDD/tcp/request.go:24-82 | updated flags are read back on their account, and nothing else changes |
| Numbers.NumberOfDecimal | LetDD/uint128/uint128.go:64-84 | the decimal text of a number reads back as the number |
| Numbers.DecimalIsCanonical | LetDD/uint128/uint128.go:21-56 | every digit string without a leading zero is the decimal text of its number |
| Uint128.DivideByQuintillion | LetDD/uint128/uint128.go:31-36 | two chained 128-by-64 divisions, neither of which can panic, divide the whole number by 10^18 |
| Uint128.PrintDigit | LetDD/uint128/uint128.go:39-47 | printing the last digit of a chunk moves one digit of the decimal text, zero padding included, and the text ends exactly at the break |
| Uint128.Bytes | LetDD/uint128/uint128.go:21-56 | for every value the result is the canonical decimal text; the index never leaves the 40-byte buffer and the loops end |
| Uint128.ParseOfDecimal | LetDD/uint128/uint128.go:64-84 | parsing what was printed gives the value back |
| Uint128.ParseAccepts | LetDD/uint128/uint128.go:64-84 | a text is accepted if and only if it is an optional sign and at least one digit of the radix, with a minus sign or a value below 2^128 |
| Uint128.ParseRefusals | LetDD/uint128/uint128.go:64-77 | each of the three errors with its exact condition |
| Uint128.ParseMeans | LetDD/uint128/uint128.go:64-84 | without a minus sign an accepted text yields the number of its digits n; with one, (2^65 times n divided by 2^64 and rounded up, less n) modulo 2^128, with the exact conditions for that to be n or its two's complement |
| Uint128.NegativeIsComplement | LetDD/uint128/uint128.go:73-83 | minus n yields the 128-bit two's complement if and only if n, divided by 2^64 and rounded up, is a multiple of 2^63 |
| Uint128.NegativeLosesSign | LetDD/uint128/uint128.go:73-83 | minus n yields n if and only if the low word of n is zero and n is below 2^128 |
| Uint128.MinusOneIsAccepted | LetDD/uint128/uint128.go:64-84 | minus one is accepted and yields 2^65 - 1 |
| Requests.SetId | LetDD/tcp/request.go:38-77 | only the sequence number changes |
| Requests.EncodingIsShort | LetDD/tcp/request.go:24-82 | every encoded request takes 2 to 106 bytes |
| Requests.BodyIsOneLine | LetDD/tcp/request.go:24-82 | an encoded request has no newline but its last byte |
| Requests.Lines | LetDD/tcp/request.go:24-82 | one line of each kind, character by character |
| Decoder.Take | LetDB/src/network/request/decoder.c:100-253 | one byte of the machine on values keeps every argument within its field |
| Decoder.RequestDecoder.RunCommand | LetDB/src/network/request/decoder.c:100-134 | the command byte sets type and argument count as the machine on values does |
| Decoder.RequestDecoder.ParseU128 | LetDB/src/network/request/decoder.c:256-285 | the two checks refuse exactly the digits that take the value past 128 bits; nothing wraps |
| Decoder.RequestDecoder.ParseU64 | LetDB/src/network/request/decoder.c:287-304 | the same for 64 bits |
| Decoder.RequestDecoder.ParseU8 | LetDB/src/network/request/decoder.c:306-322 | the same for 8 bits |
| Decoder.RequestDecoder.StoreArgument | LetDB/src/network/request/decoder.c:158-252 | the byte goes into the field that the number of missing arguments selects, and no other field changes |
| Decoder.RequestDecoder.RunArgument | LetDB/src/network/request/decoder.c:136-253 | updating fields and counters is one step of the machine on values |
| Decoder.RequestDecoder.RunBuffer | LetDB/src/network/request/decoder.c:45-94 | the loop over the buffer decodes it, with every error |
| Grammar.RunTooLarge | LetDB/src/network/request/decoder.c:263-275 | a token whose mathematical value does not fit is refused, whatever follows |
| Grammar.DecodeOfLine | LetDB/src/network/request/decoder.c:45-94 | every line of the language decodes to the request with the values of its tokens |
| Grammar.DecodedIsLine | LetDB/src/network/request/decoder.c:45-94 | everything the decoder accepts is a line of the language |
| Grammar.DecoderIsExact | LetDB/src/network/request/decoder.c:136-321 | decoding gives a request if and only if the bytes are a command and exactly its digit-or-underscore tokens, each closed by one space, with values that fit, and nothing after |
| Grammar.DecodeOfEncoded | LetDD/tcp/request.go:24-82 | the decoder reads every request the driver can encode as the request it means |
| Grammar.MissingMeansBeginning | LetDB/src/network/request/decoder.c:82-85 | "arguments missing" is said exactly of inputs that are not requests but can be completed to one with arguments |
| Grammar.MalformedMeansMore | LetDB/src/network/request/decoder.c:87-91 | "malformed" is said exactly of a request with something after it and of an argumentless command left open |
| Grammar.FirstBadByte | LetDB/src/network/request/decoder.c:45-322 | every other error: the first byte that a request cannot have, everything before it being read without objection, and the error that each kind of bad byte gives |
| Grammar.EmptyMeansNothing | LetDB/src/network/request/decoder.c:45-52 | "empty" is said exactly of nothing |
| Encoder.HexLength | LetDB/src/network/response/encoder.c:167-173 | a number with k significant bytes takes 2k digits |
| Encoder.TextIsShort | LetDB/src/network/response/encoder.c:34-158 | every response text takes 4 to 73 bytes |
| Encoder.EmitIsExact | LetDB/src/network/response/encoder.c:175-191 | writing pieces overruns a buffer if and only if the first byte that does not fit is a literal one, and succeeds if and only if all fit |
| Encoder.ContainedIsExact | LetDB/src/network/response/encoder.c:34-158 | the same for every response and capacity, and 73 bytes always suffice |
| Encoder.ShortBufferIsOverrun | LetDB/src/network/response/encoder.c:130-156 | three bytes of room are overrun by the shortest response |
| Encoder.Texts | LetDB/src/network/response/encoder.c:34-158 | one text of each kind, character by character |
| Encoder.ResponseEncoder.SignificantBytes | LetDB/src/network/response/encoder.c:168-173 | leading zero bytes are skipped, but never the last byte |
| Encoder.ResponseEncoder.RunInteger | LetDB/src/network/response/encoder.c:164-194 | appends the hexadecimal text of the number, or reports overflow and writes nothing |
| Encoder.ResponseEncoder.Run | LetDB/src/network/response/encoder.c:34-158 | writes exactly the response's text, or reports overflow exactly when it does not fit |
| Responses.NumberOfHex | LetDD/tcp/response.go:98-148 | the hexadecimal text of a number reads back as the number |
| Responses.ParseOfText | LetDD/tcp/response.go:68-157 | the driver parses every response the server can write to the response that was meant |
| Responses.ParseIsExact | LetDD/tcp/response.go:68-157 | exactly which texts are parsed to each response |
| Responses.ParseObjects | LetDD/tcp/response.go:68-157 | the error of every other text: empty, unknown kind, wrong number of fields, or a bad field |
| Responses.SplitIsExact | LetDD/tcp/response.go:68-82 | the parts of a text are exactly what is between its spaces |
| Responses.TextIsInjective | LetDB/src/network/response/encoder.c:34-158 | responses with the same text are the same, down to the error |
| Connection.FrameOfLine | LetDB/src/network/server.c:104-143 | where a read stops: at a newline, at the end of the stream, or when the buffer is full |
| Connection.Client.ReadLine | LetDB/src/network/server.c:104-143 | the byte-by-byte loop takes exactly one frame off the stream, its newline turned into a space |
| Connection.Client.Read | LetDB/src/network/server.c:104-146 | a read gives the request of the next line or the reason there is none, and leaves the rest |
| Connection.Client.SendBuffer | LetDB/src/network/server.c:163-192 | partial sends deliver the text in order, all of it or a prefix with an error |
| Connection.Client.Write | LetDB/src/network/server.c:148-195 | a response is sent as its text; the buffer always suffices |
| Framing.ReadOfLine | LetDB/src/network/server.c:104-146 | a line that fits is read whole and the next read starts after its newline, good or bad; a longer one is an overflow |
| Framing.LinesNeverShift | LetDB/src/network/server.c:104-146 | any sequence of lines that fit is read line by line, each decoded on its own |
| Framing.RequestsReadBack | LetDD/tcp/request.go:34-82 | any sequence of requests, encoded one after the other, is read back in order with nothing lost |
| Session.TurnMakesProgress | LetDB/src/let.c:98-157 | every turn of the loop takes bytes off the stream, and one that finds none is the last |
| Session.HandleKeepsRoom | LetDB/src/let.c:178-324 | every request leaves a record for every account and the cursor at the end of the file |
| Session.TakeTurn | LetDB/src/let.c:98-157 | read, dispatch, then answer, reject, close or terminate by the error's action, for every answer of clock, memory and file |
| Session.ServeClient | LetDB/src/let.c:96-157 | the loop over process and connection equals the conversation on values |
| Wire.ResponsesReadBack | LetDD/tcp/client.go:170-177 | any sequence of responses on one stream is read back line by line as it was meant |
| Wire.TurnsAnswer | LetDB/src/let.c:98-157 | as many turns as there are requests give the server state and the bytes of the plain requests |
| Wire.ReadErrorsSorted | LetDB/src/error.c:131-212 | an undecodable line is always answered; the end of the stream and a full buffer always end the connection |
| Wire.BadLineIsAnswered | LetDB/src/let.c:115-147 | a bad line is answered with its error and harms neither the server, nor the lines after it, nor the connection |
| Wire.FailedSendEnds | LetDB/src/let.c:136-147 | a response that cannot be sent ends the connection unless the peer is gone or the call was interrupted; the process lives on |
| Wire.TurnEnds | LetDB/src/let.c:96-157 | exactly when the loop goes on after a turn, and that only a fatal error of a readable request stops the process from taking more connections |
| Wire.LongLineEndsConnection | LetDB/src/let.c:125-128 | a line that does not fit ends the connection and nothing else; its remainder is never read as a request |
| Wire.WireIsTransparent | LetDD/tcp/client.go:161-177 | a driver that sends any answered requests and a close reads exactly their answers and leaves the server where the requests themselves lead, whatever pieces the bytes were sent in |
| Supervisor.BackoffIsBounded | LetDD/supervisor/supervisor.go:70-73 | whatever wraps, a delay lies between the smaller limit and the maximum |
| Supervisor.BackoffDoubles | LetDD/supervisor/supervisor.go:70-73 | while it fits 64 bits a delay is the minimum doubled once per retry, up to the maximum |
| Supervisor.BackoffGrows | LetDD/supervisor/supervisor.go:70-73 | until then delays never shrink |
| Supervisor.ShrinkIsExact | LetDD/supervisor/supervisor.go:70-73 | for any limits, exactly which doublings make the next delay smaller |
| Supervisor.NeverShrinksIsExact | LetDD/supervisor/supervisor.go:70-73 | for any limits, no delay among the first tries shrinks if and only if none of their doublings is such |
| Supervisor.OverflowFallsBack | LetDD/supervisor/supervisor.go:70-73 | with limits in order and not negative a delay shrinks exactly when doubling overflows, and then to the minimum |
| Supervisor.NeverShrinksIffFits | LetDD/supervisor/supervisor.go:70-73 | with a positive minimum below 2^62 and a larger maximum, no delay shrinks among the first tries if and only if the last one still fits |
| Supervisor.ConstantDelays | LetDD/supervisor/supervisor.go:70-73 | with a minimum of zero, or a maximum no larger than the minimum, all delays are equal |
| Supervisor.LargeMinimum | LetDD/supervisor/supervisor.go:70-73 | with a minimum of at least 2^62 no delay shrinks if and only if all but the last are the minimum |
| Supervisor.FitsIsNotNecessary | LetDD/supervisor/supervisor.go:70-73 | there delays can fail to fit without shrinking |
| Supervisor.BackoffCanShrink | LetDD/supervisor/supervisor.go:70-73 | with minimum one, the 64th try falls from the largest delay back to one |
| Supervisor.Supervisor.Try | LetDD/supervisor/supervisor.go:31-67 | the first attempt is free, later ones are bounded and delayed, a done context stops them |
| Supervisor.Supervisor.Reset | LetDD/supervisor/supervisor.go:76-78 | the next attempt is a first one again |
| Driver.Client.Connect | LetDD/tcp/client.go:114-158 | exactly when there is a connection: it was there, or the context was not done, the peer took the call and answered with a count, which is now the counter |
| Driver.Client.Exchange | LetDD/tcp/client.go:67-84 | stamps, sends and returns exactly what comes back; any failure drops the connection |
| Driver.Client.Communicate | LetDD/tcp/client.go:51-103 | a call is a run of the client machine from rest to rest; it returns exactly the response that came in last, only with a context not done; it gives up only when the context is done or exactly max(1, CancelAfter) attempts were made |
| Driver.Client.Disconnect | LetDD/tcp/client.go:180-197 | only between calls, and only the connection changes |
| Nonces.AnsweredMeans | LetDB/src/storage/wal.c:258-281 | an answered request named the current counter and appended exactly its record, or left the server as it was and, if logged, was answered with an error |
| Nonces.ServeKeeps | LetDB/src/let.c:98-157 | serving any request on the served connection keeps the protocol invariant |
| Nonces.ActKeeps | LetDD/tcp/client.go:51-155 | whatever a driver does keeps it |
| Nonces.RestartKeeps | LetDB/src/let.c:22-73 | so does a restart with any recovered state |
| Nonces.RunKeeps | LetDD/tcp/client.go:51-103 | every interleaving of many drivers, losses, hang-ups and restarts keeps it |
| NonceLaws.RestingCounter | LetDD/tcp/client.go:136-155 | a resting driver on the served connection is never ahead of the server, and equals it unless stale, when it is exactly one behind |
| NonceLaws.StalenessChanges | LetDD/tcp/client.go:89-100 | it becomes stale only by returning with a done context after an accepted reply, and recovers only by reconnecting |
| NonceLaws.CancelledReturnFallsBehind | LetDD/tcp/client.go:91-93 | such a return does leave it one behind, still connected |
| NonceLaws.StaleIsRefused | LetDB/src/storage/wal.c:257-260 | every logged request of a stale driver is answered with an error and changes nothing |
| NonceLaws.FreshNumberIsRight | LetDD/tcp/client.go:68-72 | a driver that is not stale is never refused for its sequence number |
| NonceLaws.AcceptedReplyWroteOnce | LetDB/src/storage/wal.c:258-281 | an accepted reply stands for exactly one record, written by exactly the request it answers, with that request's operation and number; until the server restarts the file reads back with that record at that number and no other of that number |
| NonceLaws.OnlyTheServedWrites | LetDB/src/let.c:83-159 | while a connection is served nothing but its own requests moves counter and log, by exactly the record requested |
| NonceLaws.StaleCounterExists | LetDD/tcp/client.go:89-100 | a reachable state with a stale driver |

## Left out

- Sockets, accept, timeouts, `errno` and signals: the model keeps the byte streams, how a send may be cut, and the error a
  failed call ends in.
- `open`, `lseek`, `ftruncate`, `fsync` and `read` failures on the log file, other than short writes, failed syncs and
  short files.
- A crash between the creation of the file and its full header: opening such a file is refused (`Wal.HeaderError`).
- `updated_at` across restarts: live and replayed transfers both take it from the wall clock, so recovery equality is
  stated without it.
- `CapacityOverflow` in requests and replay: `Accounts.AccountList.Add` reports it, but it needs more accounts than a file can hold records for.
- The outer accept loop and `let_cleanup`: each connection starts from the server state the last one left.
- `TrimSpace` beyond ASCII white space, and forms of integer text other than plain digits with a sign.
- For negative numbers `Uint128.Parse` follows the words that the standard library's big integers yield, which their
  documentation leaves open.
- HTTP, authorization, rate limiting, JSON binding, configuration and command line: library wrappers or single branches.
- Flag names in HTTP bodies, logging and error message texts.
- Exactly-once delivery across reconnects is not claimed: after a lost reply the driver reads the counter again and sends
  the request under a new number.
