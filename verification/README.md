# A verified model of the ElectrumSV wallet

This project models the parts of the ElectrumSV wallet whose correctness is decided by its own
code, and proves what they promise. Code that updates objects, dictionaries and buffers is modelled
by classes and methods with loops, proved against functions on values; the main results are lemmas
about those functions that hold for every input and every run. Hashes and signature primitives are
arbitrary functions, random values are arbitrary inputs.

| file | models |
|---|---|
| `Ledger.dfy`, `LedgerOutcome.dfy`, `LedgerRows.dfy`, `LedgerSafety.dfy`, `LedgerDeletion.dfy`, `LedgerRuns.dfy`, `Account.dfy`, `Migration.dfy` | the account ledger (`electrumsv/wallet.py`) with its removals and deletions, and the one-shot conversion that computes the same ledger in two passes (`electrumsv/storage.py`) |
| `RsaMath.dfy`, `Rsa.dfy`, `NumberTheory.dfy` | RSA with Chinese remaindering and blinding (`electrumsv/rsakey.py`), following sections 5.2.1, 5.2.2 and 8.2 of RFC 8017; Fermat's little theorem and the Chinese remainder theorem are proved from scratch |
| `Generator.dfy`, `CoinChooser.dfy`, `Change.dfy` | the deterministic generator, coin selection and change splitting (`electrumsv/coinchooser.py`) |
| `ScriptData.dfy`, `VaultContract.dfy`, `RawTransaction.dfy` | script numbers, covenant templates, the raw transaction parser and the BIP 143 preimage (`electrumsv/vault_contract.py`, `electrumsv/transaction.py`) |
| `Benford.dfy` | amounts with a wanted leading digit and the greedy splitter (`electrumsv/benford.py`) |
| `KeyAllocation.dfy`, `Cosigner.dfy` | key creation (`electrumsv/wallet.py`, `electrumsv/keystore.py`) and the cosigner protocol (`electrumsv/transaction.py`) |
| `Merkle.dfy` | three implementations of one Merkle fold (`electrumsv/network.py`, `electrumsv/verification_utils.py`) |
| `Base43.dfy`, `HexNumbers.dfy`, `Bip39.dfy` | base 43, little-endian hexadecimal integers, and mnemonic phrases (`electrumsv/bitcoin.py`, `electrumsv/mnemonic.py`, `electrumsv/keystore.py`) |
| `Arith.dfy`, `Digits.dfy`, `Sums.dfy`, `Sorting.dfy`, `Hashing.dfy`, `Wrappers.dfy` | powers and congruences, positional numerals, sums over maps, a stable sort, arbitrary hashes, result types |

## Where the code does not do what one would expect

Each of these is proved, for all inputs and where it is a condition in both directions.

- The Chinese remainder form of the private operation is right for every input exactly when neither
  prime is 2 (`RsaMath.CrtCorrect`; `RsaMath.CrtCanFail` is a key and an input it gets wrong). With
  odd primes a blinding value that shares a factor with the modulus makes a call return 0
  (`RsaMath.ZeroBlinder`; `RsaMath.BlindingCanFail` is such a call).
- Signing accepts a message one byte too long for the padding exactly when the longer block still
  lies below the modulus, and its own verification then refuses the signature
  (`Rsa.SignThenVerify`; `Rsa.OverlongSigned` is such a message). Decrypting an encrypted empty
  message gives None, because the scan for the separator stops one byte early
  (`Rsa.EncryptThenDecrypt`).
- Removing a transaction undoes processing it exactly when none of its inputs was recorded as spent
  before and none of its outputs as unspent (`Ledger.RemoveUndoesProcess`; `Ledger.UndoCanFail` is a
  state where it does not). A removal takes no delta back, so the deltas still sum to the balance
  exactly when what it brings back equals what it takes out (`Ledger.RemoveConserves`;
  `LedgerSafety.RemovalCanFail` is a run where it does not). Deleting the transaction with its delta
  rows keeps the balance exactly when every output of value that comes back was charged to it
  (`LedgerDeletion.DeleteExact`). `LedgerDeletion.DeletionCanFail` is a run where another cached
  transaction was charged and still spends the output; without one the balance holds over every run
  (`LedgerDeletion.DeletionsConserve`).
- A script number that is not minimal decodes, but does not come back when encoded
  (`ScriptData.BytesRoundTrip`); a `True` constructor argument is written as an opcode that the
  contract parser does not read (`VaultContract.FlagNotRead`). The parser accepts a script that ends
  within the last pushed argument, when the template ends with that slot
  (`VaultContract.ParsesExactly`; `VaultContract.CutPushParses` is such a script).
- The raw transaction parser reads the signed version and amounts as unsigned
  (`RawTransaction.KeptExactly`); the preimage built from them is not affected.
- The variable-length integer writer accepts the numbers from -128 to -1, which the other writer
  refuses (`HexNumbers.VarIntIsVarint`).
- Base 43 returns one zero too many for inputs without a non-zero byte or digit
  (`Base43.DecodeUndoesEncode`).
- Two of the three Merkle folds have no range check and treat a position like its remainder modulo
  the size of the tree (`Merkle.PositionsWrap`).
- The comment of `numberToByteArray` allows a shorter result than asked for; the code always returns
  the length asked for, and keeps the low bytes of a number that is too large.

## Model

| member | source | states |
|---|---|---|
| Account.SyncState.SetKeyHistory | electrumsv/wallet.py:211-230 | The two dictionaries stay inverse to each other, and exactly the transactions that left and entered the history are reported. |
| Account.AbstractAccount.FindOwner | electrumsv/wallet.py:1140-1144 | The search over the candidate keys of a transaction finds a key with that script exactly when there is one, also when two keys share a script. |
| Account.AbstractAccount.SearchSpender | electrumsv/wallet.py:1148-1164 | The search over a key's history finds the first cached transaction, other than the one at hand, that spends the output. |
| Ledger.FindSpenderExact | electrumsv/wallet.py:1148-1164 | A spender that is found spends the output; when none is found, no cached transaction of the history spends it. |
| Account.AbstractAccount.RegisterUtxo | electrumsv/wallet.py:778-802 | The unspent map gains exactly this output. |
| Account.AbstractAccount.CreateTransactionOutput | electrumsv/wallet.py:804-816 | A new output enters exactly one of the two maps, as its flag says, and the output table. |
| Account.AbstractAccount.SetUtxoSpent | electrumsv/wallet.py:931-938 | An output moves from the unspent to the spent map under its key, and its row is flagged. |
| Account.AbstractAccount.VisitOutput | electrumsv/wallet.py:1091-1169 | One turn of the output loop on the fields and the batch of deltas is the ledger step on values, found spent or unspent. |
| Account.AbstractAccount.VisitInput | electrumsv/wallet.py:1171-1180 | One turn of the input loop on the fields is the ledger step on values. |
| Account.AbstractAccount.ProcessKeyUsage | electrumsv/wallet.py:1076-1193 | The loops with their batch of relative deltas compute the ledger function that applies deltas one by one; the result is True exactly when anything changed; nothing changes when a candidate key is missing. |
| Account.AbstractAccount.RemoveTransaction | electrumsv/wallet.py:1216-1282 | With a spent output the removal is refused and nothing changes; otherwise the state is the one with the outputs taken out and the spent inputs put back. The account stays well formed. |
| Account.AbstractAccount.DeleteTransaction | electrumsv/wallet.py:1195-1214 | A deletion is refused exactly when an output is spent; otherwise the transaction also leaves the cache and both tables, and the account stays well formed. |
| Account.AbstractAccount.GetBalance | electrumsv/wallet.py:999-1017 | Each of the three parts is the sum over exactly the coins of its kind, and an unknown coin is an error. |
| Account.PartsHold | electrumsv/wallet.py:999-1017 | A coinbase coin of fewer than 100 blocks is in the immature part, any other coin in the confirmed part when its transaction has a positive height and in the unconfirmed part otherwise. |
| Account.ProcessBatched | electrumsv/wallet.py:1085-1193 | Collecting the deltas of a transaction and applying them at the end equals applying each at once, and the batch is empty exactly when nothing changed. |
| Account.PartsAddUp | electrumsv/wallet.py:999-1017 | Confirmed, unconfirmed and immature add up to the value of the whole domain. |
| Account.BalanceIsDeltas | electrumsv/wallet.py:999-1017 | In a conserved state the three parts of the balance add up to the sum of all deltas ever emitted. |
| Ledger.ProcessValid | electrumsv/wallet.py:1076-1193 | Processing keeps unspent and spent disjoint and in agreement with the output table, and says what becomes of every outpoint. |
| LedgerOutcome.ProcessRecords | electrumsv/wallet.py:1091-1180 | An output in the list of relevant ones, or any output when the list is empty, that a candidate key owns is known afterwards; a new one has its value, key and coinbase flag, and is spent exactly when a cached transaction of the key's history or the transaction itself spends it. |
| LedgerOutcome.ProcessSkips | electrumsv/wallet.py:1091-1180 | An output outside a list that is not empty, or owned by no candidate key, becomes known to no map. |
| Ledger.ProcessConserves | electrumsv/wallet.py:1076-1193 | Processing keeps, for each key and in total, the sum of deltas equal to the value of the unspent outputs. |
| Ledger.ProcessTwice | electrumsv/wallet.py:1091-1097 | Processing a transaction again, with the same outputs, changes nothing. |
| Ledger.RemoveUndoesProcess | electrumsv/wallet.py:1216-1282 | Removal is refused exactly when an output is spent; otherwise process then remove restores both maps if and only if no input was in the spent map and no output in the unspent map before. |
| Ledger.UndoCanFail | electrumsv/wallet.py:1216-1282 | A valid state and an accepted removal after which the unspent map is not the one before processing. |
| Ledger.RemovedValid | electrumsv/wallet.py:1216-1282 | A removal keeps unspent and spent disjoint and in agreement with the output table. |
| Ledger.RemoveEffect | electrumsv/wallet.py:1216-1282 | A removal changes the unspent value of each key, and the total, by what it brings back less what it takes out, and emits no delta. |
| Ledger.RemoveConserves | electrumsv/wallet.py:1216-1282 | A removal alone keeps the deltas equal to the balance exactly when it brings back what it takes out, for each key and in total. |
| LedgerSafety.RunsStayValid | electrumsv/wallet.py:1076-1282 | Over every run of arrivals, recorded histories, processing steps, removals and deletions the three tables agree and every known output belongs to a cached transaction. |
| LedgerSafety.RunsKeep | electrumsv/wallet.py:1076-1193 | Over every run without removals, double spends included, the deltas of each key sum to its unspent value. |
| LedgerSafety.RemovalCanFail | electrumsv/wallet.py:1216-1282 | A run of one payment after which an accepted removal takes the coin and leaves its delta. |
| LedgerDeletion.DeleteConserves | electrumsv/wallet.py:1195-1214 | A deletion keeps the deltas equal to the balance exactly when the deleted delta rows hold, key by key, what the removal takes out less what it brings back. |
| LedgerDeletion.DeleteExact | electrumsv/wallet.py:1195-1214 | When each spent output is charged to one cached spender and each delta row is the net effect of its transaction, a deletion keeps the deltas equal to the balance exactly when every output of value that comes back was charged to the deleted transaction. |
| LedgerDeletion.DeletionsConserve | electrumsv/wallet.py:1076-1214 | Over every run with deletions, double spends included, in which no spent input of a deleted transaction has another cached spender, each key stays conserved and each delta row stays that net effect. |
| LedgerDeletion.DeletionCanFail | electrumsv/wallet.py:1195-1214 | A run in which two cached transactions spend one output: deleting the one not charged makes the output unspent though the other still spends it, and the deltas no longer sum to the balance. |
| LedgerRuns.CompleteRun | electrumsv/wallet.py:1076-1193 | Any run that processes a whole set without double spends ends with the ledger declared by the set alone: both maps, all rows, and each delta row the net effect of its transaction on its key. |
| LedgerRuns.EveryOrderCompletes | electrumsv/wallet.py:1076-1193 | Adding and processing the transactions of a set in any order whatever is such a complete run, so it ends in the declared ledger. |
| LedgerRuns.OrderIndependence | electrumsv/wallet.py:1091-1180 | Two complete runs over one set, in any two orders, end with the same maps, rows and deltas. |
| Migration.Conversion.VisitOutput | electrumsv/storage.py:993-1020 | One turn of the first loop on the fields: an output to a known address is credited to its key in both dictionaries and gets the next row; any other changes nothing. |
| Migration.Conversion.VisitInput | electrumsv/storage.py:1024-1052 | One turn of the second loop on the fields, for any parsed address: a located output is debited to the key of that address and its row flagged, spent before or not. |
| Migration.Conversion.ProcessTransactions | electrumsv/storage.py:981-1057 | The two passes compute the conversion of any wallet, in any order, and stop with the error exactly when it has none. |
| Migration.ConversionTotals | electrumsv/storage.py:981-1057 | For every wallet, double spends and mismatched addresses included, the delta rows of each key sum to its written total. |
| Migration.ConversionExact | electrumsv/storage.py:981-1057 | Without double spends and with matching addresses the conversion fails exactly when an input has no parsed address, and otherwise gives the declared ledger, for any order. |
| Migration.MigrationAgrees | electrumsv/storage.py:981-1057 | The deltas written are those of any complete run of the account, and every row says of its output what that account ended with. |
| Migration.OneRowEach | electrumsv/storage.py:990-1015 | Every output to a known address has a row and no output has two. |
| Migration.FlagsExact | electrumsv/storage.py:1003-1050 | A row says spent exactly when a transaction of the set spends its output, and otherwise frozen exactly when its address or the output itself was frozen. |
| Migration.MigrationConserves | electrumsv/storage.py:1022-1057 | For each key the delta rows sum to the value of its unspent rows. |
| NumberTheory.GcdDivisors | electrumsv/rsakey.py:149-153 | The divisors of the computed number are exactly the common divisors. |
| Rsa.GcdLoop | electrumsv/rsakey.py:149-153 | The loop, for arguments in either order, computes that greatest common divisor. |
| Rsa.LcmOf | electrumsv/rsakey.py:155-156 | With the computed divisor the quotient is the common multiple the private exponent is taken from. |
| RsaMath.LcmMultiple | electrumsv/rsakey.py:155-156 | Both arguments divide the result. |
| RsaMath.LcmLeast | electrumsv/rsakey.py:155-156 | The result divides every common multiple. |
| Rsa.InvMod | electrumsv/rsakey.py:160-169 | The result is the inverse in range when there is one, and 0 exactly when the arguments are not coprime or the modulus is 1. |
| Rsa.NumBitsExact | electrumsv/rsakey.py:113-122 | The bit count read off the hexadecimal text is exact. |
| Rsa.NumBytesExact | electrumsv/rsakey.py:125-129 | The byte count is exact. |
| Rsa.NothingForZero | electrumsv/rsakey.py:113-129 | Zero has no bits and no bytes. |
| Rsa.NumberToByteArray | electrumsv/rsakey.py:72-85 | The buffer filled from the end holds the low bytes in big-endian order, with the length asked for. |
| Rsa.BytesRoundTrip | electrumsv/rsakey.py:43-85 | Reading what was written gives the number back when it fits. |
| Rsa.NumberRoundTrip | electrumsv/rsakey.py:43-85 | Writing what was read gives the bytes back, leading zeros included. |
| Rsa.Generate | electrumsv/rsakey.py:524-537 | Key assembly from two primes computes the fields of the declared key. |
| RsaMath.GeneratedConsistent | electrumsv/rsakey.py:524-537 | The generated key is consistent exactly when the primes differ and the public exponent is coprime to the least common multiple. |
| RsaMath.CrtExact | electrumsv/rsakey.py:505-514 | For one input the remaindering result equals plain exponentiation exactly when no prime with a zero reduced exponent divides it. |
| RsaMath.CrtCorrect | electrumsv/rsakey.py:505-514 | It is right for every input exactly when both primes are odd. |
| RsaMath.CrtCanFail | electrumsv/rsakey.py:505-514 | A consistent key with the prime 2 and an input for which the two differ. |
| RsaMath.StepExact | electrumsv/rsakey.py:481-502 | For any consistent key one blinded call with a usable pair, present or drawn, returns m^d mod n exactly when the remaindering form is right for m; with an unusable draw, exactly when m is that draw modulo the prime 2 and 0 modulo the odd ones. The coupling blinder * unblinder^e = 1 mod n is kept. |
| RsaMath.RunExact | electrumsv/rsakey.py:481-502 | In every run of calls, call i is right under the first of these conditions once one of the draws up to it was coprime to the modulus, and under the second before. |
| RsaMath.OddRun | electrumsv/rsakey.py:481-502 | With odd primes call i is right exactly when one of the draws up to it was coprime to the modulus, or m is 0 mod n. |
| RsaMath.ZeroBlinder | electrumsv/rsakey.py:481-502 | With odd primes a call whose first draw is not coprime to the modulus returns 0. |
| RsaMath.BlindingCanFail | electrumsv/rsakey.py:481-502 | A consistent key, a draw and an input that is answered by 0 although its power is not 0. |
| RsaMath.PublicUndoesPrivate | electrumsv/rsakey.py:516-518 | The public operation undoes the private one on every number. |
| RsaMath.PrivateUndoesPublic | electrumsv/rsakey.py:516-518 | The private operation undoes the public one on every number. |
| Rsa.RSAKey.RawPrivateKeyOp | electrumsv/rsakey.py:481-502 | The method with its two fields computes the blinded result and squares the blinding pair. |
| Rsa.RSAKey.Sign | electrumsv/rsakey.py:337-357 | Padding, range check, private operation and bytes, with the blinding state advanced only when it succeeds. |
| Rsa.RSAKey.Verify | electrumsv/rsakey.py:359-381 | The length check, range check and comparison of the recovered block. |
| Rsa.RSAKey.Encrypt | electrumsv/rsakey.py:383-400 | Encryption with any non-zero filler. |
| Rsa.RSAKey.Decrypt | electrumsv/rsakey.py:402-433 | All failing exits and the separator scan as the code has it. |
| Rsa.SignThenVerify | electrumsv/rsakey.py:337-381 | Signing succeeds exactly on the messages that fit and on those one byte longer whose block lies below the modulus; verification accepts what signing produced exactly for the messages that fit. |
| Rsa.SignExact | electrumsv/rsakey.py:337-357 | For a message that fits, the public operation turns the signature into 00 01, bytes FF, 00 and the message, byte by byte. |
| Rsa.VerifyExact | electrumsv/rsakey.py:359-381 | A byte string of the length of the modulus and below it is accepted exactly when the public operation turns it into such a block. |
| Rsa.OverlongSigned | electrumsv/rsakey.py:337-381 | A consistent key and a message that is signed and whose signature is refused. |
| Rsa.VerifyUnique | electrumsv/rsakey.py:359-381 | The produced signature is the only byte string that verification accepts for its message. |
| Rsa.EncryptThenDecrypt | electrumsv/rsakey.py:383-433 | Encryption succeeds exactly when there is room for filler; decryption then gives every non-empty message back and None for the empty one. |
| Generator.Prng.GetBytes | electrumsv/coinchooser.py:52-57 | The bytes are the next ones of the hash stream fixed by the seed, from the place reached so far. |
| Generator.Prng.RandInt | electrumsv/coinchooser.py:59-67 | The number is in range: the next stream bytes, as many as the range needs, read big-endian, modulo the range. |
| Generator.Prng.Shuffle | electrumsv/coinchooser.py:72-76 | The permutation is fixed by the stream and the place in it: one draw for each position from the last to the second. |
| Generator.ShuffleReachesAll | electrumsv/coinchooser.py:72-76 | Every permutation comes from exactly one sequence of draws. |
| CoinChooser.BucketizeCoins | electrumsv/coinchooser.py:96-107 | The loop over the dictionary of lists builds one bucket for each key, in order of first appearance. |
| CoinChooser.BucketsPartition | electrumsv/coinchooser.py:96-107 | The buckets hold every coin exactly once, with right totals. |
| CoinChooser.BucketHolds | electrumsv/coinchooser.py:96-107 | A bucket holds exactly the coins of the key it is named after, and no two share a name. |
| Sorting.SortByKeepsOrder | electrumsv/coinchooser.py:85 | The sort by value is stable: equal elements keep their order. |
| CoinChooser.SufficientIs | electrumsv/coinchooser.py:190-195 | Funds suffice exactly when the values add up to what is spent and the fee for the base size and all sizes. |
| CoinChooser.StripUnneeded | electrumsv/coinchooser.py:83-90 | The result is the sorted list from the first place where one more bucket cannot be dropped. |
| CoinChooser.StripKeeps | electrumsv/coinchooser.py:83-90 | Stripping keeps sufficiency, and dropping the smallest bucket left breaks it. |
| CoinChooser.StripMinimal | electrumsv/coinchooser.py:83-90 | With a fee that does not depend on size no bucket at all can be dropped. |
| CoinChooser.Attempt | electrumsv/coinchooser.py:237-245 | Combining buckets along a permutation is the search for a prefix that suffices, with the failing exit. |
| CoinChooser.AttemptsGrow | electrumsv/coinchooser.py:231 | One attempt for one bucket, ten more for every other, and 100 from eleven buckets on. |
| CoinChooser.FoundShortest | electrumsv/coinchooser.py:237-245 | What is found is the shortest sufficient prefix, as sorted indexes; nothing is found exactly when no prefix suffices. |
| CoinChooser.CandidatesSuffice | electrumsv/coinchooser.py:221-247 | Every candidate a seed stands for is a duplicate-free, sufficient selection; there is one whenever all buckets together suffice. |
| CoinChooser.BucketCandidates | electrumsv/coinchooser.py:221-247 | The list holds the stripped candidates fixed by the stream, each once; the error is raised exactly when an attempt finds nothing. |
| CoinChooser.LeastPenalty | electrumsv/coinchooser.py:249-253 | The winner has the least penalty and is the first one with it. |
| CoinChooser.ChooseBuckets | electrumsv/coinchooser.py:249-255 | The selection is the first of least penalty among the stripped candidates of the seed; both failures have their condition. |
| CoinChooser.ChosenIsSelection | electrumsv/coinchooser.py:249-255 | A chosen selection is a stripped, sufficient set of different buckets. |
| CoinChooser.ChoiceDetermined | electrumsv/coinchooser.py:39-45 | One seed gives one least penalty, and one selection unless two candidates tie. |
| Change.ChooseCount | electrumsv/coinchooser.py:120-125 | The count is the first whose change per output is small enough, or the largest allowed. |
| Change.CountExact | electrumsv/coinchooser.py:120-125 | A count is passed over exactly when the change for it, divided by it, exceeds 2000000 and five quarters of the largest payment; change within either goes to one output. |
| Change.ZeroesExact | electrumsv/coinchooser.py:129-131 | The zeros a number ends in, counted exactly. |
| Change.PrecisionsAre | electrumsv/coinchooser.py:133-136 | The precisions run from one zero fewer than the payments end in to one more. |
| Change.LeadingPlace | electrumsv/coinchooser.py:145 | The place of the leading digit: the number lies between that power of ten and the next. |
| Change.RoundedIs | electrumsv/coinchooser.py:146 | Rounding gives the nearest multiple of the unit, and of two nearest ones the even multiple. |
| Change.AmountIs | electrumsv/coinchooser.py:141-149 | An amount is drawn from seven to thirteen tenths of the average of what remains, and rounded to a precision drawn next, or to its leading digit when that is coarser. |
| Change.LastIs | electrumsv/coinchooser.py:151-155 | The last amount is what remains without its last one or two digits, or all of it, by the first precision. |
| Change.ChangeAmounts | electrumsv/coinchooser.py:114-158 | The count is the one chosen, and the amounts are fixed by the stream, the change available for that count and the precisions of the outputs. |
| Change.AmountsSplit | electrumsv/coinchooser.py:114-158 | These amounts are as many as the count, none negative, and fall short of the available change by 0 to 99 satoshis. |
| Change.ChangeOutputs | electrumsv/coinchooser.py:160-173 | The change outputs are the amounts not below the threshold, in order, each with its own script, and the dust is the sum of the others. |
| Change.ChangeFacts | electrumsv/coinchooser.py:160-173 | Kept change and dust together are the amounts; every kept one reaches the threshold and goes to its own output; the dust is less than the threshold for each output dropped. |
| Change.KeptInOrder | electrumsv/coinchooser.py:168 | Each amount is kept exactly when it is not below the threshold, in its place. |
| Change.MakeTx | electrumsv/coinchooser.py:175-214 | The transaction is the one its seed stands for; its fee is at least the estimate with the outputs kept, and exceeds the estimate for the count aimed at by less than 100 and, for each output dropped, less than the threshold. It fails only when the coins do not suffice or there are none. |
| Change.BuiltPays | electrumsv/coinchooser.py:175-214 | Whatever a seed stands for spends distinct given coins, pays the given outputs and keeps both bounds on the fee. |
| Change.ShortOfFunds | electrumsv/coinchooser.py:190-195 | All coins together suffice exactly when their values add up to the outputs and the fee for all sizes. |
| Change.PaidFeeIs | electrumsv/coinchooser.py:202-209 | The fee paid is the sum of the inputs less those of outputs and change. |
| Change.SeedDecides | electrumsv/coinchooser.py:39-45 | The same seed gives the same transaction when no two candidates tie. |
| ScriptData.EncodeScriptNumber | electrumsv/vault_contract.py:63-77 | The byte loop and the sign adjustment give the sign-magnitude bytes. |
| ScriptData.NumberRoundTrip | electrumsv/vault_contract.py:63-90 | Every integer survives encoding and decoding. |
| ScriptData.BytesRoundTrip | electrumsv/vault_contract.py:63-90 | Bytes survive decoding and encoding exactly when they are minimal. |
| ScriptData.DecodeIs | electrumsv/vault_contract.py:79-90 | Any bytes, minimal or not, decode to their little-endian value without the top bit of the last byte, which is the sign. |
| ScriptData.PushRoundTrip | electrumsv/vault_contract.py:40-118 | Wherever a push of any of the four forms stands in a script, reading there gives its data and the place after it. |
| ScriptData.PushHeader | electrumsv/vault_contract.py:40-49 | The header bytes on each range of sizes: the size up to 75, 4C and one byte, 4D and two, 4E and four. |
| ScriptData.PushShortest | electrumsv/vault_contract.py:40-49 | No header that reads back as the data is shorter than the one written. |
| ScriptData.EveryForm | electrumsv/vault_contract.py:92-118 | Each of the four forms is read at every size it can announce, the shortest or not. |
| ScriptData.PushRefused | electrumsv/vault_contract.py:92-118 | Reading fails exactly past the end, at an opcode above 4E, and at 4C without a size byte; otherwise the data is what stands behind the header, cut off at the end of the script. |
| VaultContract.BuildScript | electrumsv/vault_contract.py:208-216 | Splicing from the last slot to the first equals the forward concatenation of template and arguments. |
| VaultContract.ArgBytes | electrumsv/vault_contract.py:51-61 | The bytes of each kind of argument: 51 or 00 for a flag, 00 for the number 0, and the push of the data otherwise. |
| VaultContract.ParseScript | electrumsv/vault_contract.py:121-158 | The loop with its moving offsets is the walk along the template, with every failing exit. |
| VaultContract.ParsesExactly | electrumsv/vault_contract.py:93-158 | For a template with distinct slots in range a script parses exactly when it is the template with a readable push of the slot's kind in the place of each slot, to the values pushed there; only a push that ends the script may announce more than there is. |
| VaultContract.CutPushParses | electrumsv/vault_contract.py:93-158 | A template and a script whose last push announces two bytes and has one, which parses. |
| VaultContract.KindsExact | electrumsv/vault_contract.py:134-150 | A public key slot takes exactly the valid keys, an address slot exactly 20 bytes, an integer slot anything, and any other type nothing. |
| VaultContract.TemplateRoundTrip | electrumsv/vault_contract.py:121-216 | For any template with distinct slots in range, parsing the built script gives each argument back under its index. |
| VaultContract.FlagNotRead | electrumsv/vault_contract.py:52-118 | A true flag is written as an opcode the reader refuses; a false one reads as empty data. |
| VaultContract.BuildContract | electrumsv/vault_contract.py:200-216 | A negative fee limit is refused; otherwise the script is the template filled with the three terms. |
| VaultContract.ParseContract | electrumsv/vault_contract.py:121-176 | A script is a vault contract exactly when all three values are there with the right kind and the fee limit is not negative. |
| VaultContract.TermsExact | electrumsv/vault_contract.py:159-176 | The values make a contract exactly when there are two data values and a number that is not negative under the three indexes. |
| VaultContract.ContractRoundTrip | electrumsv/vault_contract.py:121-216 | A contract built from terms parses to those terms. |
| VaultContract.AdjustOffset | electrumsv/vault_contract.py:178-187 | The loop adds what the slots before the position grow by, in any order of the slots. |
| VaultContract.OffsetPointsAtByte | electrumsv/vault_contract.py:178-216 | For one argument list the relocated offset of any byte outside the slots points at that byte in the built script. |
| RawTransaction.Reader.Varint | electrumsv/vault_contract.py:420-432 | The reader with its offset reads a variable-length integer or fails when bytes are missing. |
| RawTransaction.ParseRawTx | electrumsv/vault_contract.py:411-458 | The loops over inputs and outputs compute the reading function, errors included. |
| RawTransaction.VarintAt | electrumsv/vault_contract.py:400-432 | Wherever an encoded integer stands, reading there gives it back and the place after it. |
| RawTransaction.VarintBytes | electrumsv/vault_contract.py:400-408 | The bytes of a variable-length integer on each of its four ranges. |
| RawTransaction.ScriptStands | electrumsv/transaction.py:617-623 | The script of an input, which parsing passes over, stands behind its outpoint and its size. |
| RawTransaction.ParseSerialized | electrumsv/transaction.py:617-623 | Parsing a serialised transaction, whatever follows it, recovers version, outpoints, sequences, outputs and lock time and consumes every byte, for any number of inputs and outputs. |
| RawTransaction.KeptExactly | electrumsv/vault_contract.py:434-458 | The numbers recovered are the transaction's own exactly when none is negative. |
| RawTransaction.TruncatedRefused | electrumsv/vault_contract.py:411-458 | A transaction cut short anywhere is refused, although single reads tolerate missing bytes. |
| RawTransaction.ParsedPackable | electrumsv/vault_contract.py:371-458 | Everything the parser returns can be packed again for the preimage. |
| RawTransaction.ScriptsDoNotMatter | electrumsv/vault_contract.py:371-398 | Transactions that differ only in their input scripts have the same preimages for every input. |
| RawTransaction.PreimageSigns | electrumsv/vault_contract.py:371-398 | The preimage reads back, field by field and with hash type 41, as that of the input at the index asked for, counted from the end when negative; any other index, and sizes out of range, fail. |
| RawTransaction.PrevoutsList | electrumsv/vault_contract.py:374-377 | The first hashed list holds the outpoint of every input at 36 times its position. |
| RawTransaction.SequencesList | electrumsv/vault_contract.py:378 | The second hashed list holds the sequence of every input at 4 times its position. |
| RawTransaction.PreimageCommits | electrumsv/vault_contract.py:371-398 | Equal preimages mean the same input, subscript and amount, and the same transaction unless the hash collides on one of the three lists. |
| HexNumbers.IntToHexBytes | electrumsv/bitcoin.py:55-69 | The padded and reversed hexadecimal text is the little-endian two's complement; exactly the numbers out of range are refused. |
| HexNumbers.VarIntIsVarint | electrumsv/bitcoin.py:72-81 | The two variable-length integer writers agree on every 64-bit length, and what each does elsewhere. |
| Benford.LeadingDigitOf | electrumsv/benford.py:68-72 | The scan over the decimal text finds its first digit that is not zero. |
| Benford.LeadingDigitIsDecade | electrumsv/benford.py:68-72 | A positive amount has a leading digit exactly when it lies in one of that digit's decades. |
| Benford.SmallestAmountWithDigit | electrumsv/benford.py:132-141 | The loop terminates with the least amount from the minimum on that starts with the digit. |
| Benford.ChooseBenfordAmount | electrumsv/benford.py:144-163 | The greatest amount within the bounds that starts with the digit, and None exactly when there is none. |
| Benford.FixedAmount | electrumsv/benford.py:183-213 | One turn succeeds exactly when the rest can be split, and leaves a rest that can be split. The amount starts with the digit whenever one up to the target does, and is then the greatest such; otherwise it is the lowest allowed. |
| Benford.BuildFixedAmounts | electrumsv/benford.py:177-215 | Exact feasibility: with two or more outputs it succeeds if and only if count * minimum <= total (and total <= count * maximum under a cap); every amount and the remainder lie within the bounds, and every amount is chosen by that rule from what the ones before it leave. |
| Benford.CountRespectsCap | electrumsv/benford.py:166-174 | The count is at least 2 and never violates the upper side, so a split under it fails exactly when count * minimum > total. |
| Benford.CountIs | electrumsv/benford.py:166-174 | The count by privacy level, no more than the value allows, and no less than 2 or what the cap takes. |
| Merkle.RootFromProof | electrumsv/network.py:217-227 | The loop returns the fold exactly for the indexes from 0 to 2^length - 1 and raises for all others. |
| Merkle.ComputeMerkleRoot | electrumsv/verification_utils.py:157-163 | The second loop computes the same fold on reversed bytes, for any position. |
| Merkle.VerifyMerkle | electrumsv/verification_utils.py:178-191 | The third accepts exactly when all texts are hexadecimal and the fold equals bytes 36 to 67 of the header. |
| Merkle.PositionsWrap | electrumsv/verification_utils.py:157-191 | The fold depends on the position modulo 2^length only. |
| Merkle.BranchReachesRoot | electrumsv/network.py:217-227 | Every leaf of every perfect tree folds to the root along its own branch. |
| Merkle.FoldInjective | electrumsv/network.py:217-227 | Two proofs at one position with one root are the same, or the hash collides on two strings hashed at the same level. |
| Merkle.ProofIsLeaf | electrumsv/network.py:217-227 | A proof of the tree's depth that reaches its root proves the leaf at that position, unless it exhibits such a collision. |
| Base43.BaseEncode | electrumsv/bitcoin.py:156-180 | The weighted sum, the digit loop, the padding and the reversal give the number in base 43 behind its leading zeros. |
| Base43.BaseDecode | electrumsv/bitcoin.py:183-208 | The same for decoding, with the error for a negative sum and None for a length that does not match. |
| Base43.Alphabet | electrumsv/bitcoin.py:152 | The characters, digit by digit. |
| Base43.DecodeUndoesEncode | electrumsv/bitcoin.py:156-208 | Decoding undoes encoding exactly for byte strings with a non-zero byte. |
| Base43.EncodeUndoesDecode | electrumsv/bitcoin.py:156-208 | Encoding undoes decoding exactly for strings over the alphabet with a non-zero digit. |
| Bip39.ChecksumValid | electrumsv/keystore.py:880-906 | The loop over popped words, the padded hexadecimal and the shifts compute the two answers. |
| Bip39.GroupsValue | electrumsv/mnemonic.py:93 | Groups of eleven bits are the base 2048 digits of the number the bits denote. |
| Bip39.GeneratedAccepted | electrumsv/mnemonic.py:73-95 | Every generated phrase is accepted as (True, True), for any entropy and any 32-byte hash, and the validator rebuilds the same entropy. |
| Bip39.AcceptedIsGenerated | electrumsv/keystore.py:880-906 | A phrase of 12 or 24 words is accepted exactly when some entropy generates it. |
| KeyAllocation.Keystore.AllocateIndexes | electrumsv/keystore.py:356-359 | The range handed out starts at the watermark, which moves to its end. |
| KeyAllocation.Wallet.CreateKeyInstances | electrumsv/wallet.py:2807-2820 | Rows get consecutive ids from the stored next id on. |
| KeyAllocation.Account.CreateAllocatedKeys | electrumsv/wallet.py:449-464 | Row and path of each allocated key enter the two dictionaries under the new ids. |
| KeyAllocation.Account.CreateKeys | electrumsv/wallet.py:444-447 | Creating keys is the creation step on values and keeps the account consistent; a count of zero or less changes nothing. |
| KeyAllocation.Account.CreateKeysUntil | electrumsv/wallet.py:432-442 | Exactly the keys up to the wanted derivation are created; one that exists is an error. |
| KeyAllocation.CreatedUntil | electrumsv/wallet.py:432-442 | The wanted derivation is then the last key and the watermark is behind it. |
| KeyAllocation.PathsDistinct | electrumsv/wallet.py:2266-2278 | No two keys of a consistent account share a derivation path. |
| KeyAllocation.RunConsistent | electrumsv/wallet.py:432-464 | Every run of creations, row updates, archivals and creations elsewhere keeps the account consistent. |
| KeyAllocation.NeverTwice | electrumsv/wallet.py:2266-2278 | Over every run ids strictly increase and no path is issued twice, archived keys included. |
| KeyAllocation.IndexesTile | electrumsv/keystore.py:356-362 | The indexes issued below a parent are exactly those between its first and last watermark. |
| KeyAllocation.TilesFromZero | electrumsv/keystore.py:356-362 | From a keystore that handed out nothing the indexes issued below a parent are those from 0 to below its watermark. |
| KeyAllocation.Account.GetExistingFreshKeys | electrumsv/wallet.py:2293-2305 | Filtering, sorting, taking while fresh and reversing give the run defined by counting ids down. |
| KeyAllocation.RunBelowIs | electrumsv/wallet.py:2293-2305 | That run is ascending and holds exactly the keys below the parent from which on every newer one is fresh. |
| KeyAllocation.FreshRunIs | electrumsv/wallet.py:2281-2305 | The run holds exactly the keys right below the parent from which on no such key has a script type, a payment request or an invoice. |
| KeyAllocation.CreatedExtendsRun | electrumsv/wallet.py:2281-2290 | New keys without a script type lengthen the run by exactly their ids. |
| KeyAllocation.Account.GetFreshKeys | electrumsv/wallet.py:2281-2290 | Afterwards at least count fresh keys follow the last used one; existing ones are returned first, and only the missing ones are created. |
| Cosigner.XTxInput.IsComplete | electrumsv/transaction.py:334-338 | Complete means no slots, or at least threshold filled ones. |
| Cosigner.XTxInput.UnusedXPubkeys | electrumsv/transaction.py:344-348 | The keys of the blank slots, none for a complete input. |
| Cosigner.Transaction.Sign | electrumsv/transaction.py:764-780 | Each incomplete input gets the signatures of the keys at hand in their slots; complete inputs and other slots are left alone. |
| Cosigner.SlotsHoldOwn | electrumsv/transaction.py:764-780 | After every sequence of calls a filled slot belongs to a key some call brought and holds what the signer makes of that key's secret and the digest, followed by 41. |
| Cosigner.FilledStays | electrumsv/transaction.py:764-774 | A slot filled at any point of a run keeps its signature to the end of the run. |
| Cosigner.CompleteWhenEnough | electrumsv/transaction.py:334-338 | In whatever order and grouping, the input is complete exactly when the calls together brought the keys of threshold slots (or there are no slots). |
| Cosigner.UnusedAreUnreached | electrumsv/transaction.py:344-348 | The keys still wanted are those no call has brought, in key order. |
| Cosigner.BareMultisignatures | electrumsv/transaction.py:455-466 | Filtering, cutting and the padding loop give the first threshold signatures present and then blanks. |
| Cosigner.BareInKeyOrder | electrumsv/transaction.py:455-466 | Exactly threshold entries, signatures in key order before blanks, and no blank exactly when enough slots are filled. |
| Cosigner.CompletedScript | electrumsv/transaction.py:455-466 | A completed input's script carries threshold entries in key order, each what the signer makes of one of its own keys' secrets and the digest, followed by 41. |

## Left out

- Networking, asyncio tasks, server choice, header download, user interface: input, output and timing.
- SQLite tables and the transaction cache: maps that agree with memory stand for them, also while writes are queued.
- The vault branch at electrumsv/wallet.py:1101-1138 repeats the modelled step with another way to find the owner.
- Frozen coins and keys, labels, callbacks, payment requests, contacts, exchange rates: shallow state; the frozen set is an argument of the balance.
- bitcoinx keys, scripts and serialisers, AES, PBKDF2, SHA-256, BIP 32 derivation, elliptic curve signing: arbitrary functions or not part of this model. The formats of inputs and outputs inside a serialised transaction follow the bitcoinx types that electrumsv/transaction.py imports.
- Random generation and primality testing at electrumsv/rsakey.py:135-268: primes and random numbers are arguments.
- SHA-1 prefixes at electrumsv/rsakey.py:297-335: fixed bytes put before a message of the modelled signature.
- Rsa.VerifyUnique: this and the other theorems about signing and encrypting are for keys of odd primes; RsaMath.StepExact has the prime 2.
- Rsa.SignThenVerify: the minimum of eight padding bytes in section 8.2.1 of RFC 8017 is not enforced by the code and not assumed.
- Account.AbstractAccount.ProcessKeyUsage: the vault branch is left out; script objects and addresses are compared as script bytes; key callbacks and the paid-request check are not part of this model.
- Account.AbstractAccount.RegisterUtxo: an unspent output is its value, key and coinbase flag; script, script type, address and the set of frozen coins are not part of this model.
- Account.AbstractAccount.CreateTransactionOutput: the same, and the row carries no frozen flag.
- Account.AbstractAccount.VisitOutput: distinct keys have distinct scripts, so that the code finds the owner whatever the order of the keys; the vault branch at electrumsv/wallet.py:1101-1138 and the callbacks are not part of this model.
- Account.AbstractAccount.RemoveTransaction: the restored output is rebuilt from its row and its key; the script template made for display and the set of frozen coins are not part of this model.
- Account.AbstractAccount.DeleteTransaction: the invoice link of the transaction and the callback are not part of this model.
- LedgerDeletion.DeletionsConserve: a removal that is not part of a deletion is not a step of these runs; Ledger.RemoveConserves has its exact condition.
- LedgerRuns.OrderIndependence: assumes what the account needs from outside: no double spends in the set, the history of each key recorded before and complete for the set, and no script shared by two keys.
- Migration.Conversion.VisitOutput: the script type set on the key row and the set of encountered addresses are not part of this model.
- Migration.ConversionExact: assumes no double spends and that an address parsed from an input is that of the output it spends, which decides whose key the code debits; Migration.ConversionTotals holds without either.
- Migration.MigrationAgrees: the same, through the declared ledger.
- Change.ChangeAmounts: the floating-point average is an exact rational rounded down, and the step of the estimate per change output is at most 1000000 satoshis with at most 500000 change outputs; the wallet asks for 10 at most, and the split only starts above 2000000 satoshis.
- Change.MakeTx: assumes the same of the fee estimator, at least one output and one change output; the bounds on the fee are for a positive dust threshold and an estimator that does not fall with size. The seed, which the code joins from the sorted coins, is an argument.
- Change.ChangeOutputs: an output is its value and its script; script type and keys are copied along and not part of this model.
- CoinChooser.BucketCandidates: the order in which a Python set is listed is an arbitrary order of it, so ties between equal penalties are decided by it; CoinChooser.ChoiceDetermined says what does not depend on it.
- Generator.Prng.Shuffle: that the draws are uniform is a matter of the hash and is not stated.
- VaultContract.BuildContract: key and address texts are taken as decoded bytes, and the artifact is any template.
- VaultContract.OffsetPointsAtByte: stated for one shared argument list; the caller at electrumsv/wallet.py:1760-1762 passes the whitelist as address text where the builder uses its hash.
- ScriptData.PushRoundTrip: data of 2^32 bytes or more cannot be announced and is excluded.
- Benford.BuildFixedAmounts: digits come from an arbitrary quantile function and targets from an arbitrary scaling, because both are floating point and clamped afterwards; the retry loop of the plan builder around it is not part of this model.
- Merkle.ProofIsLeaf: hashes of 32 bytes, as the wallet passes them; the code does not check lengths.
- Bip39.GeneratedAccepted: phrases are lists of words; joining and splitting at spaces, Unicode normalisation and loading the list of 2048 distinct words are not part of this model.
- KeyAllocation.RunConsistent: reloading an archived key from its table is not a step, because its code does not restore the path of the key; script caches filled for new keys are not part of this model.
- Cosigner.Transaction.Sign: the digest of an input does not change while it is signed (its preimage does not depend on scripts); the hardware path that finds the slot by public key recovery is not part of this model.
- Cosigner.CompletedScript: pushes and the other script types built from the same slots are not part of this model.
- PKCS7 padding, the old mnemonic word codec and the selection filter by age and value: easy members.
