# Verified core of bitcoind-rs

This project models the parts of bitcoind-rs whose correctness is hardest to see
from the code, in Dafny, and proves what they promise for every input, every
schedule and every run.

- **ASMap** (`Bits`, `PrefixCode`, `AsMapTrie`, `AsMapTable`, `AsMapLayout`,
  `AsMapDecode`, `AsMapChecker`, `AsMapInterpreter`, `AsMapExamples`). A program is
  a bit stream laying out a binary trie, and a trie is a table of address prefixes.
  The sanity check accepts exactly the layouts of admissible tries plus at most
  seven zero bits, the trie is unique, and running an accepted program answers
  every address by its longest prefix in the table.
- **Fee estimator** (`FeeRing`, `FeeLedger`, `FeeScan`, `FeeAverages`, `FeeSearch`,
  `FeeEstimate`, `FeeStats`, `FeeModel`, `FeeRuns`, `FeeHistory`, `FeeEstimator`).
  The estimator object is proved against a value model, and the model is
  followed over every run of its operations: counters against the tracked map,
  averages against the history of confirmations, estimates against the grouping
  they are meant to find.
- **MuHash3072** (`ModularArithmetic`, `MuHash`). The accumulator is a
  homomorphism from operation multisets, and its value depends on net
  multiplicities only. Fermat's little theorem is proved along the way.
- **Nonce grinder** (`Grinder`). Every interleaving of the workers ends with the
  right answer.
- **Coinbase Merkle path** (`CoinbaseMerkle`), **base32 and endpoints** (`Base32`,
  `Endpoint`), and **Electrum serving** (`ElectrumSession`, `ElectrumOutput`,
  `ElectrumPaths`, `ElectrumListing`, `ElectrumBalance`).

`Arithmetic` and `Bits` hold shared facts. Hash functions, key streams, checksums,
JSON rendering and chain lookups are parameters, so the results hold for all of
them. `dafny verify dfyconfig.toml` checks everything.

Four promises turn out to have a precise limit, and the model states it:

- A block keeps the ring counters in agreement with the tracked map exactly when
  every tracked transaction that outgrows the ring at its height is in the slot it
  clears (`FeeLedger.BlockAgreesIff`); the next height always does. After a gap the
  overflow row can be minus one (`FeeLedger.GapGoesNegative`). Conservation and
  non-negative ring counters survive gaps.
- Where the counters agree, the waiting-transaction scan is a plain count unless
  the chain is shorter than the ring, the target below its size, and something
  entered at height zero, which the saturated heights then count again
  (`FeeScan.ScanCounts`, `FeeScan.ScanIsCountIff`, over runs
  `FeeRuns.WaitingIsCounted`). `FeeScan.HeightZeroCountedAgain` shows one transaction
  that has not waited counted once for every age from the target up.
- Inserting and removing an element of MuHash cancels unless the element is a
  multiple of the modulus and the value was not zero (`MuHash.InsertRemoveCancels`,
  for the returned hash `MuHash.HashCancels`).
- The batched subscription path writes what the serial one would. It also processes
  the same requests exactly when all replies but the last fit the output limit
  (`ElectrumPaths.SameRequestsIff`), and leaves the same connection exactly when every
  request behind the serial stop whose status is available was stored before
  (`ElectrumPaths.SameConnectionIff`). `ElectrumPaths.PathsPart` shows two subscriptions
  of which the serial path would store one and the batched path stores both.

## Model

| member | source | states |
|---|---|---|
| PrefixCode.ReadBitLe | src/asmap.rs:87-92 | the bit of the little-endian stream at the position, nothing past its end |
| PrefixCode.ReadBitBe | src/asmap.rs:94-99 | the bit of the big-endian address at the position, nothing past its end |
| PrefixCode.StreamByte | src/asmap.rs:87-92 | eight stream bits, last to first, are the byte in binary |
| PrefixCode.AddressByte | src/asmap.rs:94-99 | eight address bits, in order, are the byte in binary |
| PrefixCode.DecodeBits | src/asmap.rs:101-121 | returns the number whose codeword stands at the position, and fails exactly when none does; for every code whose numbers fit 32 bits, as all four do, the checked additions never overflow |
| PrefixCode.ReadOffset | src/asmap.rs:113-118 | the offset bits of a size class, read most significant first and added to the class's first number |
| PrefixCode.ReadsUnique | src/asmap.rs:101-121 | a position holds at most one codeword |
| PrefixCode.CodewordsPrefixFree | src/asmap.rs:101-145 | no codeword is a prefix of another |
| PrefixCode.CodewordsInOrder | src/asmap.rs:101-145 | codewords are ordered, bit by bit, like the numbers they stand for |
| AsMapTrie.TypeTotal | src/asmap.rs:123-125 | with minimum 0, the opcode code has exactly the numbers 0 to 3 |
| AsMapTrie.AsnTotal | src/asmap.rs:127-129 | with minimum 1, the ASN code has exactly the numbers 1 to 33521664 |
| AsMapTrie.MatchTotal | src/asmap.rs:131-133 | with minimum 2, the match code has exactly the numbers 2 to 511 |
| AsMapTrie.JumpTotal | src/asmap.rs:135-145 | with minimum 17, the jump code has exactly the numbers 17 to 2147483632, inside 32 bits |
| AsMapTrie.AdmissibleIsShallow | src/asmap.rs:229-258 | a trie the check admits for a number of address bits never needs more of them |
| AsMapTable.EntryUnique | src/asmap.rs:147-182 | a prefix has one answer in the table of a trie |
| AsMapTable.LookupIsLongest | src/asmap.rs:147-182 | looking an address up gives the entry with the longest prefix of it, at every bit and for every default |
| AsMapTable.LongestMatchUnique | src/asmap.rs:147-182 | an address has at most one such answer |
| AsMapTable.EntryLength | src/asmap.rs:229-258 | no prefix in the table is longer than the address bits allowed |
| AsMapTable.AdmissibleIff | src/asmap.rs:197-267 | the rules beyond the layout, node by node: enough address bits, no default before a return or a default, no short match before a short match |
| AsMapExamples.ReturnOneIsMap | src/asmap.rs:305-309 | three zero bytes are the program that returns ASN 1 |
| AsMapExamples.BranchIsMap | src/asmap.rs:147-272 | the six bytes of a jump over one return to another are accepted as that trie |
| AsMapExamples.MatchOneIsMap | src/asmap.rs:147-272 | the six bytes of a default, a match and a return are accepted as that trie |
| AsMapExamples.FirstBitDecides | src/asmap.rs:147-182 | both longer programs answer 2 for addresses that start with a one bit and 1 for the others |
| AsMapDecode.DecodeType | src/asmap.rs:123-125 | an opcode below four exactly when its codeword stands there |
| AsMapDecode.DecodeAsn | src/asmap.rs:127-129 | an ASN exactly when its codeword stands there |
| AsMapDecode.DecodeMatch | src/asmap.rs:131-133 | a pattern of one to eight bits behind a leading one, exactly when its codeword stands there |
| AsMapDecode.DecodeJump | src/asmap.rs:135-145 | a jump distance exactly when its codeword stands there |
| AsMapLayout.TrieUnique | src/asmap.rs:147-182 | a position holds the layout of at most one trie |
| AsMapChecker.StepReturn | src/asmap.rs:199-222 | a return is well formed exactly when it follows no default and either ends the program with at most seven zero bits or ends where the innermost pending branch starts, which then continues |
| AsMapChecker.StepJump | src/asmap.rs:223-242 | a jump is well formed exactly when an address bit is left, its target lies in the stream and before the enclosing target, and the zero branch and then the pending one branch are |
| AsMapChecker.StepMatch | src/asmap.rs:243-261 | a match is well formed exactly when its pattern fits the remaining address bits, it is not a second short match in a row, and the rest is well formed |
| AsMapChecker.StepDefault | src/asmap.rs:262-267 | a default is well formed exactly when it does not follow a default and the rest is well formed |
| AsMapChecker.SanityCheck | src/asmap.rs:184-272 | accepts exactly the layouts of admissible tries followed by at most seven zero bits |
| AsMapInterpreter.MatchAddress | src/asmap.rs:164-175 | the bit-by-bit comparison succeeds exactly when the pattern equals the address bits |
| AsMapInterpreter.Interpret | src/asmap.rs:147-182 | on every program starting with the layout of a trie at most 128 deep, answers every address with the entry of the trie's table whose prefix of the address is longest, which is the recursive lookup; on any program a result is an ASN in range or zero |
| AsMapInterpreter.SaneRuns | src/asmap.rs:147-272 | an accepted program runs on every address: no path needs a 129th bit |
| AsMapInterpreter.SaneUnique | src/asmap.rs:184-272 | an accepted program is the layout of exactly one trie |
| AsMapInterpreter.AcceptedPrefixFree | src/asmap.rs:184-272 | no accepted byte string is a proper prefix of another |
| AsMapInterpreter.LookupRange | src/asmap.rs:147-182 | a lookup answers with an ASN in range or with the default it was given |
| AsMapInterpreter.FromBytes | src/asmap.rs:42-52 | loads exactly the non-empty programs the check accepts |
| AsMapInterpreter.MappedAsIp | src/asmap.rs:74-84 | the answer of the longest prefix of the address, IPv4 embedded in IPv6, zero meaning unmapped |
| FeeAverages.BucketIndex | src/fee_estimator.rs:206-211 | the first bucket whose boundary is not below the rate, else the last; for a positive rate up to the last boundary its bounds enclose it |
| FeeRing.EnterKeepsExcess | src/fee_estimator.rs:233-238 | away from the 32-bit limits, tracking moves no counter away from its count |
| FeeRing.LeaveKeepsExcess | src/fee_estimator.rs:254-267 | away from the 32-bit limits, removal moves no counter away from its count |
| FeeRing.AdvanceSlots | src/fee_estimator.rs:213-220 | clearing makes its slot exact; every other slot keeps the entries that outgrew it |
| FeeRing.AdvanceAgreesIff | src/fee_estimator.rs:213-220 | a cleared slot keeps counters and map in agreement exactly when no ageing transaction is skipped |
| FeeRing.NextBlockSkipsNothing | src/fee_estimator.rs:213-220 | the block at the next height never skips an ageing transaction |
| FeeLedger.RunIsSound | src/fee_estimator.rs:213-275 | over every event sequence with at most 2^31 - 1 trackings, gaps included, counts are conserved and ring counters non-negative |
| FeeLedger.EventAgrees | src/fee_estimator.rs:233-275 | tracking and removal keep counters and map in agreement |
| FeeLedger.BlockAgreesIff | src/fee_estimator.rs:582-604 | a block with its confirmations keeps agreement exactly when no tracked transaction outgrows the ring in another slot |
| FeeLedger.GapGoesNegative | src/fee_estimator.rs:254-263 | after a height gap the overflow row can be minus one |
| FeeScan.ScanCounts | src/fee_estimator.rs:317-322 | the scan is the number of waiting transactions plus those of height zero once per underflowing age |
| FeeScan.ScanIsCountIff | src/fee_estimator.rs:317-322 | the exact condition under which the scan is the plain count |
| FeeScan.HeightZeroCountedAgain | src/fee_estimator.rs:317-322 | after one tracking at height zero nothing has waited, and the scan for a target counts ring size minus target |
| FeeAverages.DecayedPlausible | src/fee_estimator.rs:222-231 | decay keeps fee sums inside their bucket and rows ordered |
| FeeAverages.RecordedPlausible | src/fee_estimator.rs:240-252 | a confirmation keeps fee sums inside their bucket and rows ordered |
| FeeAverages.AbandonedPlausible | src/fee_estimator.rs:268-274 | a failure keeps fee sums inside their bucket and rows ordered |
| FeeSearch.CutsTile | src/fee_estimator.rs:307-362 | the greedy groups tile the buckets from the top; each meets the sufficiency bound and the threshold and met the threshold at no check before; below the last one no check meets it |
| FeeSearch.ChecksAreTight | src/fee_estimator.rs:314-326 | the threshold is checked as soon as there are enough transactions since the check before, and never below the last check |
| FeeSearch.GroupBottomIsFirst | src/fee_estimator.rs:333-361 | a group ends at the first check that meets the threshold, and there is no group exactly when no check does |
| FeeSearch.LastGroupIsGroup | src/fee_estimator.rs:348-361 | the range that is kept is the last complete group |
| FeeSearch.PassesIff | src/fee_estimator.rs:327-333 | the threshold is met exactly when the transactions confirmed in time are at least that share of those confirmed, failed and waiting |
| FeeSearch.MedianBalances | src/fee_estimator.rs:370-380 | at most half of the transactions are in buckets below the median bucket and at most half above |
| FeeEstimate.FailBelowPass | src/fee_estimator.rs:333-347 | for a positive sufficiency bound the failing range ends where the passing one starts, is absent only if that is the bottom, and reaches the top when nothing passes |
| FeeEstimate.PassMeetsRules | src/fee_estimator.rs:323-361 | the reported sums: enough transactions confirmed, and those in time at least the threshold's share of all confirmed, failed and waiting |
| FeeEstimate.FailMissesRules | src/fee_estimator.rs:333-401 | a failing range with enough transactions misses the threshold, one with too few reaches the bottom |
| FeeEstimate.PassIsReported | src/fee_estimator.rs:313-390 | the reported range has the boundaries of its buckets and the sums of the target's rows over them; the rate is the average of a bucket with at most half of the weight on either side |
| FeeEstimate.RangesAreShares | src/fee_estimator.rs:313-316 | no range reports more in-time confirmations than confirmations |
| FeeEstimate.EstimateInRange | src/fee_estimator.rs:364-390 | for a positive sufficiency bound and plausible averages a rate is found exactly when a group is, and lies inside its range |
| FeeStats.ConfirmStats.constructor | src/fee_estimator.rs:126-138 | zero averages and a zero ring of periods times scale slots |
| FeeStats.ConfirmStats.ClearCurrent | src/fee_estimator.rs:213-220 | the loop moves one slot into the overflow row and touches nothing else |
| FeeStats.ConfirmStats.UpdateMovingAverages | src/fee_estimator.rs:222-231 | the nested loops scale every average once |
| FeeStats.ConfirmStats.NewTransaction | src/fee_estimator.rs:233-238 | one count more in the slot of the height |
| FeeStats.ConfirmStats.RecordConfirmation | src/fee_estimator.rs:240-252 | adds to the rows of long enough targets, and nothing for zero blocks |
| FeeStats.ConfirmStats.RemoveTransaction | src/fee_estimator.rs:254-275 | takes the count from slot or overflow row and, outside blocks, adds failures |
| FeeStats.ConfirmStats.CountWaiting | src/fee_estimator.rs:317-322 | the inner loop is the scan over ages |
| FeeStats.ConfirmStats.FindMedian | src/fee_estimator.rs:370-380 | the average rate, if non-negative, of the first bucket at which half of the weight is reached; that bucket has positive weight, so nothing is divided by zero |
| FeeStats.ConfirmStats.SearchBuckets | src/fee_estimator.rs:292-362 | the accumulator loop finds the last greedy group, its sums and the failing range below it |
| FeeStats.ConfirmStats.Estimate | src/fee_estimator.rs:277-407 | unusable arguments estimate nothing; otherwise the grouping's estimate |
| FeeStats.PeriodInRange | src/fee_estimator.rs:289-290 | a usable target has a row |
| FeeRuns.RunFollows | src/fee_estimator.rs:527-625 | each horizon of the whole estimator follows the one-ring ledger over every run |
| FeeRuns.HorizonParameters | src/fee_estimator.rs:449-455 | which horizon has which number of periods, blocks per period and decay |
| FeeRuns.EveryRunConserves | src/fee_estimator.rs:527-625 | over every run with at most 2^31 - 1 trackings, even with height gaps, ring plus overflow row count each tracked transaction of a bucket once, in all horizons |
| FeeRuns.EveryContiguousRunAgrees | src/fee_estimator.rs:527-625 | over every run without height gaps and with at most 2^31 - 1 transactions tracked at a time, each slot counts its young transactions and the overflow row the others |
| FeeRuns.WaitingIsCounted | src/fee_estimator.rs:317-322 | on such runs the waiting amount is the number of transactions that waited long enough exactly when the chain is as long as the ring, the target is the ring size, or nothing tracked in the bucket entered at height zero |
| FeeRuns.EveryRunPlausible | src/fee_estimator.rs:582-625 | over every run and in all horizons fee sums lie inside their buckets, rows are ordered, and no row counts more confirmations than there were |
| FeeRuns.EveryEstimateInRange | src/fee_estimator.rs:277-407 | over every run, for a positive sufficiency bound, a rate is found exactly when a range passes, lies inside it, and the reported sums are the range's and meet the threshold |
| FeeHistory.RowTakesConfirmation | src/fee_estimator.rs:244-249 | below the 32-bit limit, a row takes a confirmation exactly when it came within the row's number of blocks |
| FeeHistory.RowTakesFailure | src/fee_estimator.rs:268-273 | a row takes a failure exactly when it lasted at least the row's number of blocks |
| FeeHistory.EveryRunExplained | src/fee_estimator.rs:222-275 | over every run each average is the decayed number of confirmations or failures by blocks waited |
| FeeHistory.RowOfTarget | src/fee_estimator.rs:289-290 | the row of a target stands for the target rounded up to whole periods |
| FeeHistory.EveryCellExplained | src/fee_estimator.rs:307-316 | over every run what an estimate reads for a target are the decayed numbers of confirmations within it, of all confirmations and of failures after as long |
| FeeEstimator.DefaultBuckets | src/fee_estimator.rs:865-874 | ascending boundaries from 100 in steps of five percent, the last of them at most ten million and its successor above, then one no 64-bit fee reaches |
| FeeEstimator.FeeEstimator.constructor | src/fee_estimator.rs:449-465 | a fresh state with the three horizons' scales, decays and ring sizes |
| FeeEstimator.FeeEstimator.TrackMempoolEntry | src/fee_estimator.rs:527-556 | a new entry at the best height with a fee of at least a thousandth per byte, not a coinbase, is tracked in all horizons with its bucket and rate; otherwise nothing changes |
| FeeEstimator.FeeEstimator.RemoveFromMempool | src/fee_estimator.rs:558-580 | removes a tracked entry from the map and all horizons, or changes nothing |
| FeeEstimator.FeeEstimator.ProcessBlock | src/fee_estimator.rs:582-625 | ignores old heights; otherwise ages, decays and confirms in order, forgets the confirmed, and records the first height that confirmed anything |
| FeeEstimator.FeeEstimator.ConfirmEach | src/fee_estimator.rs:593-621 | confirms the listed transactions in order, repeated and unknown ones once or not at all, and says whether any was tracked |
| FeeEstimator.FeeEstimator.FlushUnconfirmed | src/fee_estimator.rs:857-862 | removes every tracked transaction as a sequence of removals |
| FeeEstimator.FeeEstimator.EstimateFor | src/fee_estimator.rs:665-711 | the estimate of the chosen horizon |
| ModularArithmetic.Fermat | src/muhash.rs:73-76 | Fermat's little theorem for a prime modulus |
| ModularArithmetic.InverseByPower | src/muhash.rs:74-75 | the power p - 2 is the inverse |
| MuHash.Modulus | src/muhash.rs:21-24 | the modulus is 2^3072 minus 1103717 |
| MuHash.RunIsProducts | src/muhash.rs:55-64 | numerator and denominator are the products of inserted and removed elements |
| MuHash.CombineIsConcat | src/muhash.rs:67-70 | combining two accumulators is accumulating both sequences |
| MuHash.OrderDoesNotMatter | src/muhash.rs:1-7 | any reordering gives the identical numerator and denominator |
| MuHash.InsertRemoveCancels | src/muhash.rs:55-76 | inserting and removing an element, at any places and in either order, leaves the value unchanged exactly when the element is a unit or the value is zero |
| MuHash.NetEffect | src/muhash.rs:26-30 | for elements that are units, the value depends only on how often each was inserted minus removed |
| MuHash.SerialisedExactly | src/muhash.rs:77-78 | the 384-byte form never truncates and determines the value |
| MuHash.HashIsValue | src/muhash.rs:73-86 | equal values have equal hashes, and under a collision-free digest only they do |
| MuHash.HashIgnoresOrder | src/muhash.rs:1-7 | any reordering of insertions and removals gives the same hash |
| MuHash.HashCancels | src/muhash.rs:55-86 | inserting and removing an element leaves the hash unchanged if the element is a unit or the value is zero, and under a collision-free digest only then |
| MuHash.HashIsNet | src/muhash.rs:26-30 | for elements that are units, the hash depends only on net multiplicities |
| MuHash.MuHash3072.constructor | src/muhash.rs:37-44 | one over one |
| MuHash.MuHash3072.InsertElement | src/muhash.rs:55-58 | multiplies the numerator |
| MuHash.MuHash3072.RemoveElement | src/muhash.rs:61-64 | multiplies the denominator |
| MuHash.MuHash3072.CombineWith | src/muhash.rs:67-70 | multiplies both parts |
| MuHash.MuHash3072.Finalize | src/muhash.rs:73-86 | the digest of exactly the value's 384 bytes, byte for byte in reverse; the value can be read back from them |
| Grinder.StepInv | src/bitcoin_util.rs:129-144 | every atomic step of every worker keeps the invariant |
| Grinder.StepProgress | src/bitcoin_util.rs:129-144 | every step of a worker that has not returned lowers the remaining work |
| Grinder.EveryScheduleAnswers | src/bitcoin_util.rs:115-157 | once all workers have returned, under any schedule and worker count, the flag is set exactly when some 32-bit nonce meets the target, and the cell then holds one, stored exactly once |
| Grinder.SchedulesEnd | src/bitcoin_util.rs:129-151 | every schedule of working workers has bounded length |
| Grinder.Grind | src/bitcoin_util.rs:115-157 | the search under an arbitrary scheduler ends with the right answer |
| CoinbaseMerkle.HashPairs | src/ipc.rs:515-522 | every node is the hash of its two neighbours, an odd last one of its node twice |
| CoinbaseMerkle.OddLastTwice | src/ipc.rs:515-522 | an odd layer has the root of the layer with its last node twice |
| CoinbaseMerkle.RootOfHalves | src/ipc.rs:515-522 | the root of two full halves is the hash of their roots, left before right, and one node is its own root |
| CoinbaseMerkle.CoinbaseMerklePath | src/ipc.rs:500-527 | folding any coinbase with the path gives the root of the block with that coinbase; the path is as long as the tree is deep |
| CoinbaseMerkle.AuthenticatesReplaced | src/ipc.rs:936-954 | the path does not depend on the coinbase |
| CoinbaseMerkle.FoldInjective | src/ipc.rs:500-527 | if hashing with a fixed right node is injective, a root and path fix the coinbase |
| CoinbaseMerkle.BlockTemplate.SubmitSolution | src/ipc.rs:936-954 | replaces the coinbase, version, time and nonce and keeps parent and target; the new root is the fold of the new coinbase with a path handed out before |
| Base32.Base32Encode | src/address.rs:539-563 | the bit-buffer loop computes the lower-case base32 text |
| Base32.EmitQuints | src/address.rs:547-550 | the inner loop moves the buffered bits to the output in order until fewer than five are left |
| Base32.Base32Decode | src/address.rs:565-591 | finds the bytes a text encodes in either case, and fails exactly when there are none |
| Base32.EncodedIs | src/address.rs:539-563 | base32 is a change of base: the letters, read as base 32 digits of the alphabet, are the bytes' number shifted to whole digits, and their number is 8n/5 rounded up |
| Base32.LettersAre | src/address.rs:540-574 | the letters are the alphabet's, read in either case |
| Base32.DecodedLower | src/address.rs:565-591 | decoding ignores the case of letters |
| Base32.EncodesUnique | src/address.rs:539-591 | five-bit groups and the bytes they encode determine each other |
| Base32.DecodeEncoded | src/address.rs:539-591 | decoding an encoding gives the bytes back |
| Base32.EncodeDecoded | src/address.rs:539-591 | encoding a decoding gives the lower-case text back |
| Endpoint.AddrV2RoundTrip | src/address.rs:44-96 | an endpoint survives its BIP155 pair exactly when it is no host name, has a port unless it is I2P, and has the 0xfc prefix if it is CJDNS |
| Endpoint.AddrV2Inverse | src/address.rs:44-96 | every accepted pair is the pair of its endpoint |
| Endpoint.FollowsBip155 | src/address.rs:44-96 | pairs are read and written by the network ids and address lengths of BIP155, with the exact conditions on port and prefix |
| Endpoint.HostRoundTrip | src/address.rs:231-378 | every Tor and I2P endpoint survives its host string exactly when its port is not zero or it is I2P |
| Endpoint.HostForm | src/address.rs:231-537 | host strings are the base32 label of the address before the network's suffix; for Tor v3 of key, two bytes of the SHA3-256 of prefix, key and version, and version |
| Endpoint.ParsedIsHost | src/address.rs:341-378 | every accepted Tor or I2P entry is, up to case and suffix, the host string of its endpoint |
| Endpoint.ParseIff | src/address.rs:341-378 | an entry parses to an endpoint exactly when the endpoint is of that network, has a valid port, and has the entry, without suffix and in lower case, as its host |
| ElectrumSession.NegotiatesGreatest | src/electrum.rs:1245-1304 | negotiation succeeds exactly when the client's range and the supported one meet, and picks the greatest common version |
| ElectrumSession.ClientRangeIff | src/electrum.rs:1245-1278 | the range asked for: two versions in an array, one in an array or by itself, and 1.4 if absent or null |
| ElectrumSession.NegotiationLaw | src/electrum.rs:1245-1304 | the law on the parameters: success exactly when name and version are well formed and some supported version is in the range asked for, and then the greatest is set and answered |
| ElectrumSession.VersionByName | src/electrum.rs:1091-1111 | server.version takes name and version by their names, with absent and null the same |
| ElectrumSession.VersionByPosition | src/electrum.rs:1079-1090 | server.version takes name and version by position and ignores further parameters |
| ElectrumSession.NewMethodsRefused | src/electrum.rs:858-865 | a method newer than the session's version is refused and changes nothing |
| ElectrumSession.NotifiedOnSuccess | src/electrum.rs:784-789 | header and block number notifications start with the first successful subscription |
| ElectrumSession.AnswersAreResponses | src/electrum.rs:757-797 | every answer is a 2.0 response to the request's identifier with either a result or an error, and only calls without identifier get none |
| ElectrumSession.ErrorCodes | src/electrum.rs:799-830 | the error code of every failure |
| ElectrumSession.DispatchSession | src/electrum.rs:849-867 | only a first successful server.version changes the session |
| ElectrumSession.ProcessKeepsLive | src/electrum.rs:749-797 | a request keeps the session invariant; before negotiation only server.version is dispatched |
| ElectrumSession.ServeKeepsLive | src/electrum.rs:749-797 | over every request sequence an open session is live, and a negotiated one never changes |
| ElectrumSession.ServeNegotiates | src/electrum.rs:749-797 | a session that became negotiated did so at one server.version request of the sequence, with that request's greatest common version |
| ElectrumSession.SessionProtocol | src/electrum.rs:749-797 | on a new connection nothing else is dispatched before negotiation; the version is the greatest common one of the request that negotiated it; nothing is fatal or renegotiated after it |
| ElectrumSession.ProcessSubscription | src/electrum.rs:749-917 | on a negotiated session a well-formed subscription stores the status under its hash and answers it, a failed status stores nothing, a notification answers nothing |
| ElectrumSession.SubscriptionIff | src/electrum.rs:562-582 | exactly the calls with one parameter of 64 hexadecimal digits, by position or name, are subscriptions, to these in lower case |
| ElectrumSession.LowerHexIs | src/electrum.rs:2642-2648 | lower case keeps every digit's value |
| ElectrumSession.SubscriptionBatch | src/electrum.rs:552-612 | applies exactly to batches of well-formed subscriptions, and then gives the replies and subscriptions of the serial path, notifications, errors and repeated hashes included |
| ElectrumOutput.AppendBatchResponse | src/electrum.rs:682-702 | appends exactly when closing bracket and newline still fit |
| ElectrumOutput.EncodeBatch | src/electrum.rs:668-680 | the ordered bracketed join when it fits the limit, the error array otherwise |
| ElectrumOutput.JoinedParts | src/electrum.rs:668-702 | a batch's line byte by byte: brackets around the responses in order, a comma between neighbours |
| ElectrumOutput.HandleSerially | src/electrum.rs:491-523 | processes requests up to the first that closes the connection or whose response exceeds the limit, or all; unless closed, writes what the full serial replies would give |
| ElectrumOutput.WriteReplies | src/electrum.rs:476-523 | the bracketed join of the bounded replies, nothing if all are silent, the error array past the limit |
| ElectrumOutput.FastIsNeverFatal | src/electrum.rs:552-612 | a batch of well-formed subscriptions changes no session and closes no connection |
| ElectrumOutput.HandleBatch | src/electrum.rs:454-524 | both paths write the same line; the serial one stops at the first request that closes the connection or exceeds the limit, the batched one processes everything |
| ElectrumPaths.StopsAtUnique | src/electrum.rs:491-513 | the place where the serial path stops is determined by the replies |
| ElectrumPaths.SameRequestsIff | src/electrum.rs:464-513 | for a batch of subscriptions both paths process the same requests exactly when no proper prefix of the replies exceeds the limit, that is, when all but the last fit |
| ElectrumPaths.SameConnectionIff | src/electrum.rs:464-513 | both paths leave the same connection exactly when every request behind the serial stop whose status is available was already stored with it |
| ElectrumPaths.PathsPart | src/electrum.rs:464-513 | two subscriptions with large responses: the second is stored by the batched path only |
| ElectrumBalance.ConfirmedUnspentForScript | src/electrum.rs:2482-2555 | lists once each, in chain order and with their values, the outputs of the script in its history that are unspent or unspendable; fails exactly on too long a history |
| ElectrumBalance.InputValueForScript | src/mempool.rs:1239-1247 | the recorded input values of a script are the total of the outputs it spends |
| ElectrumBalance.SpentAreOwned | src/electrum.rs:2579-2618 | what entries spend of a script is among its confirmed and unconfirmed outputs, which are disjoint |
| ElectrumBalance.BalanceForScript | src/electrum.rs:2557-2577 | confirmed and unconfirmed balances, which add up to the unspent outputs' total; fails exactly on too long a history or too many entries |
| ElectrumBalance.UnspentForScript | src/electrum.rs:2579-2640 | the outputs of the script that are unspent or unspendable in the chain, in chain order with their heights, then the mempool's entry by entry with height zero, without those any mempool entry spends; each once with its value, adding up to the balance; fails exactly on too long a history, too many entries or too large a rendered list |
| ElectrumBalance.ListingIsUnspent | src/electrum.rs:2579-2619 | such a list holds every unspent output once with its value, and its sum is the unspent total |
| ElectrumBalance.UnspentIff | src/electrum.rs:2579-2618 | an output is listed exactly when it belongs to the script, stands in mempool or chain, and no entry spends it, whatever the indexes |
| ElectrumListing.InsertSorted | src/electrum.rs:2598-2604 | putting an output at its place keeps the order by height, block position, transaction and output |
| ElectrumListing.SortedIs | src/electrum.rs:2598-2604 | the order: height, then block position, then transaction, then output |
| ElectrumListing.FitsPayload | src/electrum.rs:2620-2638 | the running size check accepts exactly the lists whose whole rendering fits, and the empty one |
| ElectrumListing.PayloadIs | src/electrum.rs:2620-2638 | the size of a list: two brackets, its entries and a comma between neighbours |
| ElectrumBalance.BalanceAgreement | src/electrum.rs:2557-2619 | for every script the unspent total is confirmed plus unconfirmed balance |

## Left out

- AsMapInterpreter.Interpret: says only that a result is in range about programs that lay out no trie, because loading admits none.
- Floating-point rounding in the fee estimator: rates and averages are reals, which are always finite.
- Loading and saving fee estimates, file age and `estimate_smart_fee`'s choice among horizons: the runs start from a fresh estimator.
- Machine widths other than the 32-bit counters and code values: heights, positions and amounts are unbounded, so no stream is longer than the address space and no balance exceeds 64 bits.
- The contents of SHA-256, ChaCha20, SHA3 and transaction ids, and the primality of the MuHash modulus: parameters and a hypothesis.
- The rest of `submit_solution`: decoding the coinbase and connecting the block. The library's Merkle root is taken to be the pairwise root with an odd node duplicated.
- Decoding and encoding the grinder's header, and a worker that panics. Weak memory effects in the grinder: each atomic access is one indivisible step.
- Text forms of IP addresses and host names, and manual endpoint parsing: delegated to the standard library or easy beside the rest.
- Electrum methods other than version negotiation, script-hash subscription, balance and unspent list, and notifications and timers: parameters of the model or easy beside the rest.
- The byte order of transaction identifiers in the first sort of confirmed outputs: both sorts compare identifiers as displayed, which decides only between transactions at one place of one block.
- Races between chain and mempool reads in Electrum queries: each query, and each batch of status reads, sees one consistent view.
- Chain validation, mempool admission, peer-to-peer networking, storage, RPC and configuration: not part of this model.
- ElectrumBalance.BalanceAgreement: assumes what the node maintains: complete script indexes, resolved input values, a mempool without conflicts whose entries are unconfirmed and spend existing outputs, and one transaction per txid.
- FeeRuns.EveryRunConserves: says nothing past 2^31 - 1 trackings, where a counter may saturate.
