# Agent Evidence Level checker: a verified model

The reference checker grades signed, hash-chained agent logs from AEL-0 to AEL-4,
reports on the governability of recorded actions, and packages an evaluation so
that a reader can validate it later. This project models that logic in Dafny and
proves what a grade, a coverage report and an accepted package mean.

SHA-256, Ed25519, base64 and JSON decoding of payloads are uninterpreted functions
(`Records.World`, `Gov.Setting`, `AnchorBuilder.Publisher`). No hash axiom is used: every
hash theorem ends in "or here is a collision" between two finite sets of byte
strings that were actually presented. Times are integer nanoseconds, directories
are maps from path to bytes, and Go's 64-bit arithmetic is written out where it
matters.

| modules | what they cover |
|---|---|
| `Basics`, `Records`, `Merkle`, `Evidence` | bytes, records and their staged flags, Merkle trees, and what every check of the table means |
| `Checker`, `UpperChecks`, `Grading` | the loops that decide the checks, and the grade |
| `Chain`, `Anchoring`, `TreeBinding`, `Rungs`, `RungMeanings`, `UpperRungs` | theorems about histories, anchors, roots, and what each rung says |
| `Wire`, `WireWords`, `Producer`, `AnchorBuilder`, `AnchorWords`, `Completeness`, `StringSort` | payloads on the wire, the honest producer, and the rungs an honestly produced run earns |
| `KeyOrder`, `JsonText`, `Json`, `JsonTheorems`, `JsonWords`, `JsonCode` | canonical JSON |
| `ManifestLimits` | the manifest resource-limit machine |
| `Gov`, `GovWords`, `GovReport`, `GovOrder` | governability and its coverage gate |
| `PackageFiles`, `Emit`, `Emission`, `Binding` | emission under interference, and validation |
| `Agreement`, `RecordBinding`, `DisplayState` | verification records and their display state |

Places where the code is more subtle than its description, each settled by an
exact condition:

- The heartbeat limit is a 64-bit nanosecond product. It decides the documented
  rule iff interval plus tolerance is at most 9223372036 seconds, and past that it
  only rejects more (`Rungs.HeartbeatExactIff`, `Rungs.HeartbeatNeverLenient`).
- The Merkle split loop stops iff the tree size is at most 2^62; a canonical size
  is at most 2^53-1 (`Merkle.DoublingLoopStopsIff`).
- Coverage is the same for every permutation of the records iff their findings are
  settled, because recoverability is read from the surviving finding and ties keep
  the first (`GovOrder.OrderIrrelevantIff`, `GovOrder.OrderCanMatter`).
- The id in a valid receipt is the id counted as confirmed iff its member is
  spelled exactly `event_id`: the receipt check matches names in any letter case,
  the audit does not (`Rungs.ReceiptCountedIff`, `Rungs.MisspelledReceiptNotCounted`).
- The outcome comparison is map equality iff no machine status is the empty
  string (`Agreement.SameOutcomesExact`, `Agreement.UnsetStatusSlipsThrough`).

`dafny verify dfyconfig.toml` checks the whole project.

## Model

| member | source | states |
|---|---|---|
| `Records.RecordObject.constructor` | checker/internal/ael/record.go:73-99 | a parsed line has its bytes, hash and decoded payload filled and every verification flag clear; a malformed line fills nothing |
| `Records.RecordObject.Verify` | checker/internal/ael/record.go:101-137 | every flag is set exactly when its stage and all earlier stages succeed, and the parsed part is untouched |
| `Records.FlagsAreStaged` | checker/internal/ael/record.go:101-137 | schema-valid implies canonical implies signature-valid; unverifiable and verified exclude each other |
| `Merkle.SplitIsLargestPowerOfTwoBelow` | checker/internal/ael/checks.go:1053-1059 | the split is the greatest power of two strictly below the size |
| `Merkle.LargestPowerOfTwoLessThan` | checker/internal/ael/checks.go:1053-1059 | the 64-bit doubling loop returns the split for every size up to 2^62, which covers every canonical size |
| `Merkle.DoublingLoopStopsIff` | checker/internal/ael/checks.go:1053-1059 | on 64-bit integers the loop stops iff the size is at most 2^62 |
| `Merkle.NodesUsed` | checker/internal/ael/checks.go:1014-1037 | the number of proof nodes consumed depends only on index and size |
| `Merkle.PathLengthLogarithmic` | checker/internal/ael/checks.go:1014-1037 | that number is at most the logarithm of the size, rounded up |
| `Merkle.SameRootSameLeaf` | checker/internal/ael/checks.go:1014-1037 | two leaf and proof pairs that recompute to one root at one index and size have the same leaf and the same consumed nodes, or exhibit a node collision |
| `Merkle.ExtraNodesIgnored` | checker/internal/ael/checks.go:1014-1037 | appended proof nodes do not change what the inner recursion computes or consumes |
| `Merkle.HonestProofAccepted` | checker/cmd/aelgen/main.go:2525-2563 | the producer's proof of any leaf recomputes to the producer's root and is consumed whole |
| `Merkle.VerifierExact` | checker/internal/ael/checks.go:997-1037 | a leaf and proof recompute to the root of a leaf list iff they are the leaf there and its honest proof, or a node collision is exhibited (section 2.1.1 of RFC 6962) |
| `TreeBinding.LeavesAndNodesApart` | checker/internal/ael/checks.go:1039-1051 | a leaf is hashed after 0x00 and a node after 0x01 with its left child first, so none is both |
| `TreeBinding.RecordRootIs` | checker/cmd/aelgen/main.go:2520-2563 | the root of a record list satisfies the three equations of section 2.1 of RFC 6962 |
| `TreeBinding.RootBindsRecords` | checker/cmd/aelgen/main.go:2520-2563 | two lists of raw records of any lengths with one root are the same list, or two of the byte strings hashed for them collide |
| `Checker.CheckSignatures` | checker/internal/ael/checks.go:74-93 | passes iff there are records and every one carries a verified signature |
| `Checker.CheckCanonicalPayloads` | checker/internal/ael/checks.go:95-110 | passes iff every record is verified and canonical |
| `Checker.CheckClosedSchemas` | checker/internal/ael/checks.go:112-153 | passes iff every record, the anchors and every statement satisfy their schemas |
| `Checker.CheckSequenceOrder` | checker/internal/ael/checks.go:165-199 | passes iff every log starts at zero, strictly increases, and is readable and attributed throughout |
| `Checker.CheckPredecessorLinks` | checker/internal/ael/checks.go:201-226 | passes iff every record names the hash of its predecessor, the first one the zero hash |
| `Checker.CheckOpen` | checker/internal/ael/checks.go:228-242 | passes iff every log opens with a positive heartbeat interval |
| `Checker.CheckContiguous` | checker/internal/ael/checks.go:244-256 | passes iff every log numbers its records without gaps |
| `Checker.CheckHeartbeatLog` | checker/internal/ael/checks.go:267-301 | passes iff, with 64-bit wrap-around and saturation, the spacing limit holds and some heartbeat occurs |
| `Checker.CheckHeartbeat` | checker/internal/ael/checks.go:258-265 | passes iff every log passes it |
| `Checker.CheckCloseCount` | checker/internal/ael/checks.go:303-329 | passes iff every log ends in its only close, which commits to the count and the previous hash |
| `Checker.CheckOpenEnd` | checker/internal/ael/checks.go:331-341 | passes iff no log ends open |
| `Checker.CheckRecorder` | checker/internal/ael/checks.go:898-933 | passes iff one log on its own meets rungs zero and one |
| `Checker.CheckTwoRecorders` | checker/internal/ael/checks.go:343-355 | passes iff the run has two logs and each meets rung one on its own |
| `Checker.VerifiedRecorderKey` | checker/internal/ael/checks.go:935-963 | the key found is the one fingerprint every record verified under, and one is found iff there is one |
| `Checker.CheckKeysDiffer` | checker/internal/ael/checks.go:357-378 | passes iff every log has a key and the keys the id-keyed map holds are pairwise different |
| `Checker.CheckCrossAudit` | checker/internal/ael/checks.go:380-417 | passes iff every covered event of every log is covered in what the map holds for every log |
| `UpperChecks.CheckTreeHead` | checker/internal/ael/checks.go:419-462 | passes iff the tree head is signed by the anchor key over canonical bytes with the same log, root and size |
| `UpperChecks.CheckInclusion` | checker/internal/ael/checks.go:464-503 | passes iff there are entries and every entry recomputes to the decoded root; unverifiable exactly when nothing is declared or stored |
| `UpperChecks.CheckAnchorLeaves` | checker/internal/ael/checks.go:505-525 | passes iff every entry names a stored record and carries its leaf hash |
| `UpperChecks.CheckUnanchoredWindow` | checker/internal/ael/checks.go:527-560 | passes iff every log has an entry and no record is past its last anchored one |
| `UpperChecks.CheckLogKeyIndependent` | checker/internal/ael/checks.go:562-580 | passes iff the anchor log's key is no recorder's |
| `UpperChecks.CheckCounterpartySignatures` | checker/internal/ael/checks.go:582-613 | passes iff statements exist and every statement of the run is verified |
| `UpperChecks.FindRunNonce` | checker/internal/ael/checks.go:1075-1099 | the nonce found is the one non-empty nonce every opening record of the run carries, and one is found iff there is one |
| `UpperChecks.ReceiptChoice` | checker/internal/ael/schema.go:695-728 | accepts iff exactly one of a non-empty received event id and an explicit true none is present |
| `UpperChecks.CheckCounterpartyBinding` | checker/internal/ael/checks.go:615-647 | passes iff every statement of the run is bound to the run, its nonce and a valid receipt |
| `UpperChecks.CheckCounterpartyAudit` | checker/internal/ael/checks.go:649-697 | passes iff the recorded outbound ids over declared flows are exactly the confirmed ids |
| `UpperChecks.CheckCounterpartyKeyIndependent` | checker/internal/ael/checks.go:699-717 | passes iff the counterparty's key is no recorder's |
| `Evidence.ForRunIsView` | checker/internal/ael/artifact.go:490-511 | the per-run view holds only that run's logs and anchor entries |
| `Evidence.ForRunKeeps` | checker/internal/ael/artifact.go:490-511 | the view keeps every log and entry of the run as often as it occurs and changes nothing else |
| `Evidence.ViewLogs` | checker/internal/ael/checks.go:856-865 | on a per-run view, filtering by the run changes nothing |
| `Chain.SameHistory` | checker/internal/ael/checks.go:201-226 | two linked logs with the same bytes at a position have the same bytes at every earlier one, or exhibit a collision |
| `Chain.ClosedLogIsRigid` | checker/internal/ael/checks.go:244-256 | the only contiguous closed sequence drawn from a closed log's own records, in any order with any repeats or omissions, is the log |
| `Chain.CloseCommitsToHistory` | checker/internal/ael/checks.go:303-329 | two linked closed logs with one close payload are the same log, or exhibit a collision |
| `Chain.ExactlyPrefixesRelink` | checker/internal/ael/checks.go:165-226 | of all sequences drawn from an ordered linked log exactly the prefixes relink, unless a collision or a preimage of the zero hash is exhibited |
| `Chain.TruncationSilentAtRungZero` | checker/internal/ael/checks.go:74-226 | cutting the tail of any log keeps every rung-zero check passing |
| `Chain.TruncationEvidentAtRungOne` | checker/internal/ael/checks.go:303-329 | any proper truncation of a closed log fails the close check |
| `Anchoring.KeysDifferMakesIdsDistinct` | checker/internal/ael/checks.go:357-378 | the key check implies pairwise distinct recorder ids although it reads a map keyed by id |
| `Anchoring.HeadIsAnchored` | checker/internal/ael/checks.go:505-560 | on a rung-three view every log has an entry for exactly its last record, which is its close |
| `Anchoring.SameIndexPinsHistory` | checker/internal/ael/checks.go:464-560 | two rung-three views under one root and size with entries at one index agree on run, recorder, sequence number and all bytes up to it, or exhibit a collision |
| `Anchoring.AnchoredClosePinsLog` | checker/internal/ael/checks.go:464-560 | if the other view has any entry at the index of a log's anchored close, both views hold that log byte for byte, or exhibit a collision |
| `Rungs.HeartbeatExactWithinBound` | checker/internal/ael/checks.go:267-301 | up to 9223372036 seconds the check is exactly: times in order, gaps within interval plus tolerance, at least one heartbeat |
| `Rungs.LongGapRejected` | checker/internal/ael/checks.go:267-301 | no interval and tolerance let a log pass with a gap of at least the largest 64-bit nanosecond count |
| `Rungs.HeartbeatWrapsPastBound` | checker/internal/ael/checks.go:267-301 | past that bound, any opening record followed by a heartbeat that far later obeys the rule and is rejected |
| `Rungs.HeartbeatExactIff` | checker/internal/ael/checks.go:267-301 | given two loaded records that express the gap, the check decides the rule on all loaded logs of an interval and tolerance iff their sum is at most 9223372036 seconds |
| `Rungs.HeartbeatNeverLenient` | checker/internal/ael/checks.go:267-301 | the wrap only rejects: whatever the interval and tolerance, a log that passes obeys the rule |
| `Rungs.HeartbeatLimitsRun` | checker/internal/ael/checks.go:267-301 | a passing log spans at most its number of steps times the permitted spacing |
| `Rungs.FirstRungMakesRecordersOK` | checker/internal/ael/checks.go:898-933 | the checks of rungs zero and one make every log meet rung one on its own |
| `Rungs.TwoRecordersIsAHeadCount` | checker/internal/ael/checks.go:343-355 | given rung one, the two-recorder check passes iff there are two logs |
| `Rungs.OpenEndFailsClose` | checker/internal/ael/checks.go:331-341 | an open end already fails the close check, so the open cap never lowers a grade |
| `Rungs.SecondRungMeaning` | checker/internal/ael/checks.go:357-417 | rung two implies distinct ids, one verified key per log, distinct keys and equal covered event sets |
| `Rungs.FourthRungMeaning` | checker/internal/ael/checks.go:582-717 | rung four implies a verified statement, one nonce shared by all opens and statements, valid receipts, recorded outbound ids equal to confirmed ids and an independent counterparty key |
| `RungMeanings.RungZeroExactly` | checker/internal/ael/checks.go:74-226 | rung zero passes iff there are logs, every record of each verifies under its published key, is canonical, valid, attributed, in order and chained to the record before, and the anchors and statements are valid |
| `RungMeanings.RungOneExactly` | checker/internal/ael/checks.go:228-341 | with the declared spacing in bound, rung one passes iff every log opens with an interval, counts without gaps, beats, keeps its spacing and ends in its only close, which commits to the count and the record before |
| `RungMeanings.OpenExactly` | checker/internal/ael/checks.go:331-341 | a run is reported open iff some log that declared an interval does not end in a close record |
| `RungMeanings.RungTwoExactly` | checker/internal/ael/checks.go:343-417 | on top of rungs zero and one, rung two passes iff two or more logs have different ids, one key each, no key shared, and cover the same events of the declared classes |
| `RungMeanings.ThirdRungMeaning` | checker/internal/ael/checks.go:419-580 | rung three implies a published log key that is no recorder's, a 64-byte signature under it over canonical bytes that state the file's log, root and size, every entry's record in the tree under its 0x00-prefixed leaf hash, and every close among them |
| `RungMeanings.FourthRungInFull` | checker/internal/ael/checks.go:582-717 | rung four implies that all statements of the run stand under the nonce of every opening record, and that an event was sent out through a declared flow iff a statement confirms it |
| `UpperRungs.RungThreeExactly` | checker/internal/ael/checks.go:419-580 | on top of the rungs below, rung three passes iff the readable anchors are signed under a key of their own and hold every entry and every close |
| `UpperRungs.RungFourExactly` | checker/internal/ael/checks.go:582-717 | on top of the rungs below, rung four passes iff the counterparty declares flows, has a published key of its own, and its readable statements confirm exactly the events sent out |
| `Rungs.ReceiptCountedIff` | checker/internal/ael/checks.go:679-684 | the id a valid receipt carries is counted as confirmed iff its member is spelled exactly event_id |
| `Rungs.FourthRungReceipts` | checker/internal/ael/checks.go:649-697 | rung four implies that every recorded outbound event is in a receipt of a declared flow, and every exactly spelled receipt of such a flow is for a recorded event |
| `Rungs.MisspelledReceiptNotCounted` | checker/internal/ael/schema.go:705-716 | a loaded receipt of another letter case is valid and is not counted |
| `Evidence.RunNonceUnique` | checker/internal/ael/checks.go:1075-1099 | a run has at most one nonce |
| `Grading.Result.ComputeGrade` | checker/internal/ael/checks.go:756-796 | the grade is the highest rung through which every listed outcome passes, with the open cap |
| `Grading.RunChecks` | checker/internal/ael/checks.go:26-61 | every outcome in the map says pass exactly when its check passes |
| `Grading.EvaluateRun` | checker/internal/ael/checks.go:26-72 | the grade is the cumulative minimum over the table, and the open flag is check j |
| `Grading.ReportIsDetermined` | checker/internal/ael/checks.go:756-796 | what a report means fixes its grade |
| `UpperRungs.GradeExactly` | checker/internal/ael/checks.go:756-796 | a report of at least grade n is given exactly to the views of which rungs zero to n say what they say in the fields of the artifact |
| `UpperRungs.GradeSound` | checker/internal/ael/checks.go:756-796 | whatever spacing the logs declare, each rung through the reported grade says what it says |
| `Grading.ArtifactRuns` | checker/internal/ael/checks.go:867-886 | every mentioned run appears once; one nameless run when none is mentioned |
| `Grading.ConformanceExit` | checker/cmd/aelcheck/main.go:166-181 | exit 0 iff there are reports and all are closed, graded and at least the minimum; open exit iff some run is open |
| `Grading.Evaluate` | checker/internal/ael/checks.go:17-24 | exit 0 at a minimum iff every evaluated run is closed and passes the table through that rung |
| `Producer.BuildRecords` | checker/cmd/aelgen/main.go:2124-2165 | record i is the canonical encoding of the members of plan i, with any extra members overriding, chained to the hash of record i-1, patched and signed; the first plan with an unsafe number stops the builder |
| `Producer.PlannedReads` | checker/cmd/aelgen/main.go:2124-2165 | the encoding of an honest plan is canonical and decodes to its payload |
| `Wire.EncodeValue` | checker/cmd/aelgen/main.go:2447-2453 | a value is encoded iff its numbers are safe, as the UTF-8 bytes of its canonical text |
| `Wire.Utf8Injective` | checker/cmd/aelgen/main.go:2447-2453 | no two texts share their UTF-8 form |
| `Wire.EncodedDecodes` | checker/internal/ael/record.go:95-97 | an encoded object is canonical and decodes to its members, or to an error when one has the wrong type |
| `Wire.JsonCanBeRead` | checker/internal/ael/record.go:95-97 | the hypothesis that a world reads JSON can be met |
| `WireWords.RuneBytesAre` | checker/cmd/aelgen/main.go:2447-2453 | the one to four bytes of a scalar value, their ranges, and how they give the value (section 3 of RFC 3629) |
| `WireWords.ChainIsRead` | checker/internal/ael/record.go:32-48 | v, seq, prev, run, recorder, key and ts are read from the members of those names |
| `WireWords.EndsAreRead` | checker/internal/ael/record.go:32-48 | hmax, htol, cp_nonce, count and head are read from the members of those names |
| `WireWords.TypeIsRead` | checker/internal/ael/record.go:32-48 | the record type is the one the type member names |
| `WireWords.ActivityIsRead` | checker/internal/ael/record.go:19-48 | an event is read from class, id and dir, a decision from policy |
| `WireWords.PlanIsWritten` | checker/cmd/aelgen/main.go:2124-2165 | what the builder writes under each member name, a close with the number of plans and its predecessor, and that extra members win |
| `Producer.HonestLogPasses` | checker/cmd/aelgen/main.go:2124-2165 | honest plans yield a log of exactly the planned payloads that meets rung one on its own and passes every single-log check |
| `AnchorBuilder.BuildAnchors` | checker/cmd/aelgen/main.go:2303-2348 | the encoded file holds the records of all logs in sorted id order, each with its leaf, index and honest proof, and a signed head over the root of all leaves, whatever order the logs are iterated in; it fails only when the head or the file has an unsafe number |
| `AnchorBuilder.BuildingFailsIff` | checker/cmd/aelgen/main.go:2330-2348 | the head can be encoded iff there are at most 2^53-1 records, and then so can the file |
| `AnchorBuilder.BuildEntries` | checker/cmd/aelgen/main.go:2308-2334 | the loops that collect leaves and entries and attach proofs |
| `AnchorWords.HeadIsPrinted` | checker/cmd/aelgen/main.go:2335-2338 | the bytes the log signs are the listing of log, root and size in this order |
| `AnchorWords.EntryIsPrinted` | checker/cmd/aelgen/main.go:2368-2385 | an entry is the listing of index, leaf, proof, recorder, run and seq |
| `AnchorWords.FileIsPrinted` | checker/cmd/aelgen/main.go:2339-2348 | the file is the listing of its entries, its log and its tree head, which is that of root, sig, signed and size |
| `StringSort.SortIds` | checker/cmd/aelgen/main.go:2304-2308 | the sorted id list is the same whatever order the map is iterated in |
| `StringSort.SortedIdsAscend` | checker/cmd/aelgen/main.go:2304-2308 | of two sorted ids the earlier has the smaller code point where they first differ, or is a prefix of the later |
| `AnchorBuilder.BuiltAnchorsPass` | checker/internal/ael/checks.go:464-560 | anchors built over stored logs pass inclusion, leaf and window checks, whatever order the artifact lists the logs in |
| `AnchorBuilder.BuiltHeadPasses` | checker/internal/ael/checks.go:419-462 | the built tree head passes the signature check under the published log key |
| `Completeness.ProduceRun` | checker/cmd/aelgen/main.go:1285-1288 | every log and the anchors over all of them are built |
| `Completeness.HonestRunPasses` | checker/cmd/aelgen/main.go:2124-2348 | honest plans for recorders with distinct ids, built, anchored and loaded, pass checks o, p and q, and every log meets rung one on its own |
| `Completeness.HonestRunEarnsRungThree` | checker/internal/ael/checks.go:756-796 | such a run with a signed head under an independent key, one declared scope of planned events and valid schemas passes every check through rung three |
| `KeyOrder.LessIsStrictTotalOrder` | checker/internal/ael/canonical.go:232-251 | UTF-16 order is a strict total order on scalar-value strings (section 3.2.3 of RFC 8785) |
| `KeyOrder.LessMeans` | checker/internal/ael/canonical.go:232-251 | a key comes before another iff at some unit, up to which their UTF-16 forms agree, it ends first or has the smaller unit |
| `KeyOrder.UnitsMean` | checker/internal/ael/canonical.go:232-251 | a scalar value up to 0xFFFF is its own unit, any other a high and a low surrogate that give its offset |
| `KeyOrder.SurrogatesComeFirst` | checker/internal/ael/canonical.go:232-251 | after any common prefix a scalar value above 0xFFFF comes before every one in 0xE000..0xFFFF |
| `KeyOrder.StringBeforeMeans` | checker/cmd/aelgen/main.go:2304-2308 | plain strings are ordered by the first code point in which they differ, a string before its extensions |
| `KeyOrder.CompareUtf16` | checker/internal/ael/canonical.go:232-251 | the sign of the comparison is that order, and zero means equal strings |
| `KeyOrder.SortKeys` | checker/internal/ael/canonical.go:208-230 | the sorted key list is the same whatever order the map is iterated in |
| `JsonText.WriteJsonString` | checker/internal/ael/canonical.go:253-300 | the cursor loop appends exactly the quoted string escaped piece by piece, a malformed byte as the escaped replacement character |
| `JsonText.WriteText` | checker/internal/ael/canonical.go:253-300 | a well-formed string is written in its printed form |
| `JsonText.ReadWrittenPieces` | checker/internal/ael/canonical.go:253-300 | whatever bytes a string holds, what is written for it reads back as the string with malformed bytes replaced |
| `JsonText.ReadPrintedString` | checker/internal/ael/canonical.go:253-300 | reading a printed string returns it and stops after its closing quote |
| `JsonText.IntegerTokenExact` | checker/internal/ael/canonical.go:128-161 | a token is accepted as n iff it is the shortest decimal of n and |n| is at most 2^53-1 |
| `JsonCode.Decoder.ParseValue` | checker/internal/ael/canonical.go:65-126 | the consuming decoder returns what the recursive reader returns and leaves the same rest |
| `JsonCode.Decoder.ParseArray` | checker/internal/ael/canonical.go:99-115 | the array loop agrees with the recursive reader |
| `JsonCode.Decoder.ParseObject` | checker/internal/ael/canonical.go:69-98 | the object loop agrees with the recursive reader and rejects a repeated key |
| `JsonCode.WriteCanonical` | checker/internal/ael/canonical.go:163-206 | appends the canonical form iff every number is in range |
| `JsonCode.WriteObject` | checker/internal/ael/canonical.go:208-230 | appends the members in key order |
| `JsonCode.CanonicalizeText` | checker/internal/ael/canonical.go:23-46 | canonicalization is reading one whole value and printing it |
| `JsonTheorems.ReadPrinted` | checker/internal/ael/canonical.go:65-206 | reading a printed value followed by anything that cannot extend it returns the value and leaves the rest |
| `JsonTheorems.PrintParses` | checker/internal/ael/canonical.go:23-46 | the printed form of an in-range value parses to that value with nothing left |
| `JsonTheorems.PrintInjective` | checker/internal/ael/canonical.go:163-206 | different in-range values print differently |
| `JsonTheorems.CanonicalizeIdempotent` | checker/internal/ael/canonical.go:23-46 | canonicalizing twice is canonicalizing once |
| `JsonTheorems.CanonicalIffPrinted` | checker/internal/ael/canonical.go:50-55 | a text is canonical iff it is the printed form of an in-range value |
| `JsonWords.EscapesAre` | checker/internal/ael/canonical.go:253-300 | the escape of every character, in characters: seven have two-character escapes, other control characters four lower-case digits, everything else is itself |
| `JsonWords.StringsAre` | checker/internal/ael/canonical.go:253-300 | a string is its characters, each escaped on its own, between quotes |
| `JsonWords.DecimalsAre` | checker/internal/ael/canonical.go:163-206 | a number is written with the digits of its decimal expansion and no leading zero |
| `JsonWords.LiteralsAre` | checker/internal/ael/canonical.go:163-206 | null, true and false print as themselves |
| `JsonWords.ArraysAre` | checker/internal/ael/canonical.go:163-206 | an array prints as its items between brackets, separated by commas |
| `JsonWords.ObjectsAre` | checker/internal/ael/canonical.go:208-230 | an object prints as the listing of its members in key order |
| `JsonWords.ReadListing` | checker/internal/ael/canonical.go:69-98 | a listing of members in any order reads as their object iff no key is repeated, and is rejected otherwise |
| `JsonWords.CanonicalizeSorts` | checker/internal/ael/canonical.go:23-46 | canonicalizing turns any listing of distinct members into the listing in key order |
| `JsonWords.RepeatedKeyRejected` | checker/internal/ael/canonical.go:69-98 | a listing that repeats a key has no canonical form |
| `JsonWords.BlanksAround` | checker/internal/ael/canonical.go:23-46 | spaces, tabs and line ends around a value change nothing |
| `JsonWords.MoreRejected` | checker/internal/ael/canonical.go:23-46 | anything else after a value is rejected |
| `JsonWords.StartsAre` | checker/internal/ael/canonical.go:65-126 | what reads as a value starts, after space, with one of {["-0123456789tfn |
| `ManifestLimits.ValidateLimits` | checker/internal/ael/schema.go:366-436 | the in-place loop accepts iff the size is in bounds, the decoder reports no error, and the token machine ends with an empty stack |
| `ManifestLimits.StackBounded` | checker/internal/ael/schema.go:366-436 | the stack never exceeds sixteen on any token stream |
| `ManifestLimits.MachineRefinesFits` | checker/internal/ael/schema.go:366-436 | over the tokens of any value sequence the machine ends empty iff every value fits, and rejects otherwise |
| `ManifestLimits.FitsIsDepthAndSizes` | checker/internal/ael/schema.go:366-436 | fitting is depth within bounds plus every array, object, string and key within its size |
| `ManifestLimits.MachineRefinesLimits` | checker/internal/ael/schema.go:366-436 | the machine accepts a value sequence iff every value is at most sixteen deep with every size within its limit |
| `ManifestLimits.ArrayLimit` | checker/internal/ael/schema.go:366-436 | an array of n scalars is accepted iff n is at most 1024 |
| `ManifestLimits.ObjectLimit` | checker/internal/ael/schema.go:366-436 | an object of n members is accepted iff n is at most 128 and its keys are at most 16384 bytes |
| `ManifestLimits.StringLimit` | checker/internal/ael/schema.go:366-436 | a string is accepted iff it is at most 16384 bytes |
| `ManifestLimits.NestingLimit` | checker/internal/ael/schema.go:366-436 | arrays nested d deep are accepted iff d is at most 16 |
| `ManifestLimits.UnterminatedRejected` | checker/internal/ael/schema.go:366-436 | a stream that stops inside a value is never accepted |
| `Gov.PolicyBoundExactly` | checker/internal/ael/gov.go:222-356 | a finding is policy-bound with a class iff the committed policy bytes hash to their name and give that class; only a policy or a declaration gives a milder class |
| `GovWords.WordsKept` | checker/internal/ael/gov.go:58-74 | a word of the vocabulary prints as itself and any other as irreversible |
| `GovWords.SeverityFollowsWords` | checker/internal/ael/gov.go:58-74 | severity follows read-only, reversible, external-reversible, irreversible |
| `GovWords.ClassifiedExactly` | checker/internal/ael/gov.go:222-372 | when a finding is unassessable, policy-bound, declared or default, and its id and event class, in the fields of the record |
| `GovWords.FindingPrints` | checker/internal/ael/gov.go:222-372 | a policy-bound finding prints the policy's own word, a declared one the payload's if it is in the vocabulary, all others irreversible |
| `Gov.MergeEvent` | checker/internal/ael/gov.go:375-394 | the finding of strictly greater severity-then-provenance score survives, the first on a tie |
| `Gov.Accumulator.Accumulate` | checker/internal/ael/gov.go:181-196 | one in-place update absorbs one finding |
| `Gov.FoldMeans` | checker/internal/ael/gov.go:181-199 | the accumulator holds the union of event classes, a conflict iff two differ, unassessable iff one is |
| `Gov.Survivor` | checker/internal/ael/gov.go:181-199 | the surviving finding is the first of the highest score |
| `Gov.GateExact` | checker/internal/ael/gov.go:201-216 | merged findings escape iff none is irreversible or unassessable and one of the most severe is policy-bound |
| `Gov.ReportedClassIsMaximum` | checker/internal/ael/gov.go:201-216 | the reported class of an id is the greatest severity among the records that contribute to it |
| `Gov.CoverageGateExact` | checker/internal/ael/gov.go:333-453 | the gate in terms of signed records and policy bytes that hash to the decision's reference |
| `GovWords.ForbiddenNeverEscapes` | checker/internal/ael/gov.go:403-453 | an id with a record whose committed policy says irreversible or a word outside the four never escapes, and out of scope it leaves the run not covered |
| `GovWords.ReportPrintsGravest` | checker/internal/ael/gov.go:375-394 | the reported class prints the gravest word any record of the id prints |
| `GovWords.ReportExactly` | checker/internal/ael/gov.go:403-453 | when the coverage is undecidable, not applicable, covered or not, and which ids are gaps and anomalies, in the fields of the records |
| `Gov.CoveredExactly` | checker/internal/ael/gov.go:403-453 | covered iff a scope is declared, nothing is unrecoverable, and every verified canonical activity with a class is in scope or has an escaping id |
| `Gov.DeclarationsNeverOpenTheGate` | checker/internal/ael/gov.go:222-372 | without a policy-bound contributor no choice of declarations lets an id escape |
| `GovReport.DecideCoverage` | checker/internal/ael/gov.go:403-453 | the loops over the table compute the coverage of its contents |
| `GovReport.SummaryCoverageIsCoverage` | checker/internal/ael/gov.go:403-453 | the coverage of the merged table is the coverage of the findings |
| `GovReport.GovernRun` | checker/internal/ael/gov.go:141-176 | the report of the map of accumulator objects is, id by id in first-appearance order, the merge of the run's findings |
| `GovOrder.ReportedClassIgnoresOrder` | checker/internal/ael/gov.go:375-394 | every permutation of the records reports the same class for an id |
| `GovOrder.SettledReportIgnoresOrder` | checker/internal/ael/gov.go:403-453 | settled findings get one coverage report however they are ordered or repeated |
| `GovOrder.NonEmptyClassesSettle` | checker/internal/ael/gov.go:311-313 | findings that all name an event class are settled |
| `GovOrder.OrderIsReachable` | checker/internal/ael/gov.go:141-176 | every order of the findings comes from some permutation of the records |
| `GovOrder.OrderIrrelevantIff` | checker/internal/ael/gov.go:403-453 | status, gaps and anomalies are the same for every permutation of the records iff the findings of the records are settled |
| `GovOrder.FirstComerDecides` | checker/internal/ael/gov.go:311-313 | a classless unassessable finding and a classed one tie, and the first decides between undecidable and covered |
| `GovOrder.OrderCanMatter` | checker/internal/ael/gov.go:311-313 | for any two loaded records of one event id, one schema-invalid without a class and one valid, undecided and undeclared, one order is undecidable and the other covered |
| `GovOrder.RecordOrderIrrelevant` | checker/internal/ael/gov.go:141-176 | records that all name an event class may be permuted in any way without changing the coverage report |
| `PackageFiles.AssertInputsMatch` | checker/internal/ael/emit.go:1034-1058 | accepts iff the final list equals the snapshot outside the permitted new paths |
| `PackageFiles.AssertCaptured` | checker/internal/ael/emit.go:963-980 | accepts iff the first entry at the path is that of the captured bytes |
| `PackageFiles.AssertEvaluated` | checker/internal/ael/emit.go:929-957 | accepts iff the final list on the evaluated roots equals the replica's list |
| `PackageFiles.ValidateBlobs` | checker/internal/ael/package.go:1008-1093 | accepts a directory iff the lists are well formed, references are listed, and the files are exactly the list by path, size and digest |
| `PackageFiles.AcceptsExactly` | checker/internal/ael/package.go:1008-1093 | the validator in the fields of the manifest: shapes, distinct paths, listed references, and the directory apart from manifest.json and manifest.sig is exactly the list by path, size and digest |
| `PackageFiles.AcceptedDirectoriesAgree` | checker/internal/ael/package.go:1008-1093 | two directories accepted under one list hold the same files, or exhibit a collision |
| `PackageFiles.IndexUnique` | checker/internal/ael/emit.go:984-1029 | a tree has one sorted index |
| `PackageFiles.SortedAscends` | checker/internal/ael/emit.go:984-1029 | paths of a sorted list ascend by the first code point in which they differ |
| `Emit.Stage.IndexFiles` | checker/internal/ael/emit.go:984-1029 | a disturbed walk returns a sorted list of sizes and digests each read during it; an undisturbed one returns the index |
| `Emit.Stage.CopyRoot` | checker/internal/ael/emit.go:1151-1169 | every copied file was in the staging tree when it was read; undisturbed, the copy is the root |
| `Emission.Replicate` | checker/internal/ael/emit.go:449-474 | every replica file was staged when read; undisturbed, the replica is the evaluated part of the tree |
| `Emission.CheckFinalList` | checker/internal/ael/emit.go:264-288 | the comparisons accept iff snapshot, captured bytes and replica all agree with the final list |
| `Emission.RunSubprocesses` | checker/internal/ael/emit.go:193-228 | the replica list is the index of files staged since the first subprocess; undisturbed, exactly the three results are added |
| `Emission.EmitPackage` | checker/internal/ael/emit.go:184-320 | for every interference, a signed list is bound to the earlier snapshot, the captured bytes and the replica, for the requested run or else the first discovered one; a requested run that was not discovered, an empty discovery and an empty conformance output are refused; undisturbed emission does sign, over the final tree |
| `Binding.SignedListAcceptedIff` | checker/internal/ael/package.go:1008-1093 | a signed list is accepted for exactly the directories that hold it |
| `Binding.PublishedIsEvaluated` | checker/internal/ael/emit.go:929-957 | artifact, keys and checker of an accepted package are the evaluated replica byte for byte, or a collision is exhibited |
| `Binding.PublishedResultsAreCaptured` | checker/internal/ael/emit.go:963-980 | the three results of an accepted package are the captured bytes, or a collision is exhibited |
| `Binding.PublishedWasStaged` | checker/internal/ael/emit.go:1034-1058 | every other published file was staged before the first subprocess, or a collision is exhibited, and none is missing |
| `Binding.EvaluatedWasStaged` | checker/internal/ael/emit.go:184-288 | the evaluated bytes were staged before the first subprocess, or a collision is exhibited |
| `Binding.AcceptedPackageIsBound` | checker/internal/ael/emit.go:184-288 | a package that was signed and is accepted is the evaluated replica, the captured results and files staged before the first subprocess, or a collision is exhibited |
| `Binding.AcceptedPackagePaths` | checker/internal/ael/emit.go:184-288 | the same path by path: everything under artifact/ and inputs/keys/ and the checker is the evaluated bytes, the three result files are the captured bytes, and every other file was staged before the first subprocess, or a collision is exhibited |
| `Binding.SignedReferences` | checker/internal/ael/emit.go:289-325 | the signed manifest refers, by these paths and among its listed files, to artifact/manifest.json, the checker, results/artifact.json twice, results/stderr.txt and results/conformance.json |
| `Binding.SignedInputs` | checker/internal/ael/emit.go:327-335 | its verification inputs are exactly the listed files under inputs/keys/ and inputs/package-keys/ |
| `StringSort.SortForgetsOrder` | checker/internal/ael/package.go:1222-1236 | sorted copies are equal iff the lists hold the same strings equally often |
| `Agreement.SameStringSet` | checker/internal/ael/package.go:1222-1236 | accepts iff the lists are equal as multisets |
| `Agreement.SamePackageOutcomes` | checker/internal/ael/package.go:933-943 | accepts iff the maps have one size and every machine status equals the grade's, a missing one reading as empty |
| `Agreement.SameOutcomesExact` | checker/internal/ael/package.go:933-943 | accepted maps are equal iff no machine status is empty, and equal maps are accepted |
| `Agreement.UnsetStatusSlipsThrough` | checker/internal/ael/package.go:933-943 | for any run, line, annotations and check ids, a record that is accepted although its grade and the machine run have different outcome maps |
| `Agreement.ValidateGrades` | checker/internal/ael/package.go:954-974 | accepts iff runs are distinct and every grade has its text, annotations and defined outcomes |
| `Agreement.CheckRuns` | checker/internal/ael/package.go:1172-1209 | accepts iff evaluated, declared and graded runs are one multiset that holds the packaged run |
| `Agreement.CompareWithMachine` | checker/internal/ael/package.go:858-931 | accepts iff the machine runs are valid and distinct, as many as the grades, and every grade agrees with one |
| `Agreement.AcceptRecord` | checker/internal/ael/package.go:253-260 | accepts iff grades, run sets and, for exit 0 or 4, machine output all agree |
| `Agreement.AcceptedRunsAgree` | checker/internal/ael/package.go:1172-1209 | evaluated, declared and graded runs of an accepted record are one duplicate-free set with the packaged run |
| `Agreement.GradesMatchMachineRuns` | checker/internal/ael/package.go:858-895 | grades and machine runs correspond one to one over one run set |
| `Agreement.GradesCarryMachineOutcomes` | checker/internal/ael/package.go:858-943 | when every machine status is a defined one, matching grades carry the machine's outcome map |
| `RecordBinding.DiscoveredRuns` | checker/internal/ael/package.go:1211-1220 | the evaluated runs are the sorted list of the runs the artifact mentions |
| `RecordBinding.ValidateRecord` | checker/internal/ael/package.go:1172-1209 | accepts iff the record checks hold on the artifact's own runs |
| `RecordBinding.RecordAgreement` | checker/internal/ael/package.go:858-943 | with evaluation exit 0 or 4, declared, graded and machine runs each name every mentioned run once, and grades and machine runs correspond one to one with equal lines, annotations and, for defined statuses, outcomes |
| `RecordBinding.AcceptedExactly` | checker/internal/ael/package.go:858-974 | a record of a completed evaluation is accepted iff its grades are complete, declared, graded and machine runs each name every mentioned run once, and each grade has the line, annotations and statuses of its machine run |
| `DisplayState.ShowState` | checker/internal/ael/package.go:261-355 | each display state is shown on exactly its window of inputs |
| `DisplayState.ShowStatus` | checker/internal/ael/package.go:308-355 | the same for a usable status on an unexpired record |
| `DisplayState.DisplayDetermined` | checker/internal/ael/package.go:261-355 | the windows fix the state |
| `DisplayState.VerifiedExactly` | checker/internal/ael/package.go:261-355 | verified iff evaluation and conformance succeeded and an authentic status of format one for this record and authority says current and covers the time |
| `DisplayState.WithdrawnExactly` | checker/internal/ael/package.go:308-355 | withdrawn iff an authentic status with a reason, and for a supersession a replacement, is issued and in effect |
| `DisplayState.ExpiredExactly` | checker/internal/ael/package.go:281-290 | expired iff the time is at or past the expiry of an otherwise displayable record |
| `DisplayState.VerifiedInterval` | checker/internal/ael/package.go:308-330 | the verified instants are one half-open interval from issue to the least of next update, expiry and age limit |
| `DisplayState.MaximumAgeOnlyShrinks` | checker/internal/ael/package.go:317-321 | a positive age limit only removes verified instants and a larger one removes fewer |
| `DisplayState.ExpiredIsAbsorbing` | checker/internal/ael/package.go:281-290 | once expired, always expired |
| `DisplayState.WithdrawalPersists` | checker/internal/ael/package.go:331-350 | a revoked or superseded record stays so until it expires |

## Left out

- Files, directories, symbolic links, permissions and key files: trees are maps from path to bytes, so an empty directory and a missing one are the same.
- Subprocess execution, time-outs and output limits: a subprocess is the bytes captured from it plus whatever the environment does to the staging tree.
- The specification and corpus digests of an emitted manifest, which are read outside the compared file list.
- Assembly of the staging tree, the signature bytes and the final rename: the emission model starts at the input snapshot and ends when the manifest is ready to sign.
- Field-by-field schema checks: one predicate per kind of record, which gives an activity its event.
- Reading counterparty statements from lines: a statement comes with its flags, which the checks read, and its receipt and payload come from one stored body (`Evidence.LoadedStatement`).
- The R check and the policy rule language it evaluates, which do not affect the rung.
- Notes, error texts, the grade line format, the coverage, custody, anchor and retention annotations of a report, and command-line flags.
- Decoding UTF-8: a JSON text is a sequence of Unicode scalar values, and a stored string a sequence of scalar values and malformed bytes.
- The JSON library's scanner is modelled for the canonical value kinds only; fractions, exponents and other number forms are rejected as the canonical parser rejects them.
- Lower-casing of fingerprints covers ASCII letters.
- Sorting of gap and anomaly lists: they are sets of ids.
- Producer.BuildRecords: an extra member with a fractional number, which the canonical encoder rejects, is not a value of the model.
- Producer.HonestLogPasses: the payload decoder and the canonical test are assumed to read JSON as `Wire.ReadsJson` says, and signatures to verify; `Wire.JsonCanBeRead` shows that the first can be met.
- UpperRungs.GradeExactly: logs whose declared spacing is past the exact bound of the heartbeat check get `UpperRungs.GradeSound` only; what the check does there is `Rungs.HeartbeatExactIff`.
- AnchorBuilder.BuildAnchors: reading the file back is not modelled; a view carries the file's values.
- Grading.Result.ComputeGrade: the text of the capping notes is one word per rung.
- PackageFiles.ValidateBlobs: the digest algorithm, the normalized path and the digest syntax of an entry are one shape predicate.
- Emission.EmitPackage: walk results are taken as sorted name lists, in place of a walk followed by a sort.
- Records.RecordObject.Verify: error values are not kept, only which flags are set.
