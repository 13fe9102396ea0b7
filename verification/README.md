# Verified models of the EvalWitness protocol

This project models the offline verifier-audit protocol of EvalWitness and the parts of its command
line that store, publish, plan and buffer, and proves what they promise.

- **Canonical JSON.** `JsonGrammar` gives JSON text as concrete syntax trees (sections 4, 6 and 7 of
  RFC 8259, restricted as in sections 2.1 to 2.3 of RFC 7493); `JsonParser` and `CanonicalCodec` are the
  strict decoder and the printer, `EscapeScanner` the scan for unpaired surrogate escapes,
  `CanonicalNumbers` the integers and decimals. `ParserCorrectness` and `CanonicalJson` prove the parser
  sound and complete for the grammar and the printed bytes a normal form; `TextMeaning` says what text
  means without the decoder, on Unicode scalar values, and that canonicalizing keeps it.
- **Score evidence.** `ScoreEvidence` is the validator with its accumulators, `ScoreProperties` what
  acceptance implies, in exact real arithmetic.
- **Reference pipeline.** `ProtocolModel` holds the entities. `ReferencePipeline` specifies the way from
  raw bytes to a sealed result, `ReferenceAdapter` carries it out; `FaultyCases` holds texts at which promises
  of it fail.
- **Sessions.** `AdapterWire` spells messages and payloads as canonical JSON and `WireFidelity` proves what
  arrives, with lengths bounded in `PrintedLength`. `AdapterSession` is the server loop, `AdapterReplies` what its
  replies say and how payloads are read, `AdapterClient` the client, `AdapterScript` their turns one by one, `AdapterComposition` the two together.
- **Corpus.** `JsonPointer` and `Mutation` specify pointers and mutations, `MutationInPlace` performs them on
  mutable containers, `RequiredFields` is the required-field check with a table that says what it asks,
  `Corpus` the assembly.
- **Inspection journal.** `InspectionEvents` is the event chain and the file names, `InspectionJournal` the
  steps of concurrent recorders and finalizers, `InspectionLoad` the load without interference.
- **Publication.** `CapsulePublish` runs the staging, linking, renaming and rollback on a file system any
  step of which may fail.
- **Planner, buffers, matrix.** `TournamentWaves`, `EvalPlan`, `EvalEscalation`, `BoundedWriters`,
  `CapabilityMatrix`.

`Basics`, `Utf8`, `Ordering`, `Digits`, `Texts` and `JsonStrings` are shared vocabulary. A byte string is a
Dafny `string` with one character per byte.

Where an obvious promise does not hold in the code, the exact condition is proved instead:

- The client skips vectors yet ends with the number of all of them, which the server compares with its own
  count: a session is reported only when nothing is skipped (`SessionSucceedsExactlyWhen`).
- A vector stands one level deeper in a message than alone, so the deepest canonical texts cannot be sent
  (`CanonicalBytesArrive`, `DeepestVectorIsNotReported`).
- An invocation is checked for the number of its payloads, not for which one it has: the evaluator crashes
  exactly in the case `CrashesExactlyWhen` describes (`SomeCaseCrashes`), and takes the session with it
  (`CrashEndsSession`).
- An empty `invocation_id` gives a result under one identity and a validation under another:
  `SealedResultIsValid` holds exactly without it (`SomeResultIsInvalid`).
- Array index tokens may carry a sign, so they are unique only without one (`IndexTokensAreUnique`,
  `SignedTokensCollide`).
- A candidate file in the events directory makes every load fail while it is there, and the millionth event
  makes every later load fail: `ListingSucceedsExactlyWhen`, `SomeListingIsRefused`.
- An empty write to a full reject writer reports an error although nothing is lost (`EmptyWrites`).
- The end boundary of a session is checked only for its count (`EndBoundaryIsFree`).

What stays abstract enters as a parameter: the digest function, hexadecimal decoding, typed decoding of a
case, the namespace pattern, the reliability and decision validators, token counts of prompts, random names.
The assumptions on them are predicates of their own: `Coherent` and `Digests` for the pipeline, `Compatible`
for sessions, `Sound` for the journal and for a publication. How a descriptor and a result are spelled as JSON is
a parameter of sessions too; `Compatible` asks no more of it than that the descriptor and the results of the
session read back.

`dafny verify dfyconfig.toml` verifies the project.

## Model

| member | source | states |
|---|---|---|
| `ParserCorrectness.ReadsDocument` | protocol/canonical.go:146-207 | every legal document of the RFC 8259 grammar (unique keys, depth at most 64, integers in range), whatever its whitespace, escapes and key order, is read as the value it means |
| `ParserCorrectness.SpelledDocument` | protocol/canonical.go:146-207 | every text the decoder accepts spells a legal document with the decoded meaning; with the previous row acceptance is exactly legality |
| `CanonicalCodec.DecodeCanonicalValue` | protocol/canonical.go:146-207 | the recursive decoder, consuming input from a cursor, computes the strict parse and leaves the rest of the text |
| `CanonicalCodec.WriteCanonicalValue` | protocol/canonical.go:209-260 | the writer appends exactly the canonical text, with members in the byte order of their keys |
| `CanonicalCodec.CanonicalizeJSON` | protocol/canonical.go:28-52 | the whole pass returns the one text in canonical shape that spells the same value as its input, and refuses exactly texts that spell none; spelling is stated on scalar values, without the decoder |
| `CanonicalJson.PrintedFormReadsBack` | protocol/canonical.go:28-52 | for every value canonical text can carry, parsing the printed form gives the value back and canonicalizing it changes nothing |
| `CanonicalJson.CanonicalOfDocument` | protocol/canonical.go:28-52 | a legal document is accepted exactly when its surrogate escapes are paired, and its canonical form is the print of its meaning |
| `CanonicalJson.AcceptedIsLegal` | protocol/canonical.go:28-52 | conversely, every accepted text is a legal document with paired escapes |
| `CanonicalJson.CanonicalizeIsIdempotent` | protocol/canonical.go:28-52 | canonicalizing twice equals canonicalizing once |
| `CanonicalJson.SameBytesIffSameValue` | protocol/canonical.go:28-52 | two accepted texts have the same canonical bytes exactly when they denote the same value |
| `CanonicalJson.SortedKeysOfListing` | protocol/canonical.go:235-239 | the member order does not depend on the order in which a map lists its keys |
| `TextMeaning.DecodingDenotes` | protocol/canonical.go:146-207 | the bytes of a decoded string, read as UTF-8 by bit positions, are the scalars its literal denotes: plain ones as they are, the eight escape letters by their code points, four hexadecimal digits by their positions, and a pair as 0x10000 + (high - 0xD800) * 0x400 + (low - 0xDC00) |
| `TextMeaning.LiteralMeans` | protocol/canonical.go:28-52 | a string literal of paired units is read as the text of the scalars it denotes |
| `TextMeaning.EscapeIsRead` | protocol/canonical.go:146-207 | each of the eight escape letters stands for its one byte |
| `TextMeaning.OtherEscapesAreRefused` | protocol/canonical.go:146-207 | no other letter may follow a backslash, but the u of a hexadecimal escape |
| `TextMeaning.ScalarsDetermine` | protocol/canonical.go:262-270 | text is determined by the scalars read from it |
| `TextMeaning.PrintIsShape` | protocol/canonical.go:209-270 | the print of a value is the only text in canonical shape that spells it: no whitespace, shortest escapes, and keys in ascending byte order |
| `TextMeaning.CanonicalizeMeans` | protocol/canonical.go:28-52 | canonicalizing gives the text in canonical shape of the value a text spells, and refuses every other text |
| `EscapeScanner.DecodeHexQuad` | protocol/canonical.go:92-111 | four hexadecimal digits at a position are decoded to their value, within bounds, and nothing else is |
| `EscapeScanner.ValidateEscapedUnicodeScalars` | protocol/canonical.go:54-90 | the index loop stays in bounds, ends, and computes the scan of paired escapes |
| `EscapeScanner.ScansDocument` | protocol/canonical.go:54-90 | on every well-formed text the scan accepts exactly when each surrogate escape is half of an adjacent high-low pair |
| `JsonStrings.NoSubstitutionIffPaired` | protocol/canonical.go:54-90 | decoding substitutes no character exactly when all surrogate escapes are paired |
| `JsonStrings.CanonicalUnitsDecode` | protocol/canonical.go:262-270 | the escaped spelling of a string decodes to the string |
| `CanonicalNumbers.TokenIsTextOfValue` | protocol/canonical.go:272-285 | an accepted integer token is the text of its value, which is at most 2^53-1 in magnitude |
| `CanonicalNumbers.ValueOfTextIsInteger` | protocol/canonical.go:272-285 | every integer in that range has an accepted token, which denotes it |
| `CanonicalNumbers.IntegerTokensAreUnique` | protocol/canonical.go:272-285 | accepted tokens denote the same integer only if they are the same text |
| `CanonicalNumbers.DecimalPrints` | protocol/canonical.go:287-314 | printing an accepted decimal in canonical form returns its text |
| `CanonicalNumbers.DecimalParses` | protocol/canonical.go:287-314 | conversely, the text of every normal value is accepted and denotes it, up to the length limit |
| `CanonicalNumbers.DecimalsAreUnique` | protocol/canonical.go:287-314 | two accepted decimals denote the same rational exactly when they are the same text |
| `CanonicalNumbers.DecimalDenotes` | protocol/canonical.go:287-314 | an accepted decimal is a sign, digits, and perhaps a point and more digits, and denotes the sum of its digits, each a tenth of the one before |
| `ScoreEvidence.ValidateSortedUniquePositiveInts` | protocol/validate.go:580-592 | accepts exactly the nonempty strictly increasing lists of positive ranks |
| `ScoreEvidence.CheckRanks` | protocol/validate.go:286-312 | the loop over the ranks of one entry: provenance of every rank, no rank used before, sorted forms and the largest probability as mass |
| `ScoreEvidence.SumSupport` | protocol/validate.go:263-319 | the loop over the support accepts exactly entries that are sound, in strict letter order and on disjoint ranks, and its accumulators are the mass and the two moments |
| `ScoreEvidence.ValidateScoreEvidence` | protocol/validate.go:193-354 | the validator accepts exactly the evidence that meets the declared masses, moments and provenance |
| `ScoreProperties.MassesAreOrdered` | protocol/validate.go:222-323 | accepted evidence has 0 < valid mass <= visible mass <= 1 and visible + unobserved = 1 |
| `ScoreProperties.SupportIsShort` | protocol/validate.go:263-275 | accepted evidence has between 1 and 20 support entries |
| `ScoreProperties.MeanLiesBetween` | protocol/validate.go:321-326 | the declared mean lies between any bounds of the support values |
| `ScoreProperties.VarianceIsDeviation` | protocol/validate.go:321-332 | the declared variance times the mass is the mass-weighted squared distance from the declared mean |
| `ScoreProperties.VarianceIsBounded` | protocol/validate.go:321-332 | 0 <= variance <= mean * (1 - mean) <= 1/4 |
| `ScoreProperties.VarianceVanishes` | protocol/validate.go:321-332 | the variance is 0 exactly when all entries of positive mass have one value |
| `ScoreProperties.NumbersAreDetermined` | protocol/validate.go:207-332 | the declared masses, mean and variance are determined digit for digit by support and alternatives |
| `ScoreProperties.CertainEvidenceIsAccepted` | protocol/validate.go:193-354 | evidence that is certain of one letter is accepted, so what acceptance implies is not vacuous |
| `ScoreProperties.EntryIsOfAlternatives` | protocol/validate.go:286-312 | the value of an accepted entry is that of every alternative it names, its probability is that of the likeliest of them, digit for digit, and its forms are their tokens |
| `ScoreProperties.OneIsChosen` | protocol/validate.go:222-258 | exactly one alternative of accepted evidence was chosen |
| `ScoreProperties.AlignmentDecides` | protocol/validate.go:203-205 | accepted evidence stays accepted under other alignment exactly if it is not extracted or exactly aligned |
| `ScoreProperties.TwentyLetters` | protocol/validate.go:605-607 | the letters of the scale are the twenty from A to T |
| `Texts.DigestsAndIdentifiers` | protocol/validate.go:18-21 | which texts are digests (64 lower-case hexadecimal digits) and identifiers, character by character |
| `Texts.ValidateUniqueStrings` | protocol/validate.go:556-568 | the loop with its set accepts exactly lists of different nonempty strings |
| `Texts.ValidateSortedUniqueStrings` | protocol/validate.go:570-578 | the same for lists that are sorted, though only neighbours are compared |
| `AdapterSession.NegotiationPicksFirst` | protocol/adapter.go:422-429 | negotiation picks the first supported version both sides list, and none otherwise |
| `AdapterSession.ValidateDescriptor` | protocol/validate.go:51-85 | the descriptor check, with its loop over levels, accepts exactly the valid descriptors |
| `AdapterSession.HandleMessage` | protocol/adapter.go:58-136 | one turn of the server: the state machine accepts exactly a message that continues a conversation, and replies with its answer or one error; a crash of the evaluator and an answer that cannot be written give none |
| `AdapterSession.ServeLines` | protocol/adapter.go:50-144 | the loop answers the longest accepted prefix, stops at the next line (too long, not decoded, refused, crashing, or not answered in writing) with the end that belongs to it, and reads nothing after it |
| `AdapterSession.ServeAdapter` | protocol/adapter.go:41-144 | the same behind the descriptor check |
| `AdapterSession.ConversationIsConforming` | protocol/adapter.go:54-136 | the accepted sequences that end with end_run are exactly hello, describe, begin_run, (evaluate or cancel)*, end_run under the version, boundary and count checks |
| `AdapterSession.SucceedsOnConversations` | protocol/adapter.go:41-144 | serving succeeds exactly on such a conversation, every answer given and written, without a read failure |
| `AdapterSession.EndBoundaryIsFree` | protocol/adapter.go:121-132 | the end boundary may say anything beside its count: it is not compared with the begin boundary |
| `AdapterSession.RepliesCorrelate` | protocol/adapter.go:431-455 | the k-th reply names the k-th request by id and run; an error reply is given exactly for a refused message, and is the last |
| `AdapterReplies.AnswerSays` | protocol/adapter.go:431-441 | every answer has the type that belongs to its request, the negotiated version, and a payload with exactly these members: the selected version and policy, the descriptor, the boundary of the request, the result, or the cancellation |
| `AdapterReplies.RefusalSays` | protocol/adapter.go:443-455 | a refusal is an error in the negotiated version, or the current one before; its code tells a message that is not valid from one out of place |
| `AdapterReplies.BoundaryIsRead` | protocol/adapter.go:95-101 | a boundary is read exactly from null or an object without other members, each of the three a text or a safe integer, or missing or null and then empty |
| `AdapterReplies.GreetingIsRead` | protocol/adapter.go:72-79 | the same for a greeting, whose versions are a list of texts |
| `AdapterReplies.AcknowledgementIsRead` | protocol/adapter.go:227-235 | the same for an acknowledgement |
| `AdapterWire.CanonicalBytesArrive` | protocol/adapter.go:314-322 | canonical bytes given as a payload arrive unchanged, exactly when their value also fits one level deeper |
| `AdapterWire.PayloadIsRead` | protocol/adapter.go:431-441 | a payload that is written reads back as its value and is its own canonical form |
| `AdapterWire.DeepestTextCannotBeSent` | protocol/adapter.go:457-467 | the depth condition is needed: the deepest canonical text cannot be sent |
| `WireFidelity.BoundaryTravels` | protocol/adapter.go:245-253 | a run boundary can be sent exactly when its texts are UTF-8 and its count is a safe integer, and is read back as it was |
| `WireFidelity.GreetingTravels` | protocol/adapter.go:227-231 | the same for a greeting, whose texts are UTF-8 |
| `WireFidelity.TypeIsRead` | protocol/adapter.go:58-136 | no two message types are spelled alike |
| `WireFidelity.MessageArrives` | protocol/adapter.go:457-467 | a message is written to a line exactly when its payload fits into it, and read back as it was with the payload in canonical form, unless the line is too long for the reader |
| `WireFidelity.MessageIsOneLine` | protocol/adapter.go:457-467 | a message that is written holds no line break before the one that ends it |
| `WireFidelity.TersePasses` | protocol/adapter.go:50-51 | short messages fit on every line, whatever limit the reader has |
| `AdapterSession.ServingIsDetermined` | protocol/adapter.go:41-144 | outcome and replies are determined by the input lines and by which writes succeed |
| `AdapterClient.Client.ExchangeRaw` | protocol/adapter.go:314-345 | one exchange: the next id and the payload in canonical form, or no message at all; a payload comes back exactly if the message was sent and a line taken that decodes, is of the expected type and no error, and names the id, version and run of that message, and then it is the payload of that line |
| `AdapterClient.Client.Initialize` | protocol/adapter.go:227-254 | the handshake takes three answered turns, or stops at the first reply not taken with its request as the last message |
| `AdapterClient.Client.EvaluateVector` | protocol/adapter.go:256-292 | a vector is skipped with its outcome, or exchanged and judged |
| `AdapterClient.Client.EndSession` | protocol/adapter.go:294-304 | the end carries the number of all vectors, and its echo must be the same boundary |
| `AdapterClient.RunAdapterCorpus` | protocol/adapter.go:146-217 | over any lines an adapter may write and any failing writes, the run is reported exactly when every turn of the script is sent and answered, nothing follows and the adapter exits; then line k answers message k in type, id, version and run, and there is one result per vector, in which a skipped one says why |
| `AdapterClient.KeptAll` | protocol/adapter.go:256-267 | nothing is skipped exactly when as many vectors are sent as there are |
| `AdapterClient.RunCorrelates` | protocol/adapter.go:333-344 | in a reported run there is one line for every message and it names that message, of which the types and the numbered ids are written out |
| `AdapterClient.HostIDsDiffer` | protocol/adapter.go:316-316 | no two messages have one id |
| `AdapterClient.SkippedMeans` | protocol/adapter.go:256-267 | a vector is skipped exactly if it is longer than the descriptor allows or asks for a capability the descriptor lacks, and its result says which |
| `AdapterClient.RunReportsSkips` | protocol/adapter.go:174-186 | in a reported run every such vector is reported so |
| `AdapterScript.SelectsCurrent` | protocol/adapter.go:422-429 | a valid descriptor makes the handshake select the current version |
| `AdapterScript.ScriptContinues` | protocol/adapter.go:121-128 | the adapter accepts every message of the script, and the end exactly when no vector was skipped |
| `AdapterScript.ControlTurns` | protocol/adapter.go:227-254 | the control turns of every session go well, except for the end after a skipped vector |
| `AdapterScript.AnswersAreTaken` | protocol/adapter.go:333-344 | every answer the adapter gives to the script is one the client takes |
| `AdapterComposition.SessionStopsAt` | protocol/adapter.go:50-186 | both sides stop at the first turn that does not go well, with the end that turn determines; without one the run is reported |
| `AdapterComposition.SessionSucceedsExactlyWhen` | protocol/adapter.go:146-217 | in every session of both sides the version is the current one, and the run is reported exactly when no vector is skipped and every vector fits into its message, does not crash the evaluator, and has a result that fits into its reply |
| `AdapterComposition.SessionEqualsDirectRun` | protocol/adapter.go:174-186 | a reported session has one result per vector, in corpus order, equal to judging the evaluation in process |
| `AdapterComposition.ReferenceSession` | protocol/adapter.go:347-379 | with the reference evaluator and canonical vectors, the run is reported exactly when none is skipped, nested too deep, has the wrong payload past all checks, or exceeds a line; then every result is the one the runner gives in process |
| `AdapterComposition.LoadedSession` | protocol/corpus.go:79-190 | the same for every loaded corpus, whose vectors are canonical |
| `AdapterComposition.CrashEndsSession` | protocol/validate.go:152-160 | the first vector that crashes the evaluator ends the session, though nothing was skipped |
| `AdapterComposition.DeepestVectorIsNotReported` | protocol/adapter.go:457-467 | no session reports a corpus that holds the deepest canonical text |
| `AdapterComposition.SessionExists` | protocol/adapter.go:146-217 | for every valid adapter and corpus within the limit there is a session, so the previous rows are not vacuous |
| `AdapterComposition.SomePairIsCompatible` | protocol/adapter.go:146-217 | there is such an adapter and corpus, whatever the vector |
| `ReferenceAdapter.ValidateExtensions` | protocol/validate.go:407-440 | the loop with its set of namespaces accepts exactly lists within the limit, all sound, without a repeated namespace |
| `ReferenceAdapter.ValidateCaseEnvelope` | protocol/validate.go:87-119 | accepts exactly the sound envelopes |
| `ReferenceAdapter.ValidateInvocation` | protocol/validate.go:121-169 | counts payloads, then checks the one the operation names, or crashes on a missing one |
| `ReferenceAdapter.Evaluate` | protocol/reference.go:32-72 | fills the result step by step into the specified sealed result |
| `ReferenceAdapter.SealInvocationResult` | protocol/reference.go:74-86 | the sealed result has the material it had and carries the digest of that material; without one it is a failure with one more valid finding, no digest, and all else as it was |
| `ReferencePipeline.SealMeans` | protocol/reference.go:74-86 | the seal depends on the material alone, and sealing again changes nothing |
| `ReferencePipeline.SealedIsFixed` | protocol/reference.go:109-117 | sealing leaves a result as it is exactly when it carries the digest of its material, which is what the validator checks |
| `ReferenceAdapter.EvaluateAdapterPayload` | protocol/adapter.go:347-379 | every payload that does not crash ends in the sealed draft |
| `ReferenceAdapter.ValidateInvocationResult` | protocol/reference.go:92-134 | accepts exactly the valid results, recomputing the seal |
| `ReferenceAdapter.JudgeVector` | protocol/runner.go:43-67 | the case result of a result, field by field, with sorted finding codes |
| `ReferenceAdapter.RunReferenceVector` | protocol/runner.go:43-67 | the case result of one vector, or the crash |
| `ProtocolModel.ReasonTellsOutcome` | protocol/runner.go:69-105 | the reason alone tells whether a result matched its expectation |
| `ReferencePipeline.CrashesExactlyWhen` | protocol/validate.go:125-163 | the evaluator dereferences a missing payload exactly on an offline case with one payload that is not the one named, for four operations, that passes all earlier checks |
| `FaultyCases.SomeCaseCrashes` | protocol/validate.go:152-160 | there is such a case: a canonical text with every required field and a sound envelope |
| `ReferencePipeline.SealedResultIsValid` | protocol/adapter.go:347-391 | the sealed result of any payload passes the validator under the id read from the raw bytes, exactly unless it has no canonical form or the case has an empty id |
| `FaultyCases.SomeResultIsInvalid` | protocol/adapter.go:347-391 | there is a text with every required field and an empty id whose sealed result the validator refuses |
| `ReferencePipeline.RejectedCarriesNothing` | protocol/reference.go:37-41 | a rejected result carries one finding and no score, decision or observed digest |
| `ReferencePipeline.AcceptedExactlyWhen` | protocol/reference.go:32-72 | a result is accepted exactly when every check passed, and then carries the validated evidence of its kind: the score, the decision, or the digest of the canonical bytes, the request, the replay or the attestation |
| `ReferencePipeline.OversizeExactlyWhen` | protocol/adapter.go:347-379 | a text is rejected with the case-bytes code exactly when its case is sound so far and the text is longer than the case itself allows; an accepted one is within both limits |
| `ReferencePipeline.RefusedBeforeEvaluation` | protocol/adapter.go:347-370 | what does not decode, lacks a required field or has no sound envelope is rejected with one semantic finding, the last under the identity it decoded to |
| `ReferenceAdapter.ValidateAttestation` | protocol/validate.go:490-510 | accepts exactly attestations with identity, state, ceiling, a later expiry and sorted limitations |
| `ReferenceAdapter.CompareResult` | protocol/runner.go:69-105 | the comparison with an expectation: whether it holds, and the reason it gives |
| `ReferencePipeline.SealTellsResultsApart` | protocol/reference.go:109-117 | two valid results have one seal exactly when they are one result, if the digest tells results apart |
| `JsonPointer.DecodeOfEncode` | protocol/corpus.go:387-415 | decoding the spelling of any token list gives the list back |
| `JsonPointer.EncodeOfDecode` | protocol/corpus.go:387-415 | every accepted pointer is the spelling of the tokens it decodes to |
| `JsonPointer.RefusedPointers` | protocol/corpus.go:387-415 | a pointer is refused exactly for a missing first slash or a tilde that starts no escape |
| `JsonPointer.JsonPointerTokens` | protocol/corpus.go:387-415 | the nested loops that overwrite the parts compute this decoding |
| `Mutation.SucceedsExactlyWhen` | protocol/corpus.go:304-374 | a replacement succeeds exactly on an existing target, a removal on an existing member of an object, an addition inside an object |
| `Mutation.ReadBack` | protocol/corpus.go:304-355 | after replace or add the path reads the new value; after remove it is absent |
| `Mutation.RemoveThenAdd` | protocol/corpus.go:337-355 | adding the removed value again restores the document |
| `Mutation.AddThenRemove` | protocol/corpus.go:337-355 | removing what was added where nothing stood restores the document |
| `Mutation.ReplaceTwice` | protocol/corpus.go:330-350 | only the last of two replacements remains, and replacing a value by itself changes nothing |
| `Mutation.OthersUnchanged` | protocol/corpus.go:304-374 | every path that parts from the target, whether or not it leads anywhere, reads the same before and after |
| `Mutation.UnsignedPathsDiverge` | protocol/corpus.go:357-385 | without signed tokens every path parts from that of a mutation as soon as it differs |
| `Mutation.IndexTokensAreUnique` | protocol/corpus.go:376-385 | an accepted index token without a sign is the canonical decimal of its index |
| `Mutation.SignedTokensCollide` | protocol/corpus.go:376-385 | with a sign index tokens are not unique: +1, +01 and 1 name one element |
| `Mutation.StaysCarried` | protocol/corpus.go:301-301 | the mutated document has a canonical form exactly when the new value fits at its depth and an added name is UTF-8 |
| `Mutation.OutputIsCanonical` | protocol/corpus.go:279-302 | the output of a mutation is its own canonical form; in it the place of the mutation holds the parsed value of a replacement or addition, or nothing after a removal, and every place apart from it holds what it held |
| `Mutation.RemovalNeverFailsLate` | protocol/corpus.go:279-302 | a removal from a canonical base fails only for its pointer or a missing target |
| `Mutation.AppliesExactlyWhen` | protocol/corpus.go:279-374 | on a canonical base a mutation is applied exactly when its pointer leads to a place the operation can change and, for replace and add, the value parses and fits at its depth; one whose value does not parse is refused |
| `MutationInPlace.MutateObject` | protocol/corpus.go:337-355 | the in-place change of one map, with everything else as it was |
| `MutationInPlace.MutateArray` | protocol/corpus.go:319-331 | the in-place change of one slice element |
| `MutationInPlace.MutateDocument` | protocol/corpus.go:304-335 | the recursion through shared mutable containers shows exactly the specified mutation, and nothing on failure |
| `MutationInPlace.ApplyJSONMutation` | protocol/corpus.go:279-302 | decode, mutate in place, print: the specified output, which means the mutation |
| `RequiredFields.CheckFollowsTable` | protocol/required_fields.go:9-138 | the nested check accepts exactly the values that meet the table of required fields |
| `RequiredFields.RequiredFieldsAreCaught` | protocol/required_fields.go:9-184 | removing one field of a passing case makes it fail exactly when the check requires that field of it, arrays and optional blocks included |
| `RequiredFields.AskedIsThere` | protocol/required_fields.go:151-158 | a field the check requires of a passing value is there to be removed |
| `ReferenceAdapter.RequiredFieldIsRejected` | protocol/corpus.go:156-175 | for every passing base and every pointer to a required field the removal succeeds and its payload is rejected |
| `ReferenceAdapter.RequiredFieldVectorPasses` | protocol/runner.go:43-96 | the resulting vector is scored as passed, exactly when the rejection can be sealed |
| `Corpus.LoadItems` | protocol/corpus.go:95-124 | one manifest list is loaded exactly when every entry can be built and no identity repeats |
| `Corpus.LoadNormativeCorpus` | protocol/corpus.go:79-190 | the assembly computes the specified corpus |
| `Corpus.CorpusIsStrictlySorted` | protocol/corpus.go:176-176 | a loaded corpus is strictly sorted by well-formed identities |
| `Corpus.LoadedIsCanonical` | protocol/corpus.go:91-174 | the bytes of every loaded vector are canonical |
| `Corpus.LoadIgnoresOrder` | protocol/corpus.go:91-176 | the loaded corpus, or the failure, does not depend on the order of cases, mutations, requests and required fields |
| `InspectionEvents.VerifyJournal` | internal/relation/pilot_inspection_journal.go:569-600 | the loop over a journal accepts exactly chains of events that follow one another |
| `InspectionEvents.BuiltFollows` | internal/relation/pilot_inspection_journal.go:501-548 | an event built from a journal has the next sequence number and extends it to a journal that verifies |
| `InspectionEvents.BuiltExactlyWhen` | internal/relation/pilot_inspection_journal.go:501-548 | an event is built exactly for a journal that verifies, a target of the session, a known assessment, a time later than all recorded ones, and as a correction exactly if the target was assessed before |
| `InspectionEvents.BuiltSays` | internal/relation/pilot_inspection_journal.go:501-548 | what is built says what was asked, and supersedes the last event of its target |
| `InspectionEvents.CanonicalNames` | cmd/evalwitness/relation_inspection_journal_command.go:654-661 | exactly the names of the sequences 1 to 999999 are canonical |
| `InspectionEvents.CandidatesDiffer` | internal/safety/cache_file.go:159-170 | a candidate file has neither the name of an event nor one a load accepts |
| `InspectionLoad.LoadPilotInspectionEvents` | cmd/evalwitness/relation_inspection_journal_command.go:636-681 | parsing, sorting and reading give the journal of a directory that holds exactly its events, and fail otherwise |
| `InspectionJournal.StepKeeps` | cmd/evalwitness/relation_inspection_journal_command.go:133-192 | every step of any recorder or finalizer keeps the invariant, and the journal grows by at most one event |
| `InspectionJournal.LinkKeeps` | internal/safety/cache_file.go:104-106 | an exclusive link puts the event exactly at the end of the journal, or does nothing |
| `InspectionJournal.DirectoryIsJournal` | cmd/evalwitness/relation_inspection_journal_command.go:133-192 | in any interleaving the directory holds exactly the events 1 to n, which verify, and beside them only candidates; a completion exists only with the record it names |
| `InspectionJournal.JournalGrows` | cmd/evalwitness/relation_inspection_journal_command.go:176-192 | later journals extend earlier ones: no overwrite and no lost event |
| `InspectionJournal.LoadReturnsJournal` | cmd/evalwitness/relation_inspection_journal_command.go:636-681 | a load returns the whole journal of the moment it listed the directory |
| `InspectionJournal.AcceptedIsLoaded` | cmd/evalwitness/relation_inspection_journal_command.go:176-192 | an accepted append is in the journal every later load returns, at its own place |
| `InspectionJournal.PublishKeeps` | cmd/evalwitness/relation_inspection_journal_command.go:358-373 | the record and completion steps of a finalizer keep the invariant: the record before its completion, and both in the store once the finalization is reported |
| `InspectionJournal.CompletionIsCompared` | cmd/evalwitness/relation_inspection_journal_command.go:358-373 | publishing a completion fails exactly when another one is there; otherwise it is the one that is stored |
| `InspectionJournal.RecordIsCompared` | cmd/evalwitness/relation_inspection_journal_command.go:358-373 | publishing a record fails exactly when nothing can be finalized or another record has its digest |
| `InspectionJournal.FinalizedIsStored` | cmd/evalwitness/relation_inspection_journal_command.go:358-373 | in every run, a process that reports a finalization left its record and its completion in the store, and they stay there |
| `InspectionJournal.StoreGrows` | cmd/evalwitness/relation_inspection_journal_command.go:709-719 | records and the completion never change once published |
| `InspectionJournal.FinalizersAgree` | cmd/evalwitness/relation_inspection_journal_command.go:358-373 | all processes that report a finalization agree on the completion |
| `InspectionJournal.AppendAlone` | cmd/evalwitness/relation_inspection_journal_command.go:176-192 | from a loaded journal: refused when no event can be built, refused without a trace when the place is taken, and otherwise the event lies under its name |
| `InspectionJournal.ListingSucceedsExactlyWhen` | cmd/evalwitness/relation_inspection_journal_command.go:654-661 | a listing is accepted exactly when no candidate is present and the numbers still have six digits |
| `InspectionJournal.SomeListingIsRefused` | cmd/evalwitness/relation_inspection_journal_command.go:654-661 | there is a run of two processes in which a listing fails though nothing is wrong |
| `CapsulePublish.RequireNewTargets` | cmd/evalwitness/capsule_command.go:496-512 | accepts exactly different targets none of which is taken, if every look succeeds |
| `CapsulePublish.NewStageRoot` | cmd/evalwitness/capsule_publish.go:162-184 | a staging root beside its target exactly when none of its three steps fails and no file is in the way, or only directories on the way |
| `CapsulePublish.StageAll` | cmd/evalwitness/capsule_publish.go:53-96 | staging shows nothing but directories on the way to targets; it succeeds exactly when none of its steps fails and the ways are free, and then every artifact lies at its leaf |
| `CapsulePublish.LinkFiles` | cmd/evalwitness/capsule_publish.go:115-123 | the files are linked one by one without overwriting; a failing step, linking or syncing, stops it and tells how many |
| `CapsulePublish.Rollback` | cmd/evalwitness/capsule_publish.go:104-114 | the deferred rollback takes every published target away again |
| `CapsulePublish.VerifyPublished` | cmd/evalwitness/capsule_publish.go:131-160 | accepts exactly when the sync and both readings succeed, the tree at the directory target verifies, and the archive target has the size and digest of the staged archive |
| `CapsulePublish.PublishGroup` | cmd/evalwitness/capsule_publish.go:101-142 | links, rename and verification: all of it shows exactly when none of the 2n + 3 steps fails and the staged directory verifies, and otherwise none |
| `CapsulePublish.PublishCapsuleArtifacts` | cmd/evalwitness/capsule_publish.go:29-142 | succeeds exactly when the sidecars are complete, the targets new and reachable, none of the 9n + 1 steps fails and the directory verifies; then the directory at its target verifies, the archive is the staged one and every target is in place, and otherwise the file system is as it was but for directories on the way to targets |
| `CapsulePublish.ErrorLeavesNothing` | cmd/evalwitness/capsule_publish.go:58-114 | after an error each target is absent as before, nothing changed and no staging root remains |
| `CapsulePublish.SuccessPublishesAll` | cmd/evalwitness/capsule_publish.go:115-141 | after success every target holds its staged bytes, nothing that was there changed and no staging root remains |
| `CapsulePublish.SomeJobIsSound` | cmd/evalwitness/capsule_publish.go:29-51 | jobs the assumptions allow exist |
| `TournamentWaves.CountWaves` | cmd/evalwitness/eval_plan.go:340-359 | the loop over the rounds computes the waves |
| `TournamentWaves.EliminationMatches` | cmd/evalwitness/eval_plan.go:351-357 | the rounds of single elimination together play n - 1 matches |
| `TournamentWaves.AnyBracketHasAllMatches` | cmd/evalwitness/eval_plan.go:249-252 | however it is drawn, leaving one of n takes n - 1 matches |
| `TournamentWaves.RoundsIsLogarithm` | cmd/evalwitness/eval_plan.go:353-357 | the number of rounds is the logarithm of base two, rounded up |
| `TournamentWaves.WavesAreBounded` | cmd/evalwitness/eval_plan.go:340-359 | one worker needs (n-1) * orders waves, more workers never more, and the waves lie between the bounds of matches and rounds |
| `EvalPlan.MinMaxInts` | cmd/evalwitness/eval_plan.go:465-476 | the least and the greatest element |
| `EvalPlan.AllPairInputTokens` | cmd/evalwitness/eval_plan.go:292-310 | the nested loops list the tokens of every pair in order |
| `EvalPlan.PairsAreAll` | cmd/evalwitness/eval_plan.go:292-310 | every pair of different trajectories is listed, and nothing else |
| `EvalPlan.PairsAreCounted` | cmd/evalwitness/eval_plan.go:292-310 | there are n(n-1)/2 pairs |
| `EvalPlan.BuildEvalPlan` | cmd/evalwitness/eval_plan.go:148-290 | the planner sums the estimates of its tasks, or refuses an adaptive pair that cannot afford one order |
| `EvalPlan.PlanIsOrdered` | cmd/evalwitness/eval_plan.go:148-290 | calls, input tokens and duration: best <= expected <= worst |
| `EvalPlan.BracketWithinPlan` | cmd/evalwitness/eval_plan.go:241-268 | the input of any single-elimination bracket of a task, in any orders within the range, lies between best and worst |
| `EvalPlan.AllPairsWithinPlan` | cmd/evalwitness/eval_plan.go:269-273 | the same for all pairs of one task |
| `EvalPlan.EvaluationWithinPlan` | cmd/evalwitness/eval_plan.go:148-290 | however the tournaments of all tasks are drawn and decided, the calls and the input of the whole evaluation lie between best and worst, and as many pairs are asked as planned |
| `EvalPlan.OrdersAskPairs` | cmd/evalwitness/eval_plan.go:169-199 | a pair is asked in the repeated orders, for both orders in twice as many, and adaptively in one up to as many as fit the calls allowed; only an adaptive pair for which not one fits is refused |
| `EvalPlan.EvaluationCalls` | cmd/evalwitness/eval_plan.go:169-199 | what an evaluation really calls: pairs times repetitions times calls, twice that for both orders, and adaptively no more than the calls allowed for each pair |
| `EvalPlan.CandidatesAreCounted` | cmd/evalwitness/eval_plan.go:207-240 | scoring candidates on their own calls for each of them, scoring them jointly once for each task |
| `EvalPlan.AbsoluteRounds` | cmd/evalwitness/eval_plan.go:330-338 | candidates are scored in the fewest rounds of at most as many as there are workers |
| `EvalPlan.RealDurationWithin` | cmd/evalwitness/eval_plan.go:286-288 | if every wave takes between one second and the timeout, the whole lies between best and worst |
| `EvalEscalation.EscalationSummary.Add` | cmd/evalwitness/eval_plan.go:90-116 | a batch counted decision by decision, then the means: the summary is that of all decisions so far |
| `EvalEscalation.AddEvalEscalation` | cmd/evalwitness/eval_plan.go:83-118 | creates the summary on the first batch that is not empty and extends it by every later one |
| `EvalEscalation.CountersAreConserved` | cmd/evalwitness/eval_plan.go:90-113 | the pairs are split by their number of calls, and the escalated ones lie between those of two to four calls and those of more than one |
| `EvalEscalation.CallsAreCounted` | cmd/evalwitness/eval_plan.go:90-113 | with one to four calls a pair the counters give the total of the calls |
| `EvalEscalation.SumsKeepRange` | cmd/evalwitness/eval_plan.go:93-116 | the sums of confidences and masses keep the range of their terms |
| `BoundedWriters.BoundedTailWriter.Write` | cmd/evalwitness/bon_process.go:50-71 | one write, in place: the tail of what was held and what comes, and the rest counted as dropped |
| `BoundedWriters.HoldsTheTail` | cmd/evalwitness/bon_process.go:50-77 | after any writes the last min(limit, total) bytes are held, and dropped + held = total |
| `BoundedWriters.WriteAll` | cmd/evalwitness/bon_process.go:46-77 | the same for any sequence of writes to one writer |
| `BoundedWriters.BoundedRejectWriter.Write` | cmd/evalwitness/bon_process.go:33-44 | one write: the bytes taken and whether it is refused |
| `BoundedWriters.HoldsTheHead` | cmd/evalwitness/bon_process.go:33-44 | the first min(limit, total) bytes are held, and a nonempty write is refused exactly when the total passes the limit with it |
| `BoundedWriters.WriteAllOrRefuse` | cmd/evalwitness/bon_process.go:33-44 | the same for any sequence of writes to one writer: what it holds, and which writes go well |
| `BoundedWriters.EmptyWrites` | cmd/evalwitness/bon_process.go:33-37 | an empty write is refused exactly when the buffer is already full |
| `CapabilityMatrix.BuildCapabilityMatrix` | protocol/runner.go:107-144 | the grouping and counting loops compute the matrix of the five levels |
| `CapabilityMatrix.MatrixIsConsistent` | protocol/runner.go:177-179 | the part of the run validation that compares the matrix with the results |
| `CapabilityMatrix.LevelIsConserved` | protocol/runner.go:117-142 | the counters of a level add up to its results, or to one when it has none; only unknown outcomes can be missing |
| `CapabilityMatrix.MatrixConservesResults` | protocol/runner.go:107-144 | with known levels and outcomes the total is the number of results plus the number of empty levels |
| `CapabilityMatrix.MatrixIgnoresOrder` | protocol/runner.go:107-144 | the matrix is the same for every permutation of the results |

## Left out

- Flag parsing, output, exit codes, processes, pipes, signals, clocks, permissions and symbolic links.
- AdapterComposition.SessionSucceedsExactlyWhen: both sides write without failing; failing writes are part of the two sides, `AdapterSession.ServeLines` and `AdapterClient.RunAdapterCorpus`, each over any input.
- AdapterSession.HandleMessage: the text of an error reply is fixed; the program puts its error message there.
- WireFidelity.MessageArrives: lines are read as the canonical writer writes them; the payload of a message in other spelling, a carriage return at the end of a line and empty lines are left out.
- AdapterClient.RunAdapterCorpus: the assembled run is its version, descriptor and results; run digest, findings and the validation of the finished run are left out, except for the matrix.
- ReferenceAdapter.RunReferenceVector: the reason of a result that does not validate is a fixed text; the program quotes the error there.
- ReferencePipeline.SealedResultIsValid: that results have canonical forms is a condition here, because the encoding of results as JSON is not modelled.
- ScoreEvidence.ValidateScoreEvidence: token positions, served model and the messages of degradations are not part of the entity, because no check reads them.
- Corpus.LoadNormativeCorpus: the digest of the loaded corpus, the schema digest and the construction of request vectors from the frozen request corpus are left out; request vectors enter as vectors whose bytes are canonicalized and decode.
- Mutation.OutputIsCanonical: the value of a mutation is read by the strict parser; the manifest that carries it has already been decoded strictly.
- Case-insensitive matching of field names and other reflection of the decoder.
- InspectionJournal.DirectoryIsJournal: publication is the steps candidate, exclusive link, removal; syncing to disk and the deletion of files by other programs are left out, and a listing of the directory is one step.
- InspectionJournal.AcceptedIsLoaded: a process loads once; the load with which a recorder reports its own append is one more process.
- CapsulePublish.PublishCapsuleArtifacts: assumes that no target lies inside another, that the random names of staging roots are new and none is a target or inside one, that cleanup succeeds and nobody interferes; what verifies as a capsule directory is a predicate on trees; a process killed in the middle is not modelled.
- EvalPlan.BuildEvalPlan: quotients and scalings are exact where the program rounds floating-point numbers, integers do not overflow, and costs in dollars, limits and statistical power are left out; the escalation branch is kept although the planner never turns it on.
- BoundedWriters.BoundedTailWriter.Write: the lock is left out; writes are atomic.
- TournamentWaves.CountWaves: the quotient is exact; the program rounds a floating-point quotient.
- Decision evidence, attestation times and most of the reliability extension: checks on single objects.
