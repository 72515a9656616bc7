# Hollis: a verified model of its recovery, protocol and text cores

Hollis is a command line and local server in front of Apple Intelligence. This project models the
parts of it whose correctness is hard to see from one function, and proves what they promise for
every input, every interleaving and every run:

- **The folder batch engine.** A write-ahead protocol over a durable manifest and published results.
  `BatchProtocol` is the step machine with a crash (or an early return, or a write that took effect
  and yet reported an error) possible after every step; `BatchSafety` is its invariant and what every
  run therefore satisfies, `BatchOutcomes` what every item stands for; `BatchEngine` is the engine as
  it runs, each effect of which is proved to extend a run of that machine.
- **The child-process lifecycle.** `SubprocMachine` interleaves the main thread, the deadline watcher
  and two pipe drainers with forking, escaping and writing processes; `SubprocSafety`,
  `SubprocProgress` and `SubprocFairness` prove what a return guarantees and that it comes.
- **Strict JSON and guided output, written twice.** A grammar of RFC 8259 sections 2 to 7 that keeps
  every byte, the scan as functions proved sound and complete for it, the helper's scanner as a class
  proved to do that scan, the consumer's writer as a class, the round trip between them; the schema
  subset stated declaratively, both parsers of it, and the payload validator with its pointers.
  `JsonSpelling` ties escapes and character classes to tables of the characters as they are written.
- **The native event stream and the server's event stream**, as protocol state machines and as the
  classes that run them; `NativeShapes` says which outputs complete each operation, `StreamOrder` in
  which order a request's events come.
- **The chat store**, as transactions on a table, as interleaved processes, and the one refined by the other.
- **Three buffers and tables** that refine a simple function: the rolling edit distance, the
  standard-error capture, the terminal sanitizer.
- **Output geometry**, and **the image record** printed by one package and read back by another, whose
  pattern `MarkerPattern` writes out token by token.

Code that changes state in place is modelled as classes and methods with loops, tied to functions of
the old state; code made of expressions as functions and lemmas.

## Findings

Each is a property that one might expect and that the code does not have, with a lemma that shows it.

- The scanner's nesting limit of 2048 is not a limit on the text: the value of an outermost `schema`
  member is scanned as a document of its own, and so is a `schema` member directly inside it, so
  accepted texts are of any depth (`JsonLimits.NoDepthBound`), and
  repeated keys below such a member pass (`JsonLimits.RepeatsBelowSchema`). Without such a member the
  plain limits hold exactly (`JsonLimits.LimitsWithoutSchema`); with one, `JsonLimits.LimitsWithSchema`
  says exactly what does, and an accepted text meets the plain limits exactly when that member does
  (`JsonLimits.PlainUnlessSchema`).
- The pointer `/` reported for a payload means either the root or its member with the empty name
  (`SchemaValidate.SlashIsAmbiguous`); this is the only clash (`SchemaValidate.SpellingsDiffer`).
- An output ratio or size with a leading zero passes the option checks, and the image record printed
  for it is then not recognised (`OutputOptions.LeadingZeroLost`); this is the only case
  (`OutputOptions.ServedRecord`).
- A pad whose growing axis overflows a 64-bit word is refused as invalid options and not as too large
  (`OutputGeometry.PadRefused`, which says exactly when).
- A number is taken for a frame of the server's stream before the frame is written, so a lost frame
  can leave a gap (`SseStream.GapShown`). The numbers are 0, 1, 2, and on exactly when nothing landed
  after something that did not (`SseStream.NumberedUnlessGap`), which in a request fails exactly when
  the frame before a failure frame was lost and the failure frame was not
  (`StreamRequest.GapOnlyBeforeFailure`).

## Model

| member | source | states |
|---|---|---|
| BatchManifest.ValidateJob | internal/batch/manifest.go:212-291 | the one-pass check with seen-sets is the declarative validity of a manifest: every item well-formed, names strictly ascending, identities distinct, job identity derived from the plan (manifest fields outside the model are listed below) |
| BatchManifest.BelowExactly | internal/batch/manifest.go:261-263 | names are compared at the first place where they differ |
| BatchManifest.ValidateItem | internal/batch/manifest.go:375-450 | the checks on one item, one after another, are its declarative validity |
| BatchSafety.StepKeepsInv | internal/batch/engine.go:39-219 | every step of every invocation, crash steps included, keeps the protocol's invariant |
| BatchSafety.RunKeepsInv | internal/batch/engine.go:39-219 | every state of every sequence of invocations satisfies the invariant |
| BatchSafety.EveryRunIsSafe | internal/batch/engine.go:90-173 | in every run: no call follows a publication for its item, each item is published at most once, calls are spaced by the route's interval after the end of every earlier returned call, each call follows a durable running record of that very request, attempts per item strictly increase and stay within the durable counter, calls of one invocation stop at the first failure, the manifest stays valid and at most one item is running |
| BatchSafety.RunGrows | internal/batch/engine.go:198-216 | over any number of invocations and crashes published results stay, succeeded items stay, attempt counters and the pacing checkpoint never go back |
| BatchSafety.PublishedResultIsFinal | internal/batch/engine.go:176-219 | once an envelope is published it is never replaced, and every invocation that gets past reconciliation has recorded the item as succeeded with exactly its reference |
| BatchSafety.NoLaterCall | internal/batch/engine.go:104-124 | after the publication no call for that item is ever made |
| BatchOutcomes.EveryItemStands | internal/batch/engine.go:126-170 | in every run an item is left failed only by a definite failure of its last attempt, its label included; uncertain only by an interruption, by a failure that an ended context or its kind leaves open, or by output whose commit was not confirmed; succeeded only with exactly the output the provider gave under the planned model; its counter counts the attempts recorded |
| BatchOutcomes.PacedByRoute | internal/batch/engine.go:275-283 | 15 seconds between calls on the cloud and ChatGPT routes and 45 on the larger cloud model, counted from the end of the earlier call |
| BatchEngine.SummaryAddsUp | internal/batch/engine.go:309-333 | pending, succeeded, failed and uncertain add up to the items, and complete means that all succeeded |
| BatchEngine.Summarize | internal/batch/engine.go:309-333 | the counting loop computes that summary |
| BatchEngine.Host.Lock | internal/batch/store.go:94-162 | at most one invocation holds the job, and a lock nobody holds is refused only when the surroundings fail |
| BatchEngine.Host.Save | internal/batch/store.go:201-233 | a save that reports success is durable; one that reports failure may or may not be, and either way the run is one of the protocol; no step of the protocol is refused, so a failure is always trouble from the surroundings |
| BatchEngine.Host.CommitResult | internal/batch/store.go:235-301 | a result is published only for the running item's own request, never over another, and a reported reference is that of the published envelope; none is reported only on trouble from the surroundings or for an output that is empty, too long, not UTF-8 or from another model |
| BatchEngine.Host.VerifyResult | internal/batch/store.go:303-330 | a found result is a valid envelope of the item's current attempt; absence is reported only when nothing is published; an error about an item of the manifest is always trouble with the disk |
| BatchEngine.Host.Execute | internal/batch/engine.go:123-126 | exactly one call of exactly this request, answered as the provider answers it |
| BatchEngine.Host.WaitForPacing | internal/batch/engine.go:268-275 | a successful wait ends no earlier than the checkpoint, and only an ended context cuts one short |
| BatchEngine.ReconcileInterrupted | internal/batch/engine.go:176-219 | success leaves every published item recorded with its reference, every other running one uncertain and none running, and makes no call; no state that can be reached is refused: only trouble with the disk makes it fail |
| BatchEngine.RecoverItem | internal/batch/engine.go:198-216 | one interrupted item becomes succeeded with its published reference, or uncertain; only trouble with the disk prevents it |
| BatchEngine.Preflight | internal/batch/engine.go:77-88 | an invocation is admitted with failed or uncertain items only when the options say what to do with them; without trouble from the surroundings only such items keep one out |
| BatchEngine.DueExactly | internal/batch/engine.go:90-97 | what an invocation calls for: pending items always, failed and uncertain ones exactly when asked to, others never |
| BatchEngine.CallItems | internal/batch/engine.go:90-173 | calls are, in order, the first of those that are due, and never exceed the budget; success without exhaustion has made all of them, exhaustion means that the budget was used up on fewer; without trouble from the surroundings each attempt leaves its item as the response says |
| BatchEngine.AttemptItem | internal/batch/engine.go:98-170 | one pass makes at most one call, of the next request of this item, touches no other item, and succeeds only with the item durably succeeded; without trouble from the surroundings it makes its call and leaves the item durably succeeded, failed or uncertain as the response says |
| BatchEngine.RecordAttempt | internal/batch/engine.go:113-121 | success means that the running record of exactly this request is durable before the call, and only trouble with the disk prevents it |
| BatchEngine.FinishAttempt | internal/batch/engine.go:126-170 | no further call; success only when the published reference is durably recorded; without trouble from the surroundings the item is durably succeeded for output that can be published, failed for a definite failure or another model with the context open, under its label, and uncertain for an ended context, an ambiguous failure or output that cannot be published |
| BatchEngine.Run | internal/batch/engine.go:39-173 | every invocation is a stretch of a protocol run, releases the lock, and calls, in order, the first of the requests due after reconciliation, as many as it reports and at most its limit; without trouble each leaves its item as the response says, and the summary is that of the durable manifest even when it fails; on success the summary always is, and with budget to spare all that was due has been called; it fails only for bad options, a lock already held, trouble from the surroundings, or an item left failed or uncertain |
| SubprocSafety.StepKeepsInv | internal/subproc/subproc.go:151-309 | every step of every thread and of the environment keeps the invariant |
| SubprocSafety.SuccessIsWhole | internal/subproc/subproc.go:263-309 | a nil error without line overflow means that both pipes were read to EOF, nobody can write any more, and the callback saw all lines of the stream, as `SubprocSafety.LineIs` tells them (or the capture is the whole stream) |
| SubprocSafety.CallbackSees | internal/subproc/subproc.go:412-440 | and so exactly the lines that the child wrote one after another, each ended by a newline or by a return and a newline, with a last one not ended among them |
| SubprocSafety.LinesWithinCap | internal/subproc/subproc.go:412-440 | the callback gets only lines shorter than the cap, and a stream overflows only when as many bytes as the cap are buffered without a newline |
| SubprocSafety.SuccessBeforeDeadline | internal/subproc/subproc.go:296-308 | every run that returned a nil error has a deciding step that found the context open, and the verdict stood from there on |
| SubprocSafety.VerdictExplained | internal/subproc/subproc.go:286-309 | a call reports expiry only after its context ended, a rejected line exactly when a line was rejected and the context was open, a failed read only when no line was rejected, and success only when none of these happened |
| SubprocSafety.CleanedUp | internal/subproc/subproc.go:277-285 | the read ends are closed at most once in every state; at return they are closed, the leader is gone and no group member is left alive |
| SubprocSafety.WatcherGoneAtReturn | internal/subproc/subproc.go:223-236 | the watcher is joined before the call goes on to kill and return |
| SubprocSafety.LinesAppend | internal/subproc/subproc.go:412-440 | splitting into lines is independent of how the stream was buffered, at line boundaries |
| SubprocSafety.LineIs | internal/subproc/subproc.go:412-440 | what a line is: everything before its newline but one return there, and without a newline the rest, an empty rest being none |
| SubprocSafety.WrittenLines | internal/subproc/subproc.go:412-440 | lines without a newline or a final return, written one after another with either ending, are split into exactly themselves |
| SubprocProgress.StepRanks | internal/subproc/subproc.go:263-309 | no step, whoever makes it, raises the measure of the call's own work, and every own step that matters lowers it |
| SubprocProgress.RankAlongRun | internal/subproc/subproc.go:263-309 | over a whole run the measure never grows |
| SubprocProgress.DeadlineProgress | internal/subproc/subproc.go:271-285 | after the deadline a lowering step of the call is enabled until it has returned, even with a holder no signal can reach |
| SubprocProgress.ReadyStays | internal/subproc/subproc.go:221-285 | a thread with work waiting keeps it through every step of every other thread and of the environment |
| SubprocProgress.ReadyCounts | internal/subproc/subproc.go:221-285 | and when it moves, the measure falls |
| SubprocFairness.FairRunReturns | internal/subproc/subproc.go:263-309 | every infinite run in which no thread waits for ever with work at hand returns after the deadline, and reports expiry |
| SubprocProgress.DeadlineReturns | internal/subproc/subproc.go:271-300 | every run past the deadline extends to a return, which reports expiry |
| Capture.Capture.Write | internal/subproc/subproc.go:442-471 | what is kept is the prefix (all, or nothing) of everything drained, however it was cut into writes, and the writer is never held back |
| JsonSound.PaddedSound | native/SchemaSubset.swift:495-574 | what the scan yields renders to exactly the bytes it covers, is well-formed, and is within the limits of the place where it stands |
| JsonExact.DocumentComplete | native/SchemaSubset.swift:495-714 | every RFC 8259 text within the limits is accepted, read as that text |
| JsonExact.DocumentSound | native/SchemaSubset.swift:495-714 | whatever is accepted is such a text |
| JsonExact.AcceptsExactly | native/SchemaSubset.swift:495-714 | the scan accepts a byte string exactly when it is a conforming text, bytes beyond ASCII standing for themselves |
| JsonUnicode.WellFormedIsValid | native/SchemaSubset.swift:607-647 | reading UTF-8 byte by byte agrees with reading it sequence by sequence |
| JsonUnicode.AcceptsWellFormed | native/SchemaSubset.swift:495-714 | in well-formed UTF-8 the scan accepts exactly the conforming texts all of whose keys and strings are well-formed, so that repairing a string changes nothing |
| JsonExact.OneReading | native/SchemaSubset.swift:495-714 | a byte string has at most one reading |
| JsonLimits.LimitsWithoutSchema | native/SchemaSubset.swift:518-574 | without an outermost `schema` member the limits are container depth at most 2048 and no repeated decoded key |
| JsonLimits.LimitsWithSchema | native/SchemaSubset.swift:543-555 | with one, the other members are held to those limits, and `schema` to this: every value reached from it through `schema` members alone nests at most 2048 deep, those members aside |
| JsonLimits.OwnScanExact | native/SchemaSubset.swift:543-555 | a value scanned on its own passes exactly when every value along its `schema` members does, those members aside |
| JsonLimits.PlainUnlessSchema | native/SchemaSubset.swift:543-555 | an accepted text meets the plain limits exactly when its outermost `schema` value nests less than 2048 deep and repeats no key |
| JsonLimits.PlainlyFine | native/SchemaSubset.swift:518-605 | a text within the plain limits is never refused |
| JsonLimits.NoDepthBound | native/SchemaSubset.swift:543-555 | for every depth there is a deeper accepted text |
| JsonLimits.RepeatsBelowSchema | native/SchemaSubset.swift:543-555 | an accepted text whose `schema` repeats a key |
| JsonSpelling.HexExactly | native/SchemaSubset.swift:747-754 | the hexadecimal digits are those of two literal tables, in either case |
| JsonSpelling.ClassesExactly | native/SchemaSubset.swift:739-745 | white space, decimal digits and exponent marks are those of literal tables |
| JsonSpelling.NamesExactly | native/SchemaSubset.swift:707-733 | the literal names, the structural characters and the name `schema`, as they are written |
| JsonSpelling.EscapeDecodes | native/SchemaSubset.swift:649-682 | an escape of four digits, taken from the tables in any mix of cases, decodes to the UTF-8 of its code unit, or to U+FFFD for half of a pair |
| JsonSpelling.PairDecodes | native/SchemaSubset.swift:649-670 | the two escapes of the UTF-16 form of a scalar beyond the basic plane decode to its UTF-8 |
| JsonSpelling.ShortExactly | native/SchemaSubset.swift:607-647 | the one-letter escapes are those of a literal table |
| JsonSpelling.SpelledDecodes | native/SchemaSubset.swift:607-682 | however a character is spelled, plain, by a letter, by one escape or by two, it decodes to its UTF-8 and leaves what follows alone |
| JsonSpelling.TextDecodes | native/SchemaSubset.swift:607-682 | and so does a whole text |
| JsonSpelling.SpelledAlikeRefused | native/SchemaSubset.swift:530-542 | an object with two keys that spell the same characters, each in its own way, is refused |
| JsonScanner.Scanner.HexQuad | native/SchemaSubset.swift:672-682 | four hexadecimal digits and the code unit they spell (as `JsonSpelling.EscapeDecodes` says), or a refusal |
| JsonScanner.Scanner.ScanUnicodeEscape | native/SchemaSubset.swift:649-670 | surrogate pairs are joined and a lone surrogate becomes U+FFFD, as decoding the grammar's characters gives |
| JsonScanner.Scanner.ScanString | native/SchemaSubset.swift:607-647 | the string literal at the index, decoded byte by byte by section 7, or its failure |
| JsonScanner.Scanner.ScanNumber | native/SchemaSubset.swift:684-705 | the number literal at the index by section 6 |
| JsonScanner.Scanner.ScanLiteral | native/SchemaSubset.swift:707-714 | the literal name at the index |
| JsonScanner.Scanner.ScanValue | native/SchemaSubset.swift:504-516 | the value at the index, index and nesting count restored to what the scan function says, bytes remaining as termination measure |
| JsonScanner.Scanner.ScanArray | native/SchemaSubset.swift:576-605 | the array at the index, nesting counted and given back |
| JsonScanner.Scanner.ScanObject | native/SchemaSubset.swift:518-574 | the object at the index, repeated keys refused unless deferred, the range of the outermost `schema` kept |
| JsonScanner.Scanner.ScanMember | native/SchemaSubset.swift:530-560 | one member, a repeated key refused before its value is read |
| JsonScanner.Scanner.ScanDocument | native/SchemaSubset.swift:495-502 | the whole buffer, one value and white space |
| JsonScanner.Scan | native/SchemaSubset.swift:449-458 | the scanner passes exactly the conforming texts |
| JsonScanner.SchemaMember | native/SchemaSubset.swift:460-470 | a request passes exactly when it is a conforming text, and the raw bytes returned are then exactly the text of its outermost `schema` value |
| ByteOrder.SortedAscends | internal/runner/schema.go:653-660 | keys come out in strictly ascending byte order |
| ByteOrder.SortedUnique | internal/runner/schema.go:653-660 | any ascending list of the keys is that list |
| JsonWriter.WriteDecodes | internal/runner/schema.go:729-762 | a written string denotes the string that was written |
| JsonEncoder.Builder.WriteJSONString | internal/runner/schema.go:729-762 | the byte loop appends that string literal |
| JsonEncoder.Builder.EncodeTo | internal/runner/schema.go:680-720 | appends the encoding of the tree, or reports a number that is no finite double |
| JsonEncoder.Builder.EncodeObject | internal/runner/schema.go:682-694 | members in byte order of their keys |
| JsonEncoder.Builder.EncodeArray | internal/runner/schema.go:695-705 | items in order |
| JsonRoundTrip.WriterScannerRoundTrip | internal/runner/schema.go:672-762 | every encodable tree of depth at most 2048 is written as a text the strict scanner accepts, from which keys and strings are read exactly and every number with its value |
| JsonRoundTrip.EncodingIsStable | internal/runner/schema.go:672-720 | encoding what was read back gives the same bytes |
| JsonRoundTrip.EncodingIsNormalForm | internal/runner/schema.go:672-720 | two trees have the same bytes exactly when they agree up to how numbers of one value are spelled |
| JsonPointers.WriteTokenEscapes | internal/runner/schema.go:662-664 | the two replacements are the RFC 6901 escape, in the only order that works |
| JsonPointers.UnescapeEscape | internal/runner/schema.go:662-664 | unescaping an escaped name gives the name |
| JsonPointers.ReadPathText | internal/runner/schema.go:662-664 | a pointer's text, read by RFC 6901 section 3, gives back its tokens |
| JsonPointers.PathTextInjective | internal/runner/schema.go:662-664 | distinct places have distinct pointers |
| SchemaParse.Bounds | internal/runner/schema.go:500-537 | accepted exactly when both bounds are numbers this kind of node allows and in order |
| SchemaRules.KeywordsExactly | internal/runner/schema.go:315-345 | a keyword is allowed under a type exactly when the literal table has it in the row of the type |
| SchemaRules.BoundsExactly | internal/runner/schema.go:500-537 | bounds on items are the integers from 0 to 100, those on integers the integers to 2^53 either way, those on numbers free |
| SchemaRules.NodeByType | internal/runner/schema.go:303-498 | an admitted tree denotes a node of the kind its type names |
| SchemaParse.CheckKeywords | internal/runner/schema.go:337-345 | passes exactly when every keyword is allowed for the kind |
| SchemaParse.ParseEnum | internal/runner/schema.go:442-468 | accepts exactly non-repeating printable strings |
| SchemaParse.ParseRequired | internal/runner/schema.go:391-413 | accepts exactly non-repeating declared names |
| SchemaParse.ParseProperties | internal/runner/schema.go:358-390 | accepts exactly good names whose nodes are admitted, and the counter grows by every property below |
| SchemaParse.ParseSchemaNode | internal/runner/schema.go:303-498 | a node is accepted exactly when the declarative subset admits it at this object depth, nesting and remaining budget; the counter then has grown by the tree's property count; the pointer of a refusal spells a place of the tree or a keyword right below one |
| SchemaParse.ParseSchema | internal/runner/schema.go:142-170 | a decoded schema is accepted exactly when its encoding is at most 64 KiB and it is in the subset: object depth at most 3, at most 16 nodes on a path, at most 32 properties in all |
| SchemaParse.HelperParseExact | native/SchemaSubset.swift:137-296 | the helper's threaded parse accepts exactly the admitted trees, as the same node, with the same count |
| SchemaParse.HelperPlaced | native/SchemaSubset.swift:137-296 | and so does the pointer of every refusal by the helper |
| SchemaParse.SameSchemas | native/SchemaSubset.swift:84-101 | both sides accept the same trees as the same node, whichever fault is reported first |
| SchemaValidate.ValidateExact | internal/runner/schema.go:539-627 | nothing is reported exactly when the payload conforms |
| SchemaValidate.ValidatePayload | internal/runner/schema.go:279-288 | a payload is refused exactly when some place is at fault, and the pointer reported spells a place that is: a value failing its own node, an undeclared member, or an absent required one |
| SchemaValidate.GovernedResolves | internal/runner/schema.go:539-627 | the tokens of such a place, followed by RFC 6901 section 4, reach the value judged |
| SchemaValidate.SpellingsDiffer | internal/runner/schema.go:540-545 | two places share a spelling only as the root and its member with the empty name |
| SchemaValidate.SlashIsAmbiguous | internal/runner/schema.go:540-545 | both readings of `/` occur |
| NativeProtocol.JudgeKeeps | internal/runner/native.go:334-448 | every line taken keeps the session, and its delta is appended to what was emitted |
| NativeProtocol.AfterKeeps | internal/runner/native.go:334-448 | in every run the deltas emitted make up the last accepted snapshot |
| NativeProtocol.DeltasOnlyAppend | internal/runner/native.go:391-404 | deltas and snapshots of a shorter run are prefixes of those of a longer one |
| NativeProtocol.OpenStreamShape | internal/runner/native.go:368-404 | a stream still open is one available status and a chain of snapshots each extending the one before |
| NativeProtocol.StreamTheorem | internal/runner/native.go:405-434 | a stream that ends is that, then one completion repeating the last snapshot; nothing follows, and the text returned is the non-empty concatenation of the deltas |
| NativeShapes.StreamExactly | internal/runner/native.go:334-448 | a stream is completed with a text exactly by an available status, snapshots each extending the one before up to that text, not empty, and its completion without usage or guided object, every line well-formed and within the limit of all output |
| NativeShapes.StatusExactly | internal/runner/native.go:369-390 | a status request is completed exactly by one well-formed status, which is what it returns |
| NativeShapes.AnswerExactly | internal/runner/native.go:405-434 | a plain and a guided completion are completed with a text exactly by an available status and one completion with its usage, the guided one with an object that conforms and is returned |
| NativeShapes.ErrorReported | internal/runner/native.go:435-448 | an error event ends any operation with its own kind when that is one of the five a helper may report, and as a broken protocol else |
| NativeProtocol.RejectedAt | internal/runner/native.go:334-448 | a line rejected after others were taken ends the run: it is the first rejected, with its own verdict, and nothing after it counts |
| StreamRequest.Invocation.Handle | internal/runner/native.go:334-448 | the in-place update does what the judgement says; a failed line hands over no delta, and nothing is taken after completion |
| StreamRequest.Invocation.HandleStatus | internal/runner/native.go:369-390 | a refused status event leaves no half-filled status behind |
| StreamRequest.Invocation.HandleSnapshot | internal/runner/native.go:391-404 | a snapshot that revises earlier text is refused, any other emits exactly what is new |
| StreamRequest.Invocation.HandleComplete | internal/runner/native.go:405-434 | a completion that differs from the last snapshot is refused and changes nothing |
| StreamRequest.Stream | internal/runner/native.go:449-489 | unless the request ends or a write fails under it, it returns what its lines and its ending say: the end of the child after all lines, or the first line rejected, by its own kind; success only for a terminated session whose deltas were all handed over; on failure what was handed over is the deltas of some lines taken, with at most the next one cut off by a failed write |
| SseStream.StreamEvents.Send | internal/server/native.go:113-139 | one more part tried under the next number, its event line and then its data line written as far as they arrive; a client still dispatches exactly the parts that landed, each under its own event name |
| SseStream.StreamEvents.Delta | internal/server/native.go:161-185 | the opening goes out before the first delta and never again |
| SseStream.StreamEvents.Done | internal/server/native.go:186-206 | the closing parts, all with the full text |
| SseStream.StreamEvents.Failed | internal/server/native.go:207-220 | an error response before the stream has begun, one failure frame after |
| SseStream.NumbersIncrease | internal/server/native.go:113-139 | whatever was lost, the numbers that reach a Responses client strictly increase |
| SseStream.NumberedUnlessGap | internal/server/native.go:113-139 | Responses frames arrive numbered 0, 1, 2, and on exactly when no part that landed was tried after one that did not |
| SseStream.GapShown | internal/server/native.go:113-220 | a gap as it comes about: the first frame is lost and the failure frame arrives as number one |
| StreamRequest.GapOnlyBeforeFailure | internal/server/native.go:222-276 | a request leaves a number out exactly when the frame before a failure frame was lost and the failure frame was not |
| StreamRequest.Sink.Emit | internal/server/native.go:250-263 | a delta accepted is on the stream and accumulated, an empty one sends nothing, and none is refused unless the request has ended or a write fails |
| StreamRequest.StreamPrepared | internal/server/native.go:222-276 | a request ends refused, closed after exactly opening and deltas with their concatenation, or cut off with at most one failure frame; the deltas are those of helper's lines taken, at most the next one cut off; a closing part is tried only when the helper completes with a text that is not blank and the request has not ended, and then the request is closed unless a write fails |
| StreamRequest.OneTerminal | internal/server/native.go:186-220 | at most one terminal event, and nothing after it |
| StreamOrder.EventsInOrder | internal/server/native.go:139-220 | however a request ends, its events come in the order of its interface, by a table of which kind may follow which, none left out between; a failure comes only before any closing event, and every closing event repeats the text of the deltas |
| StreamRequest.ClosingAfterScript | internal/server/native.go:222-276 | before any closing part of a request come the whole opening and every delta, of which there is at least one |
| StreamRequest.ClientGathersText | internal/server/native.go:222-276 | when no write fails, what a client of a closed request gathers from the delta frames is the text the helper completed with, and Responses frames are numbered 0, 1, 2, and on |
| ChatTable.OrderedUnique | internal/store/store.go:845-865 | the rows of a conversation have one reading order, by number and then identifier |
| ChatTable.NextIsLength | internal/store/store.go:923-937 | with numbers counting from zero without gaps, the next number is the number of messages |
| ChatTable.InsertLast | internal/store/store.go:974-996 | a row after all others extends the messages read by itself |
| ChatStore.Store.NextMessageSeq | internal/store/store.go:923-937 | one more than the highest number of the conversation, zero for none, refused when it is gone |
| ChatStore.Store.AppendTurn | internal/store/store.go:974-996 | both messages of a turn or neither, after all others, and neither only for a conversation gone or a failed statement; numbers stay without gaps and no other conversation is touched |
| ChatStore.Store.CreateConversationWithTurn | internal/store/store.go:998-1026 | the conversation and its first turn together, or not at all exactly when a statement failed |
| ChatStore.Store.DeleteConversation | internal/store/store.go:1048-1068 | the conversation's messages go with it, no other conversation changes; it fails exactly for a conversation gone or a failed statement |
| ChatStore.RenumberedReads | internal/store/store.go:591-625 | renumbering by place keeps the reading order and the messages, and numbers them from zero |
| ChatStore.MovedStep | internal/store/store.go:613-619 | the temporary number of the first pass is held by no other row, for positive identifiers and non-negative old numbers |
| ChatStore.PlacedStep | internal/store/store.go:620-624 | nor is the final number of the second pass |
| ChatStore.Store.Renumber | internal/store/store.go:591-625 | the two passes give the renumbered table, and no update meets a number already held |
| ChatStore.DeduplicatedRises | internal/store/store.go:573-583 | a conversation with several repeated numbers is visited once |
| ChatStore.AllRenumberedSound | internal/store/store.go:566-627 | renumbering those that repeat a number leaves no repeat and changes no message |
| ChatStore.Store.DuplicateGroups | internal/store/store.go:567-583 | lists exactly the conversations that repeat a number |
| ChatStore.Store.RepairDuplicateSequences | internal/store/store.go:566-627 | each such conversation is visited exactly once and ends numbered from zero, every other row is unchanged, and the unique index that follows holds |
| ChatProtocol.StepKeepsInv | internal/cli/chat.go:124-183 | every step of every process, crashes and deletions included, keeps the invariant |
| ChatProtocol.EveryRunIsConsistent | internal/cli/chat.go:124-183 | in every interleaving each turn stored was generated from exactly the messages stored before it; messages alternate, never exceed 256, and none comes from a failed turn |
| ChatProtocol.RoomExactly | internal/chat/render.go:44-49 | a model is called exactly for a history of at most 254 messages |
| ChatProtocol.TurnsExclude | internal/store/store.go:700-750 | two processes are never inside a continuing turn together |
| ChatProtocol.OnlyWholeTurns | internal/cli/chat_image.go:241-276 | a conversation changes only by whole turns or by deletion, image turns included |
| ChatRefinement.StepRefines | internal/store/store.go:923-1026 | every transaction and every other step over the table is that step of the protocol on the messages read back, and keeps every conversation numbered without gaps |
| ChatRefinement.EveryDiskRunIsConsistent | internal/cli/chat.go:124-183 | in every interleaving over the table each conversation on disk is numbered 0, 1, 2, and on and reads as its turns, each generated from exactly the messages before it |
| ChatTurn.ExecuteTurn | internal/chat/render.go:44-49 | a turn that would not fit is refused before the model is called, and only such a one |
| ChatTurn.RunTurn | internal/cli/chat.go:124-160 | a stored turn is the history read, the prompt, and the model's answer to exactly that history; otherwise no message is left; it fails only for a conversation deleted meanwhile, a turn that would not fit, a model that does not answer, or a mishap with lock or store |
| ChatTurn.RunFirstTurn | internal/cli/chat.go:170-183 | a first turn is generated from no history and stored with its conversation or not at all; only a model that does not answer or a mishap keeps it out |
| EditDistance.NoCheaperScript | internal/cli/commandline.go:142-165 | no sequence of insertions, deletions, substitutions and swaps of neighbours is cheaper than the distance |
| EditDistance.CheapestScript | internal/cli/commandline.go:142-165 | some such sequence costs exactly the distance |
| EditDistance.DistanceLaws | internal/cli/commandline.go:142-165 | symmetric, zero exactly between equal strings, at most the longer length |
| EditDistance.ComputeDistance | internal/cli/commandline.go:142-165 | three rotating rows compute the recursive distance |
| EditDistance.FillRow | internal/cli/commandline.go:150-163 | one row from the two before it |
| EditDistance.NearestCommand | internal/cli/commandline.go:124-140 | the first, in order, of the nearest names within their own limits, or none |
| StderrCapture.ShortWrite | internal/runner/shortcut.go:736-743 | the ring drops its oldest bytes for the newest, wherever the write wraps |
| StderrCapture.CappedStderr.Write | internal/runner/shortcut.go:720-745 | the state depends only on everything written, and every byte is reported as taken |
| StderrCapture.CappedStderr.String | internal/runner/shortcut.go:747-757 | everything up to twice the half size, else its first half, the marker and its last half |
| TerminalStream.TerminalStreamWriter.Write | internal/cli/stream.go:76-79 | at most three bytes stay pending, and the output is what the input so far settles |
| TerminalStream.TerminalStreamWriter.Flush | internal/cli/stream.go:80-100 | the output is then the sanitized form of everything written |
| TerminalStream.WriteAll | internal/cli/stream.go:71-100 | any way of cutting the input into writes gives one output, without controls |
| TerminalStream.SanitizedClean | internal/cli/chat.go:942-955 | no C0 control but newline and tab, no DEL, no C1 control and no invalid UTF-8 is forwarded |
| TerminalStream.CleanPasses | internal/cli/chat.go:942-955 | text without any of these passes unchanged |
| TerminalStream.CleanBytes | internal/cli/chat.go:942-955 | no byte of the output is an escape |
| TerminalText.CharacterShown | internal/cli/chat.go:942-955 | every scalar value is shown as itself, or, a control other than line feed and tab, as backslash-u and its four digits |
| TerminalText.ByteShown | internal/cli/stream.go:83-92 | a byte at which no character stands is shown as backslash-x and its two digits, alone |
| TerminalText.PendingCompletes | internal/cli/stream.go:83-92 | bytes are held back only while they can still begin a character |
| TerminalText.FullUnlessBeginning | internal/cli/stream.go:83-92 | and always then |
| OutputGeometry.FitIsExact | internal/imagegen/output.go:213-252 | a picture wider than the ratio is cut in width or padded in height, one narrower the other way, one of the ratio left alone; the rounding error is under one pixel and the pixel limit holds |
| OutputGeometry.CropIsLargest | internal/imagegen/output.go:213-252 | the size along the axis cut is the largest that does not leave the picture beyond the ratio |
| OutputGeometry.PadIsSmallest | internal/imagegen/output.go:213-252 | the size along the axis padded is the smallest that brings the picture up to the ratio |
| OutputGeometry.CropRefused | internal/imagegen/output.go:213-252 | a crop within the limit is refused exactly when the ratio leaves it no pixel, and then as invalid options |
| OutputGeometry.PadRefused | internal/imagegen/output.go:213-252 | a pad is refused exactly when even the least one has too many pixels, and as invalid options instead of too large exactly when the axis that grows overflows a 64-bit word |
| OutputGeometry.FitServes | internal/imagegen/output.go:213-252 | what a fit yields is what the pixel loops need |
| OutputGeometry.CropImage | internal/imagegen/output.go:280-299 | the middle of the source, pixel for pixel, every access in bounds; cut short exactly by the end of the request |
| OutputGeometry.PadImage | internal/imagegen/output.go:301-335 | the source centred on white, each of its channels the nearest to its blend over white, every access in bounds; cut short exactly by the end of the request |
| OutputGeometry.SampleInside | internal/imagegen/output.go:345-387 | both source indices lie in the source and the weight is below one |
| OutputGeometry.InterpolateBetween | internal/imagegen/output.go:389-408 | each channel lies between the smallest and largest of its four neighbours |
| OutputGeometry.ResampledBetween | internal/imagegen/output.go:345-408 | each channel of a resized pixel lies between those of four source pixels, neighbours around the place sampled |
| OutputGeometry.ResampledMean | internal/imagegen/output.go:345-408 | the four pixels and the weights are fixed by (2x+1)W/2w - 1/2 and (2y+1)H/2h - 1/2, kept between the first and the last pixel |
| OutputGeometry.ResizeBilinear | internal/imagegen/output.go:345-387 | every channel is the mean of the four source pixels around the place where its pixel falls, each weighed by its nearness along both axes, rounded to the nearest with a half upwards; every access in bounds; cut short exactly by the end of the request |
| OutputGeometry.ResizeIdentity | internal/imagegen/output.go:345-387 | resizing to the same size changes no pixel |
| GoQuote.QuoteRoundTrip | internal/imagegen/conversation.go:151-154 | unquoting a quoted request gives the request, invalid UTF-8 included |
| GoQuote.OctalReads | internal/imagegen/conversation.go:151-154 | three octal digits, which no quoting prints, read as the byte they name or not at all |
| ImageMarker.QuotedStringEnd | internal/imagegen/conversation.go:158-175 | the flag loop finds the first quote no backslash escapes, or says that there is none |
| ImageMarker.QuoteEndFound | internal/imagegen/conversation.go:158-175 | whatever the request and the text after it hold, that is where the request was closed |
| MarkerRoundTrip.DetailsMatch | internal/server/image_generation.go:432-443 | the pattern takes the printed details exactly when no number has a leading zero |
| MarkerRoundTrip.MatchesPrinted | internal/imagegen/conversation.go:27 | the pattern takes nothing but what the server prints for such images |
| MarkerPattern.PatternExactly | internal/imagegen/conversation.go:27 | the pattern, written out token by token: a text is matched exactly when it is a style, two sizes, one of three output transforms and 64 hexadecimal digits between their fixed words |
| MarkerPattern.LeadingExactly | internal/imagegen/conversation.go:135-136 | what is trimmed at the front is one white space character, by its code point |
| MarkerPattern.TrailingExactly | internal/imagegen/conversation.go:135-136 | and at the back |
| MarkerRoundTrip.MarkerRoundTrips | internal/imagegen/conversation.go:135-156 | every request comes back unchanged, with or without a reference, unless a number has a leading zero; then the record is not recognised |
| OutputOptions.LeadingZeroLost | internal/imagegen/output.go:190-207 | 064x64 is a size the checks take, and its record is never recognised |
| OutputOptions.ParsePositiveUint | internal/imagegen/output.go:190-207 | the digit loop accepts exactly the digit runs, leading zeros and all, of positive 64-bit numbers |
| OutputOptions.ControlsExactly | internal/imagegen/output.go:132-188 | the checks take exactly no control at all, or a fit with one of a ratio and a size, each two positive 64-bit numbers between which stands the separator, and a size of at most 16 million pixels |
| OutputOptions.ServedSpelling | internal/imagegen/output.go:132-188 | controls the checks take, trimmed as the server trims them, are printed as a transform with two runs of digits |
| OutputOptions.ServedRecord | internal/server/image_generation.go:269-279 | the record of every image served is recognised, its request unchanged, exactly when the controls spell no number with a leading zero |

## Left out

- File systems, permissions, ACL listings, path canonicalisation and symbolic-link races: the durable store is a manifest, a map of published results and an exclusive lock, with the effects and misreported failures of each operation.
- SHA-256: digests are free constructors, so equal digests mean equal content; the truncation of long result names is not modelled.
- The bytes of batch sources; that a recheck before a call finds them changed, that the context is cancelled, that another process holds the lock and that a disk operation fails are what an arbitrary sequence of mishaps, a parameter of the host, decides.
- Clocks: readings are assumed never to go back, and a successful wait to have elapsed.
- BatchEngine.Host.Execute: does not model what a provider does; its answers are an arbitrary function of the request, ambiguous failures and an ended context among them.
- SubprocProgress.DeadlineReturns: does not model a child that holds standard input unread, which internal/subproc/subproc.go:29-36 accepts as a limitation, nor reuse of a process group identifier.
- SubprocFairness.FairRunReturns: takes from the system that a thread with work at hand moves in the end, a callback returns, and a killed leader dies.
- BatchManifest.ValidateJob: does not model the manifest's paths, creation time, instruction size and skipped entries, which the source's check also looks at.
- JsonLimits.NoDepthBound: every nested `schema` member is a native recursion of its own, whose use of the stack is not modelled.
- JsonScanner.Scan: does not model the pointer and the reason reported for a refused text, only the kind of failure and what is accepted.
- JsonScanner.Scanner.ScanString: works on bytes; the repair of ill-formed UTF-8 when a string is built is not modelled, so the result speaks of the source only for well-formed texts (where there is nothing to repair), nor is the canonical equivalence of Swift strings: keys are compared byte by byte.
- Numbers: reading a literal as a finite double and printing a double are parameters, of which it is assumed that what is printed is a JSON number that reads as the double printed; bounds are compared over the reals.
- SchemaParse.ParseSchemaNode: states what is accepted, the resulting node and that the pointer of a refusal leads to a place of the schema; which of several faults comes first and the reason's wording are computed but not specified.
- SchemaParse.SameSchemas: starts from decoded trees; decoding by the platform's JSON library is not modelled.
- The guided-generation types built from a schema for the model framework.
- NativeProtocol.JudgeKeeps: takes a line as one decodable event or none; decoding is not modelled, and whether a structured object conforms is a fact about the event.
- SseStream.StreamEvents.Send: models kinds, texts and numbers of frames, whose event and data lines arrive whole or not at all; a line cut within, their JSON envelopes and HTTP are not modelled, and a flush is part of the write before it.
- StreamRequest.StreamPrepared: takes as parameters when the request's context ends, looked at before each delta and after the last, which texts are blank, and how the child process ends.
- ChatStore.Store.AppendTurn: does not model run records, timestamps, titles, the search index or SQLite itself; a transaction is atomic and may fail at any statement.
- ChatTurn.RunTurn: models other processes as anything but a continuing turn, which the continuation lock excludes; the polling of the lock and the deadline of the wait are not modelled.
- ChatProtocol.EveryRunIsConsistent: does not model messages appended one at a time (internal/store/store.go:867-891), which no chat command does.
- EditDistance.NearestCommand: takes lower-casing as a parameter.
- TerminalStream.TerminalStreamWriter.Write: a terminal that takes part of a write is modelled as a failed write.
- OutputGeometry.ResizeBilinear: computes over the reals with rounding to the nearest channel value; 64-bit products are exact because the source uses big integers there.
- OutputGeometry.CropImage: takes as a parameter when the request ends, asked once where a row and its first pixel both ask; so do the other two loops over pixels.
- OutputGeometry.PadImage: models the blend over white as the code computes it, which weighs channels already multiplied by alpha once more; it is not standard compositing.
- GoQuote.QuoteRoundTrip: takes the Unicode printability table as a parameter of which only the line feed matters.
- MarkerRoundTrip.MarkerRoundTrips: covers the two record forms the server prints; the older third form is read by the same code and never printed.
- Command-line wiring, configuration, authentication, request decoding, exit codes, setup, packaging and plugin scripts: branch tables and plumbing without a hard invariant.
