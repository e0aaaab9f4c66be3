# Verified models of the AEC Studio cores

This project models the parts of AEC Studio that keep state, loop or do exact
arithmetic, and proves what they promise:

- the in-process command engine of the desktop bridge: an entity graph, batches of
  deltas, and an undo/redo journal (`CommandJournal`, `JournalRuns`,
  `JournalReuse`), and what each command does (`CommandMeaning`);
- the comparison of two revisions (`RevisionDiff`);
- the resumable model download: redirects, partial files, hash gate, rename
  (`Urls`, `ModelDownload`, `DownloadLaws`);
- the HTTP/1.1 response reader of the sidecar client (`Numerals`, `Utf8Laws`, `HttpReader`,
  `HttpLaws`);
- CAD cleanup and the conversion of detected plans to walls (`CadCleanup`, `CadLaws`,
  `CadRerun`, `CadProposal`, `CadMeaning`, `PlanToWall`);
- the AI plan pipeline: string scanners, entity counting, lowering to a diff, the two
  gates (`SafetyScan`, `PlanPipeline`);
- the retry loops (`CompletionRetry`, `SidecarBackoff`), the tracker of the open project
  (`ActiveProject`) and property filling (`PropertyFill`).

`Basics` and `Ordering` hold what several modules share. Code that changes state step by
step is a class or a method with loops, proved equal to a specification function; the
lemmas then say what that function means over all inputs, runs or interleavings. The lemmas
whose names end in `Says` or `Iff` spell out the leaves of these functions in literal fields,
numbers and coordinates.

## How the models read

- A text is a sequence of characters, one per byte where the code works on bytes
  (`Bytes`), or a sequence of code units where only order and equality matter (`Text`).
- Disk, network, cancellation, spawn outcomes, id parsing, random ids and the hash are
  parameters: any function or any sequence of outcomes. The hash is assumed to single out
  the content only where a lemma says so (`Identifies`).
- Coordinates are reals. Square roots are avoided by comparing squares. Confidences are
  whole hundredths, durations whole milliseconds.
- JavaScript arguments that the bridge only casts are checked here: a value of another
  type gives `IllTyped`.

## Where a promise has a condition

- Undo restores the graph after a create only when the id was unused: `create` overwrites
  silently. `UndoRestoresIffFresh` is the exact condition for one command,
  `ConsistentThroughoutIffFresh` for a run. A later undo throws, and loses its journal entry,
  exactly under `ReusedIdThrowsIff`; `ReusedIdLosesAnEntry` is a run that does.
- The revision diff files entities under category, NUL, id. Its patch law holds for every
  pair of revisions exactly when no category continues another past a NUL
  (`PatchLawIffSeparated`), and so does the mirror law (`SwapMirrorsIffSeparated`).
- The diff's counters live in a plain object. A category with the name of an inherited member
  ("constructor") finds that member instead of a bucket, and its changes are counted nowhere
  (`ConstructorIsUncounted`); the counters sum to the keys exactly when there is no such change
  (`CountsSumToKeysIff`). The inherited names are a parameter.
- The chunk reader adds the announced size to what it holds before comparing with the
  limit. The sum can leave 64 bits; the reader then asks for the announced buffer, and decoding
  ends in an allocation failure instead of `BodyTooLarge`, exactly under `PanicIffOverflow`.
  Some input does so under every limit but zero (`PanicPossibleIff`).
- Only the exact value `chunked` switches to the chunk decoder; section 3.3.1 of RFC 7230
  allows a list of codings that ends in it. Several Content-Length lines that disagree are
  accepted and the last one wins, where section 3.3.3 asks for an error
  (`CodingListReadsToTheEnd`, `DisagreeingLengthsAreAccepted`).
- The redirect check ends the authority of a URL at a slash, a question mark or a number sign,
  as section 3.2 of RFC 3986 does; a backslash, which that standard does not allow, ends nothing.
  `HostOfWritten` and `RequestsAreAllowed` are about hosts in this reading, and say nothing of a
  client that ends the authority elsewhere.
- A relative redirect from a URL without a path replaces the host (`RelativeKeepsHostIff`,
  `BareHostIsReplaced`); the new host is then checked like any other.
- The collinear merge looks at the cross product only. The merged segment is the union of
  the two exactly when their directions agree (`MergedIsUnionIff`); two copies of a line
  longer than the tolerance merge to a point (`CopiesMerge`).
- For a positive tolerance a second deduplication run is sure to find nothing exactly when no
  id is smaller than an earlier one, or only the last than the last but one
  (`RerunIsEmptyForIdsIff`); `UnorderedIdsNeedARerun` is an instance where it does find a group.
- Wall ids are 32-bit; they are 1 to n exactly while n fits (`IdsAreDenseIff`).
- The entity cap bounds the diff while it is below the 32-bit maximum, where the count
  saturates, and for tools with operations only then (`AcceptedWithinCaps`, `CapBindsIff`,
  `SaturationHidesOneMore`).
- The dropped count of the wall conversion leaves out accepted polylines whose pairs are all too
  short (`DroppedOrContributingIff`).
- A payload that matches its grammar may still lose elements when it becomes operations
  (`LayoutGrammarLosslessIff`, `StrayProposalIsLost`; `StyleGrammarLosslessIff`,
  `NumberedFurnitureIsLost`).
- From four conditions on, rules tie under the default cap, and the earlier one wins even
  if it is less specific (`BestIsMostSpecificIff`, `LessSpecificWins`).
- The comments of the safety scanners say that every scheme name before a delimiter counts and
  that a third leading separator keeps a UNC path from matching. The code asks that the whole
  run before the delimiter starts with a letter (`SchemeIffRunStartsWithLetter`,
  `DigitHidesScheme`), and matches
  such a UNC path from its second separator on (`FrontKeepsUncPath`).
- The tracker's re-check after its await compares paths only, so a project that was closed
  and reopened meanwhile can get an older record of itself (`ReopenedProjectMayGoStale`),
  never another project's (`ResumedResolve`); `ResumptionReplacesIff` says after which runs.

## Model

| member | source | states |
|---|---|---|
| CommandJournal.OneCancelsIffFits | apps/desktop/electron/bridge.ts:5635-5666 | one applied delta and its inverse cancel if and only if the delta fits the graph: a create is fresh, an update's before and a delete's record are current |
| CommandJournal.BatchReverses | apps/desktop/electron/bridge.ts:5635-5666 | a batch that fits at every intermediate state never throws, and its reversed inverse fits and restores the exact entity map |
| CommandJournal.InvertAllTwice | apps/desktop/electron/bridge.ts:5635-5666 | inverting the inverse of a batch gives the batch back |
| CommandJournal.MergeWallIds | apps/desktop/electron/bridge.ts:5505-5512 | the loop computes the merged wall list |
| CommandJournal.MergedWallsMeaning | apps/desktop/electron/bridge.ts:5505-5512 | the merged list holds exactly the survivors and the additions, survivors first and in order, and repeats nothing the stored list did not |
| CommandJournal.UpdateFrame | apps/desktop/electron/bridge.ts:5424-5621 | an update command touches only its declared body fields of one existing entity; what it writes there is the next row |
| CommandMeaning.AppliedCommandMeans | apps/desktop/electron/bridge.ts:5424-5621 | what each of the nineteen tools does to the graph, in its literal arguments: the walls of a room that stay and come, the fields a move, paint, swap or camera update sets, the record a create adds, the one a delete takes; a refused command changes nothing |
| CommandMeaning.AcceptedIff | apps/desktop/electron/bridge.ts:5424-5621 | a command is accepted if and only if its arguments and the entity they name are as its tool asks |
| CommandMeaning.TargetRefusals | apps/desktop/electron/bridge.ts:5467-5600 | a missing or empty id, an id that names nothing and a stored body that is no object are refused for that reason |
| CommandMeaning.PaintRefusals | apps/desktop/electron/bridge.ts:5551-5565 | a blank material is refused before the stored body is looked at |
| CommandMeaning.OtherRefusals | apps/desktop/electron/bridge.ts:5384-5620 | a light without its field, a blank preset and an unknown tool are refused for that reason |
| CommandJournal.UndoRestoresIffFresh | apps/desktop/electron/bridge.ts:5424-5666 | for every tool, a command's deltas apply without a missing target, and their inverse restores the graph if and only if a create used a free id |
| CommandJournal.InProcessGraph.ApplyDeltas | apps/desktop/electron/bridge.ts:5635-5666 | the mutating loop leaves the graph of the batch or of its part before a missing update target, and returns the reversed inverse |
| CommandJournal.InProcessGraph.CommandApply | apps/desktop/electron/bridge.ts:5093-5115 | graph, both stacks and reply after an apply; what the graph then is, tool by tool, is CommandMeaning.AppliedCommandMeans |
| CommandJournal.InProcessGraph.CommandUndo | apps/desktop/electron/bridge.ts:5117-5141 | graph, both stacks and reply after an undo: empty journal and scope mismatch change nothing, a failing batch has already lost its entry |
| CommandJournal.InProcessGraph.CommandRedo | apps/desktop/electron/bridge.ts:5143-5163 | graph, both stacks and reply after a redo |
| CommandJournal.Backend.EnsureInProcessGraph | apps/desktop/electron/bridge.ts:5336-5346 | a path gets its graph, an empty one at first; every other project's state stays |
| CommandJournal.Backend.Execute | apps/desktop/electron/bridge.ts:5093-5163 | an operation on one project steps that project and leaves every other one as it was |
| JournalRuns.EveryRunConsistent | apps/desktop/electron/bridge.ts:5093-5163 | after every run of a new engine with fresh creates the graph is the replay of the undo stack, the redo stack chains on, and nothing ever loses an update target; a refused step changes nothing |
| JournalRuns.RunKeepsConsistent | apps/desktop/electron/bridge.ts:5093-5163 | the chain invariant over both stacks is kept by every run from any consistent state |
| JournalRuns.ConsistentThroughoutIffFresh | apps/desktop/electron/bridge.ts:5093-5163 | the invariant holds after every prefix of a run if and only if every create the run gets accepted is fresh |
| JournalRuns.UndoManyRedoMany | apps/desktop/electron/bridge.ts:5117-5163 | k undos reach the replay of the shorter undo stack and k redos then restore engine state exactly |
| JournalRuns.StepRefinesHistory | apps/desktop/electron/bridge.ts:5093-5163 | each step of the delta journal is a step of an editor that keeps whole graph snapshots, verdict included |
| JournalRuns.RunRefinesHistory | apps/desktop/electron/bridge.ts:5093-5163 | every run of the delta journal is a run of the snapshot editor |
| JournalReuse.ReusedIdLosesAnEntry | apps/desktop/electron/bridge.ts:5117-5141 | for every id and material: create, paint, create again; the first undo deletes the wall, the second throws and its entry is on neither stack |
| JournalReuse.ReusedIdThrowsIff | apps/desktop/electron/bridge.ts:5117-5141 | after an accepted create over a used id, undoing to the bottom throws if and only if the newest delta on that entity among the commands done is an update |
| RevisionDiff.DiffRevisions | apps/desktop/electron/bridge.ts:5756-5829 | the loops produce the changes over the sorted key union, and the tally of those whose category is not the name of an inherited member |
| RevisionDiff.PatchLawIffSeparated | apps/desktop/electron/bridge.ts:5756-5829 | over a set of categories, applying the changes to the base's hashes gives the head's for all revisions if and only if no category continues another past a NUL |
| RevisionDiff.PatchLawHolds | apps/desktop/electron/bridge.ts:5756-5829 | the patch law for categories that cannot be confused, NUL-free ones among them |
| RevisionDiff.ChangesAscending | apps/desktop/electron/bridge.ts:5756-5829 | for all revisions, colliding categories included, every key is listed once and the list ascends |
| RevisionDiff.ChangeSays | apps/desktop/electron/bridge.ts:5774-5818 | each listed change from the entities of its key: kind by comparing the hashes, both hashes, and the head's label where it has one |
| RevisionDiff.LastIsFiled | apps/desktop/electron/bridge.ts:5762-5765 | a revision files the last entity recorded under each key |
| Ordering.LexLeIff | apps/desktop/electron/bridge.ts:5774 | the order of the keys: a beginning first, else the first difference decides |
| RevisionDiff.TallyCounts | apps/desktop/electron/bridge.ts:5756-5829 | each own bucket's four counters count the changes of its category by kind; a category has a bucket if and only if it has a change and is not an inherited name |
| RevisionDiff.CountsSumToKeysIff | apps/desktop/electron/bridge.ts:5766-5818 | all counters together sum to the size of the key union if and only if no change is filed under an inherited name |
| RevisionDiff.ConstructorIsUncounted | apps/desktop/electron/bridge.ts:5766-5769 | an added entity of the category "constructor" is listed and counted nowhere |
| RevisionDiff.SwapMirrors | apps/desktop/electron/bridge.ts:5756-5829 | for categories that cannot be confused, swapping the arguments lists the same keys with added and removed exchanged and hashes swapped |
| RevisionDiff.SwapMirrorsIffSeparated | apps/desktop/electron/bridge.ts:5756-5829 | over a set of categories swapping mirrors every comparison if and only if no category continues another past a NUL |
| RevisionDiff.MirroredCounts | apps/desktop/electron/bridge.ts:5756-5829 | mirrored change lists have mirrored counts |
| Urls.HostOfWritten | crates/aec_ai/src/model_download.rs:128-155 | for every URL assembled from scheme, user information, host, port and rest, the redirect check judges exactly the host |
| Urls.HostIsAllowedIff | crates/aec_ai/src/model_download.rs:106-117 | a host is allowed if and only if it is not empty, starts with no dot, and its lower-case form is one of four names or ends in a dot and one of two |
| Urls.LookalikesAreRefused | crates/aec_ai/src/model_download.rs:106-117 | a name that ends in hf.co or huggingface.co without a dot before it is refused |
| Urls.AbsoluteForms | crates/aec_ai/src/model_download.rs:335-347 | the target of a redirect with a scheme, with two slashes and with one slash |
| Urls.RelativeForm | crates/aec_ai/src/model_download.rs:348-352 | the target of a relative redirect: whatever followed the last slash is replaced |
| Urls.AbsolutePathKeepsHost | crates/aec_ai/src/model_download.rs:335-353 | for every URL the check finds a host in, a redirect to an absolute path is checked for that same host, whatever user information, port or query it carries |
| Urls.RelativeKeepsHostIff | crates/aec_ai/src/model_download.rs:349-352 | a redirect to a relative location stays on its host if and only if the URL has a slash behind the delimiter or the location names that host itself |
| Urls.BareHostIsReplaced | crates/aec_ai/src/model_download.rs:349-352 | a URL without a path loses its host to a relative location |
| ModelDownload.ModelStore.FollowRedirects | crates/aec_ai/src/model_download.rs:216-245 | the redirect loop returns the followed reply or error and requests exactly the URLs of the specification |
| ModelDownload.ModelStore.Fetch | crates/aec_ai/src/model_download.rs:204-332 | one transfer's effect on the directory, its log of directory states, its progress reports and its result |
| ModelDownload.ModelStore.Run | crates/aec_ai/src/model_manager.rs:475-580 | one attempt's effect on both files, every state in between, the state callbacks in order and the result |
| DownloadLaws.RequestsAreAllowed | crates/aec_ai/src/model_download.rs:216-245 | at most five requests, the first to the given URL and every further one to a host the allow list admits, spelled out; the start is checked alike |
| DownloadLaws.RedirectStep | crates/aec_ai/src/model_download.rs:222-245 | a redirect costs one hop and is followed if and only if its target is allowed |
| DownloadLaws.RefusedStartDoesNothing | crates/aec_ai/src/model_download.rs:179-197 | a download from a host that is not allowed asks nobody and changes nothing |
| DownloadLaws.OtherStatusKeepsFiles | crates/aec_ai/src/model_download.rs:247-267 | a status other than 200 and 206 changes nothing, but a 416 removes a partial file that is not empty |
| DownloadLaws.AttemptPasses | crates/aec_ai/src/model_manager.rs:475-580 | in every state of an attempt, under any network and disk, only the two files of the tier differ and a new final file has the descriptor's hash |
| DownloadLaws.SessionKeepsSafe | crates/aec_ai/src/model_manager.rs:475-580 | over any attempts, truncated transfers, disk failures and crashes, final files that start absent or correct stay so |
| DownloadLaws.OkIffCompleted | crates/aec_ai/src/model_manager.rs:475-580 | an attempt succeeds if and only if its last state callback is Completed, and the final file then has the descriptor's hash |
| DownloadLaws.StatesTell | crates/aec_ai/src/model_manager.rs:475-580 | the exact sequences of state callbacks an attempt can make, by how it ends |
| DownloadLaws.AttemptKeepsPrefix | crates/aec_ai/src/model_download.rs:294-331 | with a server that may cut short but not lie, every state keeps the partial file a prefix of the content |
| DownloadLaws.SessionKeepsPrefix | crates/aec_ai/src/model_download.rs:294-331 | the prefix invariant of a partial file over any attempts of any tiers and crashes, when the attempts that work on that file meet an honest server |
| DownloadLaws.FirstTry | crates/aec_ai/src/model_manager.rs:488-579 | against an honest server one uninterrupted attempt succeeds if and only if the bytes it finds or fetches are the content; otherwise neither file is left |
| DownloadLaws.TwoTriesRecover | crates/aec_ai/src/model_manager.rs:488-579 | from any contents of the two files, two uninterrupted attempts against an honest server leave the content in place |
| DownloadLaws.ProgressEndsAtSize | crates/aec_ai/src/model_download.rs:272-331 | reported byte counts never go back, and a completed transfer ends its reports with the start offset plus what was delivered |
| DownloadLaws.ReportsEverySixteen | crates/aec_ai/src/model_download.rs:287-331 | a completed transfer reports at its start, after every sixteenth piece and at its end |
| DownloadLaws.TotalComesFrom | crates/aec_ai/src/model_download.rs:272-285 | the shown total is the range's, else the length behind the resume offset, else the descriptor's |
| HttpReader.Reader.Response | crates/aec_ai/src/http.rs:174-252 | the loops parse what the specification says; the body bytes held together with a buffer asked for exceed the limit by more than the one byte that detects an oversized close-framed body if and only if the result is the allocation failure of a wrapped chunk size |
| HttpLaws.WrittenStatus | crates/aec_ai/src/http.rs:178-193 | every written status line, with or without a reason, has the status its sender meant |
| HttpLaws.StatusIff | crates/aec_ai/src/http.rs:183-193 | a status line is read as n if and only if its second word, between single spaces, is a numeral for n within 16 bits |
| HttpReader.Reader.Chunked | crates/aec_ai/src/http.rs:254-290 | the chunk loop equals the recursive decoder, leaves the stream where it ends, and terminates on every input; a buffer beyond the limit is asked for if and only if the size sum wraps |
| HttpLaws.BodyWithinLimit | crates/aec_ai/src/http.rs:174-252 | under all three framings a returned body, with success or an error status, is within the limit |
| HttpLaws.DecodeEncoded | crates/aec_ai/src/http.rs:254-290 | decoding any chunks with any extensions and trailers yields their concatenation and consumes exactly the encoding |
| HttpLaws.DecodeBeyondLimit | crates/aec_ai/src/http.rs:276-278 | decoding a written body beyond the limit fails at the first chunk that does not fit: with BodyTooLarge, or with the allocation failure when that chunk makes the sum wrap |
| HttpLaws.RefusalIsTooLarge | crates/aec_ai/src/http.rs:276-278 | with chunks that fit some buffer the refusal is always BodyTooLarge |
| HttpLaws.PlainChunkIsChunk | crates/aec_ai/src/http.rs:262-263 | the hexadecimal size an ordinary sender prints is read back, for every size |
| Numerals.ParsePrinted | crates/aec_ai/src/http.rs:191-193 | printing and parsing a number in any radix up to sixteen is the identity |
| Numerals.DigitTable | crates/aec_ai/src/http.rs:263 | the sixteen digits, letters of either case, and nothing else |
| Numerals.ParseNatForms | crates/aec_ai/src/http.rs:262-263 | a plus sign or a zero in front changes nothing, and no text or a bare sign is a number |
| Numerals.TooLargeIsRefused | crates/aec_ai/src/http.rs:191-193 | a number beyond the type is refused |
| Utf8Laws.ValidUtf8Iff | crates/aec_ai/src/http.rs:236 | bytes are text if and only if they encode some Unicode scalar values |
| Utf8Laws.TrimStartStep | crates/aec_ai/src/http.rs:209 | trimming from the front takes exactly the white space code points |
| Utf8Laws.TrimEndStep | crates/aec_ai/src/http.rs:209 | trimming from the back likewise, whatever stands in front |
| Utf8Laws.ChompTakesAll | crates/aec_ai/src/http.rs:204 | all line ends at the end of a line go, and nothing else |
| HttpLaws.PanicIffOverflow | crates/aec_ai/src/http.rs:276-279 | decoding ends in an allocation failure if and only if, behind some data chunks, a size line overflows the 64-bit sum |
| HttpLaws.WrappingBodyPanics | crates/aec_ai/src/http.rs:276-279 | one byte followed by the largest size: an input that ends in the allocation failure under every limit of at least one |
| HttpLaws.PanicPossibleIff | crates/aec_ai/src/http.rs:276-279 | some input ends in the allocation failure if and only if the limit is at least one |
| HttpLaws.HeadersFraming | crates/aec_ai/src/http.rs:195-220 | a written header block is read as chunked if any line says so, with the last Content-Length |
| HttpLaws.ChunkedHeaderSays | crates/aec_ai/src/http.rs:212-219 | the header Transfer-Encoding: chunked is one, in either case |
| HttpLaws.ChunkedTakesPrecedence | crates/aec_ai/src/http.rs:222-229 | with a chunked header present, neither Content-Length nor the other lines nor their order change the result |
| HttpLaws.ChunkedResponse | crates/aec_ai/src/http.rs:174-290 | behind every written status line with status n, a written chunked body gives its payload with n, HttpStatus with n and the payload outside 200 to 299, the refusal beyond the limit, and MalformedHeaders when it is not UTF-8 |
| HttpLaws.LengthResponse | crates/aec_ai/src/http.rs:230-236 | behind every written status line with status n, a body of the announced length is given with n, as HttpStatus with n outside 200 to 299, as MalformedHeaders when it is not UTF-8, or as BodyTooLarge if and only if it exceeds the limit |
| HttpLaws.ShortLengthResponse | crates/aec_ai/src/http.rs:230-235 | a body shorter than its announced length is a read error, after the limit was checked |
| HttpLaws.DisagreeingLengthsAreAccepted | crates/aec_ai/src/http.rs:212-216 | two Content-Length headers that disagree are accepted and the last one frames the body |
| HttpLaws.CloseResponse | crates/aec_ai/src/http.rs:237-246 | behind every written status line with status n, a body closed by the connection is given with n up to its end, or as BodyTooLarge, as a read error when the connection broke, or as MalformedHeaders when it is not UTF-8 |
| HttpLaws.CodingListIsIgnored | crates/aec_ai/src/http.rs:217-219 | a header that lists gzip and then chunked changes no framing |
| HttpLaws.CodingListReadsToTheEnd | crates/aec_ai/src/http.rs:217-245 | a response with only that header gives everything up to the end of the connection as its body |
| CadCleanup.DedupeEntities | crates/aec_ai/src/cad_cleanup.rs:172-205 | the nested loops over the seen flags give the sorted ids of the leaders' groups |
| CadLaws.OneLeader | crates/aec_ai/src/cad_cleanup.rs:172-205 | every line has exactly one leader, itself or an earlier line |
| CadLaws.GroupsAreDisjoint | crates/aec_ai/src/cad_cleanup.rs:172-205 | groups have at least two members and share no line |
| CadLaws.EveryFollowerIsGrouped | crates/aec_ai/src/cad_cleanup.rs:172-205 | every line that is not a leader is in the group of a leader it duplicates |
| CadMeaning.TwoLinesGroupIff | crates/aec_ai/src/cad_cleanup.rs:166-205 | two lines alone form a group if and only if their endpoint coordinates agree within the tolerance one way round or the other |
| CadMeaning.NearLeaderIsGrouped | crates/aec_ai/src/cad_cleanup.rs:172-205 | every line whose coordinates agree, either way round, with those of a leader before it is in a group |
| CadMeaning.GroupsRedrawn | crates/aec_ai/src/cad_cleanup.rs:172-205 | from which end any line is drawn changes no group |
| CadLaws.GroupWithinTwice | crates/aec_ai/src/cad_cleanup.rs:172-205 | a dropped line is within twice the tolerance of the kept one, up to reversal |
| CadLaws.GroupKeepsLeader | crates/aec_ai/src/cad_cleanup.rs:172-205 | with ids in list order the kept line is the leader, within the plain tolerance of each dropped one |
| CadRerun.SurvivesIff | crates/aec_ai/src/cad_cleanup.rs:172-205 | for distinct ids, a line is taken away if and only if its group has a smaller id |
| CadRerun.RerunIsEmptyIff | crates/aec_ai/src/cad_cleanup.rs:172-205 | a second run finds nothing if and only if no two survivors are duplicates |
| CadRerun.RerunIsEmptyForIdsIff | crates/aec_ai/src/cad_cleanup.rs:172-205 | for distinct ids, a second run finds nothing wherever the lines lie if and only if the tolerance is not positive or only the last id may be smaller than an earlier one, and that only than the last but one |
| CadRerun.RerunFindsNothing | crates/aec_ai/src/cad_cleanup.rs:172-205 | with ids in list order a second run finds nothing |
| CadRerun.UnorderedIdsNeedARerun | crates/aec_ai/src/cad_cleanup.rs:172-205 | three concrete lines with the smallest id in the middle need a second run |
| CadCleanup.MergeCollinear | crates/aec_ai/src/cad_cleanup.rs:209-259 | the nested loops over the used flags give each line's first free partner in order |
| CadLaws.MergesMatch | crates/aec_ai/src/cad_cleanup.rs:209-259 | every merge passes its test and no line serves in two merges |
| CadLaws.MergesAreMaximal | crates/aec_ai/src/cad_cleanup.rs:209-259 | two lines that no merge uses do not merge with each other |
| CadMeaning.JoinsIff | crates/aec_ai/src/cad_cleanup.rs:229-250 | with the lengths at hand, the test is: the ends agree, no length is below the machine epsilon, and the cross product over the lengths is below the tolerance in absolute value |
| CadMeaning.MergeEndsIff | crates/aec_ai/src/cad_cleanup.rs:222-250 | two lines merge if and only if one of the four end pairings joins, and then from far end to far end of the first that does |
| CadLaws.MergedIsUnionIff | crates/aec_ai/src/cad_cleanup.rs:229-250 | when two lines merge over an exactly shared endpoint with cross product zero, the merged segment is the union of the two lines if and only if their directions agree |
| CadLaws.CopiesMerge | crates/aec_ai/src/cad_cleanup.rs:222-250 | two copies of a line merge to a single point if and only if the line is longer than the tolerance in some coordinate, and else to the line itself |
| CadProposal.CloseGaps | crates/aec_ai/src/cad_cleanup.rs:137-164 | exactly one closure, in scan order, for each end of a line and end of a later line at a positive distance within the tolerance |
| CadMeaning.IsGapIff | crates/aec_ai/src/cad_cleanup.rs:145-148 | with the distance at hand, a gap is a positive distance within the tolerance |
| CadMeaning.ClosureSays | crates/aec_ai/src/cad_cleanup.rs:149-157 | ids, ends, the first end's point, the midpoint and the distance of a closure |
| CadProposal.SnapMeetsHalfway | crates/aec_ai/src/cad_cleanup.rs:145-157 | the proposed point is the same from both sides and at most half the tolerance from either end |
| CadProposal.EntityCountModified | crates/aec_ai/src/cad_cleanup.rs:119-133 | the count of a proposal |
| CadProposal.DropsAreFollowers | crates/aec_ai/src/cad_cleanup.rs:119-133 | its share for duplicate groups is the number of lines that follow another |
| CadProposal.DropsAreLost | crates/aec_ai/src/cad_cleanup.rs:119-133 | with ids in list order that share plus the survivors is the number of lines |
| CadProposal.MergesUseTwo | crates/aec_ai/src/cad_cleanup.rs:119-133 | its share for merges is the number of lines the merges use up |
| PlanToWall.Convert | crates/aec_ai/src/plan_to_wall.rs:85-132 | the loops give one wall per kept segment in order and the number of rejected polylines |
| PlanToWall.WallSays | crates/aec_ai/src/plan_to_wall.rs:120-128 | a wall's axis and confidence are its segment's, its thickness and layer the configuration's, its id the position plus one |
| PlanToWall.QualifiesIff | crates/aec_ai/src/plan_to_wall.rs:89-98 | with the length at hand, a pair becomes a segment if and only if its polyline's confidence and its length reach the minima |
| PlanToWall.RejectionsAre | crates/aec_ai/src/plan_to_wall.rs:89-92 | the dropped polylines are those below the confidence or with fewer than two points |
| PlanToWall.MeetIff | crates/aec_ai/src/plan_to_wall.rs:151-155 | with the distance at hand, two ends meet if and only if it is within the tolerance |
| PlanToWall.TouchesAnyOther | crates/aec_ai/src/plan_to_wall.rs:134-149 | the search says yes if and only if another segment has an endpoint within the tolerance |
| PlanToWall.JunctionsAreMutual | crates/aec_ai/src/plan_to_wall.rs:104-149 | a wall end is open if and only if it meets an end of another wall, and that end is then open too |
| PlanToWall.DroppedOrContributingIff | crates/aec_ai/src/plan_to_wall.rs:86-102 | dropped polylines and those some segment is cut from add up to the input if and only if every accepted polyline has a long enough pair, and never exceed it |
| PlanToWall.IdsAreDenseIff | crates/aec_ai/src/plan_to_wall.rs:107-129 | wall ids are 1 to n if and only if n fits 32 bits |
| PlanToWall.SegmentsExact | crates/aec_ai/src/plan_to_wall.rs:86-102 | the segments are exactly the long enough neighbouring pairs of accepted polylines, each once, in list order, with the polyline's confidence |
| SafetyScan.FindUrlScheme | crates/aec_ai/src/safety_validator.rs:215-236 | some if and only if a maximal scheme run starting with a letter stands before a delimiter, at the first delimiter that has one |
| SafetyScan.SchemeIffRunStartsWithLetter | crates/aec_ai/src/safety_validator.rs:215-236 | a delimiter counts if and only if the whole run of scheme characters before it starts with a letter |
| SafetyScan.DigitHidesScheme | crates/aec_ai/src/safety_validator.rs:212-236 | a string with a scheme that stops being flagged when a digit is put in front |
| SafetyScan.FindWindowsDrivePath | crates/aec_ai/src/safety_validator.rs:241-260 | some if and only if a bounded drive path occurs, at the first place |
| SafetyScan.FindUncPath | crates/aec_ai/src/safety_validator.rs:272-326 | some if and only if a separator pair, host, separator and share occur, at the first place |
| SafetyScan.FrontKeepsUncPath | crates/aec_ai/src/safety_validator.rs:287-296 | nothing in front of a UNC path hides it, a further separator included |
| SafetyScan.CheckString | crates/aec_ai/src/safety_validator.rs:144-210 | a string is refused if and only if one of the four patterns occurs, and the reason is the first of them in the order of the checks, with the first listed prefix |
| SafetyScan.ClassesSay | crates/aec_ai/src/safety_validator.rs:215-280 | the letters, digits and signs of each character class |
| SafetyScan.HasSchemeIff | crates/aec_ai/src/safety_validator.rs:215-236 | a scheme occurs if and only if the string is front, name, delimiter and rest, where the name starts with a letter and the front ends in no scheme character |
| SafetyScan.HasDrivePathIff | crates/aec_ai/src/safety_validator.rs:241-260 | a drive path occurs if and only if the string is front, letter, colon, separator and rest, where the front ends in no letter or digit |
| SafetyScan.HasUncPathIff | crates/aec_ai/src/safety_validator.rs:272-326 | a UNC path occurs if and only if the string is front, one separator twice, host, separator, share and rest |
| SafetyScan.HasPrefixIff | crates/aec_ai/src/safety_validator.rs:170-195 | a directory is found if and only if the lower-case string contains one of the fourteen |
| SafetyScan.PassesIffEveryString | crates/aec_ai/src/safety_validator.rs:110-137 | the recursive walk accepts if and only if every string value at any depth passes, whatever the keys are |
| PlanPipeline.Build | crates/aec_ai/src/diff_engine.rs:59-198 | the four lowering loops give the operations of the specification, in order |
| PlanPipeline.WallsInPlace | crates/aec_ai/src/diff_engine.rs:59-90 | for both tools that read plans, a polyline with points becomes a wall, itself the payload, at the place the count of the earlier ones gives |
| PlanPipeline.StyleInPlace | crates/aec_ai/src/diff_engine.rs:92-132 | furniture, then materials, each at the place the count gives, and the lighting preset last |
| PlanPipeline.ProposalsInPlace | crates/aec_ai/src/diff_engine.rs:143-184 | a proposal moves the entity it targets, else places its asset, at the place the count gives, with its position, rotation and room |
| PlanPipeline.FindingsInPlace | crates/aec_ai/src/diff_engine.rs:186-198 | every finding patches the active preset, in order |
| PlanPipeline.ReadersSay | crates/aec_ai/src/diff_engine.rs:77-198 | which JSON fields and types make an element count and what the operations read from it |
| PlanPipeline.CountPredictsBuild | crates/aec_ai/src/planner.rs:52-124 | for every tool and payload the saturating count is the number of operations the lowering emits, or the 32-bit maximum |
| PlanPipeline.AcceptedWithinCaps | crates/aec_ai/src/planner.rs:170-251 | what passes both gates has the tool's shape, no refused string, and below the 32-bit maximum a diff within the request's and the schema's cap, with the reported number of operations |
| PlanPipeline.FinalizeIff | crates/aec_ai/src/planner.rs:205-251 | a response is accepted if and only if its operations, up to the 32-bit maximum, are no more than either cap, its scope is allowed, and it has its tool's shape and no refused string |
| PlanPipeline.FinalizeRefuses | crates/aec_ai/src/planner.rs:205-251 | the reason for each refusal, in the order of the checks |
| PlanPipeline.PrecheckSays | crates/aec_ai/src/planner.rs:170-190 | a request is let through up to and including the schema's cap, and the reason when not |
| PlanPipeline.CapBindsIff | crates/aec_ai/src/planner.rs:205-251 | for every tool its registry admits, everything finalize accepts stays within the request's cap if and only if the cap is below the 32-bit maximum or the tool has no operations |
| PlanPipeline.SaturationHidesOneMore | crates/aec_ai/src/planner.rs:205-251 | for every tool with operations, at a cap of the 32-bit maximum finalize accepts any longer response, and all of it is lowered |
| PlanPipeline.GrammarsSay | crates/aec_ai/src/grammars.rs:51-102 | what the four grammars of the tools with operations ask of a JSON value |
| PlanPipeline.OtherGrammarsSay | crates/aec_ai/src/grammars.rs:30-166 | what the other seven ask, and that an unknown key asks nothing |
| PlanPipeline.PlanGrammarIsLossless | crates/aec_ai/src/grammars.rs:51-63 | a plan that matches its grammar loses no polyline |
| PlanPipeline.LayoutGrammarLosslessIff | crates/aec_ai/src/grammars.rs:73-91 | a layout that matches its grammar loses no proposal if and only if each has an asset or a target that parses |
| PlanPipeline.StrayProposalIsLost | crates/aec_ai/src/grammars.rs:73-91 | a layout with one proposal for an unreadable target matches its grammar and gives no operation |
| PlanPipeline.StyleGrammarLosslessIff | crates/aec_ai/src/grammars.rs:65-71 | a style answer that matches its grammar loses no element if and only if every element is a string |
| PlanPipeline.NumberedFurnitureIsLost | crates/aec_ai/src/grammars.rs:65-71 | a style answer with a number for furniture matches its grammar and gives only the preset |
| CompletionRetry.CompleteWithRetry | crates/aec_ai/src/transport.rs:179-230 | the attempt loop returns the first decisive reply or cancellation, else the last attempt's error, with its number of posts and its pauses |
| CompletionRetry.FirstAttemptEnds | crates/aec_ai/src/transport.rs:179-210 | a cancellation seen at once, a body and a status from 400 to 499 end the call at its first attempt, each with its result |
| CompletionRetry.OtherFailuresAreRetried | crates/aec_ai/src/transport.rs:204-228 | any other failure, a 503 among them, is retried as the call that starts one attempt later, a second after a 503 and half a second after the rest, or is the result when no retry is left |
| CompletionRetry.PostsAreBounded | crates/aec_ai/src/transport.rs:179-230 | at most one post more than the retries, and none at or after a check that sees the cancellation |
| CompletionRetry.CancelledIff | crates/aec_ai/src/transport.rs:179-230 | the call is cancelled if and only if a check sees the cancellation before any reply settles it |
| CompletionRetry.FallbackIsUnreachable | crates/aec_ai/src/transport.rs:227-229 | an empty-completion error always comes from an empty reply, never from the fallback value |
| CompletionRetry.PausesBounded | crates/aec_ai/src/transport.rs:179-230 | each retry pauses half a second to a second |
| SidecarBackoff.RestartPolicy.RecordFailure | crates/aec_ai/src/sidecar.rs:302-316 | the counter saturates at 32 bits and the delay belongs to the new count |
| SidecarBackoff.SpawnWithRetry | crates/aec_ai/src/sidecar.rs:336-363 | the first success after one sleep per failure with the counter reset, or the last failure with no sleep after it and the counter advanced |
| SidecarBackoff.DelayExact | crates/aec_ai/src/sidecar.rs:310-316 | the 64-bit product never saturates |
| SidecarBackoff.DelayInNumbers | crates/aec_ai/src/sidecar.rs:310-316 | the delay is 500 ms doubled per failure, up to twenty doublings and the cap |
| SidecarBackoff.FirstDelays | crates/aec_ai/src/sidecar.rs:302-316 | one, two, four and eight seconds |
| SidecarBackoff.DelaysClimb | crates/aec_ai/src/sidecar.rs:310-316 | delays never decrease |
| SidecarBackoff.TotalSleepBounded | crates/aec_ai/src/sidecar.rs:336-363 | N failing attempts of a fresh policy sleep the sum of the capped powers, at most (N-1) times the cap and at most 500 * (2^N - 2) milliseconds |
| ActiveProject.Tracker.SetActiveProjectPath | apps/desktop/electron/active-project.ts:83-103 | sets the path, drops another project's summary, notifies nobody, refuses an empty path |
| ActiveProject.Tracker.SetActiveProject | apps/desktop/electron/active-project.ts:112-119 | sets both slots and notifies, or refuses an empty path unchanged |
| ActiveProject.Tracker.SetActiveProjectIfMatchesActive | apps/desktop/electron/active-project.ts:169-177 | refreshes the summary only of the active path |
| ActiveProject.Tracker.ClearActiveProjectPath | apps/desktop/electron/active-project.ts:277-281 | empties both slots and notifies |
| ActiveProject.Tracker.FinishResolve | apps/desktop/electron/active-project.ts:235-259 | the part after the await: the first recent record of the captured path if that path is still active, else nothing changes |
| ActiveProject.RunsStayCoherent | apps/desktop/electron/active-project.ts:83-281 | under any interleaving a cached summary belongs to the active path |
| ActiveProject.EntrySays | apps/desktop/electron/active-project.ts:224-234 | a cached summary answers at once, no project answers none, a path alone waits |
| ActiveProject.StepNotifies | apps/desktop/electron/active-project.ts:83-281 | each call sends at most one notification: the summary it makes current, or none after a close |
| ActiveProject.ActivePathIsIntent | apps/desktop/electron/active-project.ts:83-281 | after any interleaving with saves and suspended resolves the active path is the one last opened, or none after a close |
| ActiveProject.ResumedResolve | apps/desktop/electron/active-project.ts:224-259 | a resolve resumed after any run hands out a summary if and only if the user's last request is still the captured path and the lookup knows it; it belongs to that path, and the active path stays |
| ActiveProject.WithoutPathSetterOneSlot | apps/desktop/electron/active-project.ts:83-281 | without the path-only setter, path, summary and last notification follow one slot, and every resolve answers at once |
| ActiveProject.WaitsOnlyAfterPathSetter | apps/desktop/electron/active-project.ts:224-234 | a resolve waits for the lookup only after the path-only setter was used |
| ActiveProject.ReopenedProjectMayGoStale | apps/desktop/electron/active-project.ts:235-259 | closing and reopening during the lookup lets an older record of the same project replace the newer one |
| ActiveProject.CachedIffLastOffer | apps/desktop/electron/active-project.ts:83-281 | a tracker without a summary has a given one after a run if and only if an open, a save or a resumption of the run put it there and no later call offers another or leaves its path |
| ActiveProject.ResumptionReplacesIff | apps/desktop/electron/active-project.ts:235-259 | a resolve suspended before a run takes a newer summary away on its resumption if and only if a call of the run put one of the captured path there for good and the lookup's first record of it differs |
| PropertyFill.RuleMatches | crates/aec_ai/src/property_fill.rs:72-89 | a rule matches if and only if each of its conditions holds in some known property set |
| PropertyFill.FindBest | crates/aec_ai/src/property_fill.rs:222-233 | the loop finds the earliest supplying rule of maximal capped confidence, or that no rule supplies the key |
| PropertyFill.SuppliesIff | crates/aec_ai/src/property_fill.rs:63-89 | a rule supplies a key if and only if its class is the element's, each condition is known in some set, and its defaults have the key |
| PropertyFill.ConfidenceSays | crates/aec_ai/src/property_fill.rs:250-253 | a rule with n conditions has the smaller of 80 + 5n hundredths and the cap |
| PropertyFill.FillProperties | crates/aec_ai/src/property_fill.rs:201-248 | the loops give, element by element and key by key, the proposals of the specification |
| PropertyFill.ProposalsExact | crates/aec_ai/src/property_fill.rs:201-248 | the proposals are exactly the best rules' values, at or above the minimum confidence, for the unknown required keys |
| PropertyFill.ProposalSays | crates/aec_ai/src/property_fill.rs:201-248 | entity, property set, key, value and confidence of each proposal, from an unknown required key and one of the rules |
| PropertyFill.KeysOnce | crates/aec_ai/src/property_fill.rs:218-245 | one element gets at most one proposal per required key when these are distinct |
| PropertyFill.SlotsOnce | crates/aec_ai/src/property_fill.rs:201-248 | no key of an element is proposed twice in the whole result when elements and keys are distinct |
| PropertyFill.SuppliedIsProposed | crates/aec_ai/src/property_fill.rs:219-244 | an unknown key gets a proposal if and only if some matching rule supplies it at the minimum confidence |
| PropertyFill.TiesFromFour | crates/aec_ai/src/property_fill.rs:250-253 | under the defaults, rules of different specificity tie if and only if both have four conditions or more |
| PropertyFill.BestIsMostSpecificIff | crates/aec_ai/src/property_fill.rs:222-253 | under the defaults the chosen rule is a most specific supplier if and only if no supplier has four conditions, or the first that has is a most specific one |
| PropertyFill.LessSpecificWins | crates/aec_ai/src/property_fill.rs:222-253 | four conditions listed before five: the value of the less specific rule is proposed |
| PropertyFill.ToDiff | crates/aec_ai/src/property_fill.rs:106-144 | the grouping loop and the ordered walk give one update per property set of an element whose id can be read |
| PropertyFill.UpdateSays | crates/aec_ai/src/property_fill.rs:117-136 | an update lists its group in order, and its confidence is the group's mean |
| PropertyFill.DiffIsInOrder | crates/aec_ai/src/property_fill.rs:106-144 | one update for each readable element and property set, ascending |
| PropertyFill.GroupOfConcat | crates/aec_ai/src/property_fill.rs:108-114 | grouping keeps the order of the proposals |
| PropertyFill.DiffConserves | crates/aec_ai/src/property_fill.rs:106-144 | the updates together write every proposal with a readable id exactly once, and nothing else |
| PropertyFill.FilledDiffIsConfident | crates/aec_ai/src/property_fill.rs:106-253 | from rules to diff, no update is empty and every average confidence lies between the minimum and the cap |

## Left out

- The native adapter, IPC wiring and zero-valued stubs of the bridge, and `projectGraphList` with the order of a JavaScript Map.
- Recording and loading revisions; the model starts from two lists of entities with their hashes.
- RevisionDiff.DiffRevisions: what an increment under an inherited name leaves on the inherited member or the shared prototype, and how that changes the inherited names of later lookups.
- Sockets, TLS, child processes and clocks; a broken connection or disk is an outcome the model is given.
- Installing a local file, deleting a model, disk usage and tier selection of the model manager.
- A numeric port or scheme check of a redirect; the code makes none, and relative redirects follow the code, not the merge rule of RFC 3986.
- DownloadLaws.ProgressEndsAtSize: the progress total adds resume offset and announced length without the 64-bit wrap, because it only feeds the progress display.
- HttpReader.Reader.Response: a limit is at most the largest signed word, because no buffer can exceed that.
- Layer normalisation of a cleanup proposal: one rule lookup per line.
- CadLaws.MergedIsUnionIff: for exactly shared endpoints and cross product zero; within the tolerances the merged segment only approximates the union.
- CadCleanup.MergeCollinear: rounding of floating-point lengths; squares of reals are compared instead.
- Scanning a payload that is not JSON as one string, the order in which map values are visited, and the texts of findings.
- Prompt assembly, grammar texts, registry data, and the tools without a lowering; the registry is a parameter.
- CompletionRetry.CompleteWithRetry: replies are judged as parsed; reading the completion's JSON is not modelled.
- SidecarBackoff.SpawnWithRetry: health polling inside one spawn attempt is part of the attempt's outcome.
- PropertyFill.ToDiff: values keep their type; their rendering to JSON, where text and label coincide, is not modelled.
- PropertyFill.FindBest: confidences in exact hundredths, not floating point.
- ActiveProject listeners are one log of notifications; a listener that throws is swallowed by the code.
- Audit records, cover drafts, lighting, schedules, classification and validation help: simple tables and parsers.
