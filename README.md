# AI project scaffolder: block protocol, appliers and demo API queries

This project models the core of `ai_builder.py`, a command-line scaffolder that asks a language
model for project files and applies its reply to a working tree, together with the in-memory
queries of the demo fire-department API in `backend/main.py`.

The model's reply follows a *block protocol*. Each block begins with a header line
`--- file: <path> ---`, `--- diff: <path> ---` or `--- patch: <path> ---`. Its payload runs
up to the first newline followed by a header that the block's pattern looks ahead for, or to the
end of the text. The scaffolder:

- removes code fences (`Fences`), after which no triple quote is left;
- finds the three kinds of blocks with the three header patterns, as Python's `re.findall`
  returns them, and normalizes names and payloads (`Blocks`);
- guards every path: absolute paths and paths with a `..` part are refused (`Paths`);
- applies the blocks to the working tree (`Workspace`, `Builder.Scaffolder`):
  - file blocks overwrite whole files;
  - diff blocks go through a non-positional line heuristic (`NaiveDiff`). Each `-` line removes
    the first equal line, and all `+` lines are appended at the end;
  - patch blocks are JSON operations folded over the text with Python's `str.replace` (`JsonPatch`);
- keeps a transcript of the conversation. The system prompt is composed from presets, and each
  exchange records one user turn and one assistant turn (`Prompts`, `Builder`);
- gates validation commands by a whitelist of prefixes and builds the follow-up prompt from
  their results (`Validation`);
- reads `(owner, repo)` from a GitHub remote URL (`RepoUrl`).

The working tree is a `map<string, string>` from normalized relative file names to contents.
Directories are not stored: a name is a directory when it is the root or some file lies below it.
Every applier loop is proved to keep the tree well formed. Each stops at the first exception with
the earlier blocks applied. The diff and patch appliers read a file as Python's `read_text` does,
with universal newlines: `\r\n` and a lone `\r` become `\n` (`Text.UniversalNewlines`).

`Text` holds the Python string operations the code uses, written over `seq<char>`: `strip`,
`lstrip("\n")`, `rstrip`, `split`, `join`, `replace` (also with an empty pattern),
`splitlines(keepends=True)`, `lower` and `s[-n:]`.

Some behaviours of the code that a reader may not expect, each proved in the model:

- A file block's pattern looks ahead only for the next `--- file:` header. A file block with no
  later file header therefore runs to the end of the reply and carries any diff or patch block
  that follows it, headers included, so the file written holds them too
  (`Blocks.FilePayloadRunsToEnd`).
- A payload stops only at a newline followed by a header. A header line right after another
  header line is therefore the start of the first block's payload and not a block of its own
  (`Blocks.HeaderRightAfterHeaderIsPayload`).
- The diff applier compares whole lines, line ends included. So a `-hello` line that ends in a
  newline never removes a last line `hello` that has no line end
  (`NaiveDiff.UnterminatedLastLineSurvives`).
- Payloads are stripped at their end, so a diff's last line has no newline. A final `-hello`
  removes only a line `hello` without a line end and leaves a line `hello` that has one
  (`NaiveDiff.FinalRemovalIsUnterminated`).
- Removing a triple-quote opener can join two runs of backticks, so a triple backtick can survive
  fence removal: two backticks, a triple-quote opener (`'''` and a newline) and one backtick come
  out as three backticks (`Fences.TripleBacktickCanSurvive`).
- No applier continues after an exception: the loop ends there (`Workspace.StopsAtFirstFailure`).

## Model

| member | source | states |
|---|---|---|
| Fences.StripCodeFences | ai_builder.py:135-140 | removing fences never lengthens the text and leaves no triple quote in it |
| Fences.StripCodeFencesProperties | ai_builder.py:135-140 | a text without a triple backtick or a triple quote is returned unchanged |
| Fences.FencedBodyUnwrapped | ai_builder.py:135-140 | a body between a backtick opener with any tag and a closing triple backtick comes out as the body alone, when it holds no backtick and no quote |
| Fences.TripleBacktickCanSurvive | ai_builder.py:136-139 | two backticks, a triple-quote opener and one backtick come out as a triple backtick: deleting the quote opener joins the backticks after the backtick pass |
| Fences.RemovalLeavesNoFence | ai_builder.py:137 | replacing every fence by the empty string leaves no fence, since the leftmost-first scan never joins two runs into a new one |
| Fences.DropOpeners | ai_builder.py:136 | deleting fence openers (fence, optional tag, newline) never lengthens the text and changes nothing when no fence occurs |
| Fences.DropOpenersDeletesOpener | ai_builder.py:136 | an opener at the front, with any tag, is deleted and the scan goes on with the text after its newline |
| Fences.OpenerEnd | ai_builder.py:136 | an opener found at `i` is the fence, a run of tag characters and a newline; none is found exactly when there is no fence at `i` or, before every later newline, a character that is not a tag character |
| Fences.RemovingShrinks | ai_builder.py:137 | replacing every occurrence of a non-empty fence by the empty string never lengthens the text |
| Blocks.PayloadEnd | ai_builder.py:59-61 | the lazy payload ends at the first position where the kind's lookahead succeeds (a later header of the right words, or the end) and at no earlier one |
| Blocks.CloseAfter | ai_builder.py:59-61 | finds the first position from `e` where `\s*---\n` closes a header, and reports none exactly when no such position exists |
| Blocks.PathSpan | ai_builder.py:59-61 | the name's span under backtracking: it starts between the colon and the end of the greedy spaces and ends at the first closing position after its start; it starts before the end of the spaces only when no closing position lies past its first character (the greedy spaces give back as little as they can); none exactly when no closing position exists |
| Blocks.MatchAt | ai_builder.py:59-61 | a match at `p` starts at `p` and ends after it within the text; there is none exactly when no header is at `p` or no `---` line closes it |
| Blocks.MatchAtWellPlaced | ai_builder.py:59-61 | a match at `p` is placed as the pattern places it (`WellPlaced`): the name starts between the colon and the end of the greedy spaces and gives back spaces only when it must, ends at its first closing position, and the payload starts after the `---` line and ends at its first stop |
| Blocks.WellPlacedUnique | ai_builder.py:59-61 | two well-placed matches with the same start are equal, so `WellPlaced` fixes the name and the payload |
| Blocks.PathSpanPlaced | ai_builder.py:59-61 | the span `PathSpan` finds after a header is placed as the pattern places a name |
| Blocks.PlacedMatch | ai_builder.py:59-61 | the match built for a header at `p` and a placed name span starts at `p`, keeps that span and ends within the text |
| Blocks.PlacedMatchWellPlaced | ai_builder.py:59-61 | that match is well placed: its payload starts after the `---` line and ends at its first stop |
| Blocks.FindAll | ai_builder.py:238-240 | the matches come in source order, do not overlap, are each the pattern's match at their start, and every position where a match could start is inside one of them, as `findall`'s leftmost scan gives |
| Blocks.MatchesCons | ai_builder.py:238-240 | a match followed by a later, ordered list of matches is still an ordered list of matches |
| Blocks.ClaimedCons | ai_builder.py:238-240 | a match at `p` followed by a list that claims every later match start claims every match start from `p` |
| Blocks.ToBlock | ai_builder.py:241-243 | a block has its kind, a stripped name and a payload with no leading newline and no trailing space |
| Blocks.BlocksOf | ai_builder.py:241-243 | one block per match, in match order |
| Blocks.NoBlocksMessage | ai_builder.py:245-246 | the message starts with `No blocks parsed. Preview:` and a newline, and the preview after it holds no newline; a short text without newlines is shown as it is |
| Blocks.ParseBlocks | ai_builder.py:236-247 | fails exactly when none of the three scans finds a match, with the `No blocks parsed` message over the fence-free text; otherwise exactly the three lists of blocks built from the matches of each kind, of the matches' lengths, all normalized |
| Blocks.PayloadStopsAtAnyHeader | ai_builder.py:60-61 | no diff or patch payload holds a newline followed by a header of any kind |
| Blocks.FilePayloadStopsAtFileHeader | ai_builder.py:59 | no file payload holds a newline followed by a `--- file:` header |
| Blocks.FilePayloadRunsToEnd | ai_builder.py:59 | a file match with no later file header has its payload run to the end of the text, so it holds every later diff or patch header |
| Blocks.HeaderRightAfterHeaderIsPayload | ai_builder.py:59-61 | a header line right after a match's header line starts that match's non-empty payload, and no match of the scan starts there |
| Paths.Parts | ai_builder.py:143-145 | the path's parts: the non-empty `/`-segments other than `.`, none holding `/` |
| Paths.KeptSegments | ai_builder.py:145 | keeps exactly the segments that are neither empty nor `.` |
| Paths.NoParentPart | ai_builder.py:145-147 | true exactly when no part is `..` |
| Paths.IsSafeRelative | ai_builder.py:142-148 | a path is safe exactly when it is not absolute and no `/`-segment is `..` |
| Paths.Normalize | ai_builder.py:281 | the normalized name is never absolute, and is empty exactly when the path has no parts |
| Paths.PartsOfNormalize | ai_builder.py:281 | a normalized name has the same parts as the path it came from |
| Paths.NormalizeIdempotent | ai_builder.py:281 | normalizing twice is normalizing once, so a path and its normal form name the same file |
| Paths.KeptSegmentsOfParts | ai_builder.py:145 | parts already free of empty and `.` segments are kept as they are |
| Paths.RejectsAbsolute | ai_builder.py:144 | `/etc/passwd` is refused |
| Paths.RejectsParent | ai_builder.py:145-147 | `../secrets.env` is refused |
| Paths.AcceptsNested | ai_builder.py:142-148 | `src/app/index.ts` is accepted |
| Paths.AcceptsPlainSegments | ai_builder.py:142-148 | segments that are neither `..` nor hold `/`, the first of them non-empty, join with `/` into a path the guard accepts |
| Paths.AcceptsThreeDots | ai_builder.py:142-148 | `...` is accepted: only `..` itself is refused |
| NaiveDiff.Classify | ai_builder.py:312-315 | a diff line is a header (it starts with `+++`, `---` or `@@`), an addition or a removal carrying the rest of the line, or context |
| NaiveDiff.Additions | ai_builder.py:314 | there are no more additions than diff lines |
| NaiveDiff.Removals | ai_builder.py:315 | there are no more removals than diff lines |
| NaiveDiff.FirstIndex | ai_builder.py:318 | `list.index`: the first position holding the line, or the length exactly when the line is absent |
| NaiveDiff.RemoveFirst | ai_builder.py:317-321 | an absent line changes nothing; otherwise the first occurrence, and only it, is removed, and the multiset loses one copy of the line |
| NaiveDiff.RemoveEach | ai_builder.py:316-320 | removing each removal at most once leaves between the original length minus the removals and the original length |
| NaiveDiff.Patched | ai_builder.py:309-324 | the patched length lies between the original length minus the removals plus the additions and the original length plus the additions |
| NaiveDiff.NaiveApplyDiff | ai_builder.py:309-324 | the loop method's result is the original lines with each removal's first match taken out in order, followed by every addition in order; the input sequence is a value and is not changed |
| NaiveDiff.Collect | ai_builder.py:311-315 | the first loop gathers exactly the additions and the removals of the diff lines, in order |
| NaiveDiff.RemoveAll | ai_builder.py:316-320 | the removal loop removes each removal's first match in turn and skips missing ones |
| NaiveDiff.InsertAtEnd | ai_builder.py:321-323 | inserting at an advancing index after the last line appends the additions in order |
| NaiveDiff.Index | ai_builder.py:318 | the search loop returns the first index of the line, or the length when it is missing |
| NaiveDiff.FirstIndexUnique | ai_builder.py:318 | any index holding the line with no earlier copy is the first index |
| NaiveDiff.AdditionsAppend | ai_builder.py:312-314 | additions of concatenated diff lines are the concatenation of their additions |
| NaiveDiff.RemovalsAppend | ai_builder.py:312-315 | removals of concatenated diff lines are the concatenation of their removals |
| NaiveDiff.HeaderLineIgnored | ai_builder.py:313 | a `+++`, `---` or `@@` line adds nothing and removes nothing |
| NaiveDiff.RemoveEachMultiset | ai_builder.py:316-320 | removing each line once means that, as multisets, the result is the original minus the removals |
| NaiveDiff.RemoveEachAbsent | ai_builder.py:319-320 | removals that match no line change nothing |
| NaiveDiff.PatchedMultiset | ai_builder.py:309-324 | the patched lines, as a multiset, are the original minus the removals plus the additions |
| NaiveDiff.NoRemovalsAppends | ai_builder.py:321-323 | a diff with no `-` lines appends its additions to the original |
| NaiveDiff.AdditionsAtTheEnd | ai_builder.py:321-323 | the patched lines end with all the additions, in order |
| NaiveDiff.UnterminatedLastLineSurvives | ai_builder.py:301-318 | removing `x` from a file whose only line `x` has no line end leaves `x` in place and appends the addition |
| NaiveDiff.TerminatedLineReplaced | ai_builder.py:301-323 | a `-x`/`+y` diff over a file starting with the line `x` and its line end removes that line and appends `y` at the end |
| NaiveDiff.FinalRemovalIsUnterminated | ai_builder.py:242-318 | a diff whose only line is a removal `-x` without a newline, as a stripped payload ends, leaves a line `x` with a newline in place and removes a line `x` without one |
| NaiveDiff.OneRemoval | ai_builder.py:312-315 | the single line `-r` gives exactly the removal `r` and no addition |
| NaiveDiff.DiffLines | ai_builder.py:312-315 | the lines `-r` and `+a` give exactly the removal `r` and the addition `a` |
| NaiveDiff.NoLeadingPair | ai_builder.py:313 | adding a line end does not make a line start with a header pair |
| JsonPatch.Operations | ai_builder.py:336-337 | an object is one operation, a list gives its items, a string gives its characters, and any other value fails as not iterable |
| JsonPatch.Field | ai_builder.py:339-346 | `op.get(key, "")`: a missing key is the empty string, a string value is itself, and any other value fails |
| JsonPatch.ApplyOp | ai_builder.py:338-346 | a non-object fails; an unknown or missing `op` changes nothing; a known op succeeds exactly when the fields it reads are strings |
| JsonPatch.ApplyOps | ai_builder.py:337-346 | no operations leave the text as it is; a failure needs at least one operation and is never the not-iterable error |
| JsonPatch.PatchedText | ai_builder.py:336-346 | an object is applied as the one operation it is; the payload fails as not iterable exactly when it is null, a boolean or a number |
| JsonPatch.ApplyPatchValue | ai_builder.py:336-346 | the loop method's text is the operations folded left to right over the text, stopping at the first failure |
| JsonPatch.SingleObjectIsList | ai_builder.py:336 | a single object acts as the one-element list holding it |
| JsonPatch.ApplyOpsAppend | ai_builder.py:337 | folding two lists in turn is folding their concatenation |
| JsonPatch.ApplyOpsTwo | ai_builder.py:337-346 | two operations that succeed one after the other fold to the second one's text |
| JsonPatch.AbsentFindIsNoOp | ai_builder.py:339-340 | a `replace` whose non-empty `find` is absent leaves the text unchanged |
| JsonPatch.ChainedReplaces | ai_builder.py:337-340 | `[replace A->B, replace B->C]` turns `A` into `C`: each operation sees the text the previous one produced |
| JsonPatch.ReplaceOpApplies | ai_builder.py:339-340 | a `replace` object is `text.replace(find, replace)` |
| JsonPatch.DeleteIsReplaceWithEmpty | ai_builder.py:341-346 | a `delete` equals the `replace` of the same `find` by the empty string |
| JsonPatch.InsertAfterEveryAnchor | ai_builder.py:341-343 | an `insert` puts the replacement after every occurrence of a non-empty anchor |
| JsonPatch.EmptyFindReplacesEverywhere | ai_builder.py:339-340 | an empty `find` gives `rep` for an empty text and otherwise `rep + rep.join(list(text)) + rep`: the replacement before every character and at the end, `n + 1` copies in all |
| JsonPatch.UnknownOpsAreNoOps | ai_builder.py:338-346 | a list of objects with unknown or missing `op` changes nothing |
| JsonPatch.ScalarPatchFails | ai_builder.py:337 | a null, boolean or number payload fails before any operation |
| JsonPatch.StringPatchFails | ai_builder.py:337-338 | a non-empty string payload fails on its first character, which has no `get` |
| JsonPatch.DeleteRemovesEveryOccurrence | ai_builder.py:344-346 | a `delete` of a non-empty `find` keeps only the pieces between its occurrences |
| Workspace.WriteFile | ai_builder.py:278-284 | an unsafe path fails with the guard's error; the write succeeds exactly when the path is safe, no ancestor is a file and the name is not a directory; then the file gets its new content and nothing else changes |
| Workspace.Message | ai_builder.py:279-303 | only the guard's refusals and missing targets carry a message, and it ends with the block's path |
| Workspace.Target | ai_builder.py:296-303 | an unsafe path fails with the guard's error for its kind; the target is found exactly when the safe path names a file; otherwise a directory fails on reading and anything else as not found |
| Workspace.DiffFile | ai_builder.py:296-306 | a diff block succeeds exactly when its target is found, and fails with the target's error otherwise; on success no file is added or removed, every other file keeps its content, and the target holds the patched lines of its content read with universal newlines, run together |
| Workspace.PatchFile | ai_builder.py:329-348 | an unsafe or missing target fails first with its error, then an undecodable payload; a decoded payload succeeds exactly when folding it over the content read with universal newlines succeeds, and a failed fold fails the block with that fold's error; on success no file is added or removed, every other file keeps its content and the target holds the folded text |
| Workspace.Step | ai_builder.py:288-290 | a successful step changes no file other than the block's, keeps every file, adds at most the block's file, and adds none at all for a diff or a patch |
| Workspace.Batch | ai_builder.py:288-290 | a loop keeps every file and, for every file that no block names, its content; a failure needs a block |
| Workspace.WriteFileKeepsWellFormed | ai_builder.py:278-284 | a write keeps the tree well formed: normalized names, no file below another |
| Workspace.StepKeepsWellFormed | ai_builder.py:288-290 | each step of any of the three loops keeps the tree well formed |
| Workspace.BatchKeepsWellFormed | ai_builder.py:288-290 | a whole loop keeps the tree well formed, whether it completes or stops early |
| Workspace.BatchAppend | ai_builder.py:288-290 | running the loop over two lists in turn is running it over their concatenation, and a failure in the first means the second is never attempted |
| Workspace.StopsAtFirstFailure | ai_builder.py:288-290 | when a block fails, the loop reports its exception, keeps what the earlier blocks did and never attempts the later ones |
| Workspace.UnsafeFirstBlockChangesNothing | ai_builder.py:279-280 | an unsafe first block fails the loop with the guard's error, whose message is the applier's `Unsafe path` prefix followed by the path, before anything is written |
| Workspace.ChangesKeepNames | ai_builder.py:295-348 | a diff or patch loop never adds or removes a file, even when it stops early |
| Workspace.LastWriteWins | ai_builder.py:288-290 | of two file blocks for the same path, the later one decides the content |
| Workspace.RewriteAllowed | ai_builder.py:278-284 | a file just written can be written again, and the second write replaces the first content |
| Builder.SendOutcome | ai_builder.py:262-270 | a failed call raises its own exception; a reply succeeds exactly when it parses, with the parsed blocks; a reply without blocks raises `ValueError` with the parse message |
| Builder.ErrorEntry | ai_builder.py:268 | the error entry begins with `[ERROR] `, the exception's type name and `: `, ends with its message and has nothing between them |
| Builder.AssistantTurn | ai_builder.py:264-268 | the entry after the call is an assistant turn holding the reply text on success and the error entry on failure |
| Builder.ExchangeKeepsAlternation | ai_builder.py:253-268 | appending a user turn and then an assistant turn keeps a transcript of alternating user and assistant turns |
| Builder.FailedExchangeIsMarked | ai_builder.py:267-268 | a failed exchange is still recorded, as an entry beginning with `[ERROR] ` |
| Builder.Scaffolder.constructor | ai_builder.py:186-210 | the scaffolder starts with the given instructions, or the default system prompt when none are given, with its tree, and with the saved transcript or an empty one when loading fails |
| Builder.Scaffolder.Send | ai_builder.py:250-270 | the request is built from the transcript as it was; the transcript gains exactly the user turn and one assistant turn on every outcome; the result is the outcome of the reply, and an alternating transcript stays alternating |
| Builder.Scaffolder.SafeWrite | ai_builder.py:278-284 | the tree becomes the written one on success and is unchanged on failure, with the error reported |
| Builder.Scaffolder.WriteBlocks | ai_builder.py:286-290 | the loop leaves the tree and the failure of the file-write batch over the blocks, skipping other kinds |
| Builder.Scaffolder.ApplyUnifiedDiff | ai_builder.py:293-307 | the loop leaves the tree and the failure of the diff batch over the blocks |
| Builder.Scaffolder.ApplyJsonPatches | ai_builder.py:326-349 | the loop leaves the tree and the failure of the patch batch over the blocks |
| Prompts.PresetText | ai_builder.py:222-225 | a preset contributes a section exactly when it is `firebase` or `gcp-run`: the Firebase text for `firebase` and the Cloud Run text for `gcp-run` |
| Prompts.WithSection | ai_builder.py:221-225 | adding a section keeps the text as a prefix and ends with a blank line and the section |
| Prompts.ComposeSystem | ai_builder.py:218-226 | the composed prompt starts with the instructions; in `code` mode the code-only section follows them; a known preset's section comes last; the length is the sum of the parts |
| Prompts.Sections | ai_builder.py:218-226 | the base text followed by the present sections: it starts with the base, the first section follows it after a blank line, the second comes last, and the length is the sum of the parts |
| Prompts.PlainSystemIsBase | ai_builder.py:218-226 | without `code` mode and a known preset the instructions are used as they are |
| Prompts.BuildMessages | ai_builder.py:228-233 | the request is the system message, one message per transcript entry in order, and the new user message last |
| Prompts.MessagesExtendTranscript | ai_builder.py:228-233 | a later request repeats an earlier request's system message and transcript messages |
| Validation.RunCmd | ai_builder.py:361-367 | a command the gate refuses gets `ok=False`, no stdout and the refusal message; an admitted one reports the launch's success and exactly the last 8000 characters of each output (all of a shorter one); outputs never exceed 8000 characters |
| Validation.RefusedCommandNeverRuns | ai_builder.py:363-365 | a refused command's result does not depend on the launcher, so it is never run |
| Validation.PrefixGateAdmitsAnySuffix | ai_builder.py:363 | an entry of the whitelist followed by anything, after leading spaces, is admitted: the gate checks prefixes only |
| Validation.StderrText | ai_builder.py:387 | the stderr shown is never empty: non-empty stderr is shown as it is and empty stderr as `(empty)` |
| Validation.Chunk | ai_builder.py:387 | a result's chunk gives the command, `OK=True` or `OK=False` and the `STDERR:` line, ends with the stderr shown and has nothing between them |
| Validation.Chunks | ai_builder.py:385-387 | one chunk per result, in order |
| Validation.FeedbackPrompt | ai_builder.py:384-389 | the prompt starts with the results heading and ends with the request for changed blocks |
| Validation.FeedbackListsEveryResult | ai_builder.py:385-388 | every result's chunk occurs in the prompt |
| Validation.NoResultsFeedback | ai_builder.py:388-389 | with no results the prompt is the heading and the request alone |
| Validation.FeedbackOne | ai_builder.py:384-389 | the prompt for one result is the heading, its chunk and the request |
| Validation.FeedbackAppend | ai_builder.py:388 | one more result adds a blank line and its chunk before the request |
| Validation.RefusedFeedback | ai_builder.py:363-389 | a refused command appears in the prompt with `OK=False` and the refusal as its stderr |
| Validation.RefusedChunk | ai_builder.py:384-389 | the prompt for one refused result is the heading, its chunk with `OK=False` and the refusal as stderr, and the request |
| RepoUrl.AfterPrefix | ai_builder.py:154-157 | `origin.split(prefix)[1]` is the text after the prefix up to any later copy of the prefix |
| RepoUrl.DropGitSuffix | ai_builder.py:160 | a `.git` ending is removed, and any other text is kept |
| RepoUrl.OwnerRepo | ai_builder.py:161-162 | a path gives a pair exactly when it splits at `/` into two pieces; the pieces hold no `/` and, joined by `/`, give back the path |
| RepoUrl.ParseOriginUrl | ai_builder.py:150-162 | an empty origin or an unknown prefix gives none; a result is two parts without `/` that, joined by `/`, are the text after a known prefix of the stripped origin without `.git` |
| RepoUrl.HttpsRoundTrip | ai_builder.py:150-162 | `https://github.com/o/r.git` names `(o, r)` when neither part holds `/` |
| RepoUrl.SshRoundTrip | ai_builder.py:150-162 | `git@github.com:o/r` names `(o, r)` when neither part holds `/`, the path does not hold the prefix again and `r` ends neither in `.git` nor in a space |
| RepoUrl.ParsesTo | ai_builder.py:153-162 | a stripped URL with the chosen prefix, whose path does not hold it again and comes to `o/r` once `.git` is dropped, names `(o, r)` |
| RepoUrl.SplitOwnerRepo | ai_builder.py:161 | `o/r` with no `/` in either part splits into exactly the two parts |
| RepoUrl.FirstNonEmpty | ai_builder.py:164-167 | none exactly when no value is present and non-empty; otherwise the first such value |
| Backend.Filter | backend/main.py:139-142 | a comprehension filter keeps an order-preserving subsequence holding exactly the elements that pass |
| Backend.FilterMembers | backend/main.py:139-142 | a value is in the filtered list exactly when it is in the list and passes |
| Backend.FilterTwice | backend/main.py:138-142 | filtering by one condition and then another is filtering by both |
| Backend.FilterAll | backend/main.py:138 | a filter every element passes returns the list unchanged |
| Backend.Find | backend/main.py:145-151 | `next(..., None)` is none exactly when nothing passes, and otherwise the first element that passes |
| Backend.FirstWhere | backend/main.py:130 | the first index whose element passes, or the length when none does |
| Backend.ListIncidents | backend/main.py:136-143 | the incident list is no longer than the incidents, holds only incidents wanted by the filters, and with no filters is the incidents unchanged |
| Backend.ListIncidentsSelects | backend/main.py:136-143 | the incident list is one filter by the wanted status and severity, compared case-insensitively |
| Backend.ListIncidentsProperties | backend/main.py:136-143 | the result is an order-preserving subsequence of the incidents, holds exactly the wanted ones, and with no filters (absent or empty) is the incidents unchanged |
| Backend.GetStation | backend/main.py:128-134 | 404 `Station not found` exactly when no station has the id; otherwise the first station with the id and, as recent incidents, exactly the filter of the incidents by that station id: in order, each incident of the station and no other |
| Backend.GetIncident | backend/main.py:145-151 | 404 `Incident not found` exactly when no incident has the id; otherwise the first incident with the id and the first station with its station id, or none when no station has it |
| Backend.Count | backend/main.py:102 | a count is at most the number of elements |
| Backend.CountIsFilterLength | backend/main.py:102 | counting the elements that pass is the length of their filter |
| Backend.ActiveIsListLength | backend/main.py:102 | counting the active incidents gives the length of the incident list filtered by status `active` |
| Backend.OnDuty | backend/main.py:104 | no stations have nobody on duty; with no negative count, the sum is not negative and no station's count exceeds it |
| Backend.ComputeStats | backend/main.py:99-105 | `active_incidents` is the length of the incident list filtered by status `active`, at most the number of incidents; `firefighters_on_duty` is the sum of the stations' counts and `stations` their number |
| Backend.OnDutyAppend | backend/main.py:104 | the firefighters on duty of two station lists add up |
| Backend.SampleActive | backend/main.py:52-102 | two of the four built-in incidents have the status `active` once lowered |
| Backend.SampleOnDuty | backend/main.py:22-104 | the built-in stations have 12, 9 and 8 firefighters on duty, 29 in all |
| Backend.SampleStatuses | backend/main.py:57-102 | `Active` lowers to `active` and `Cleared` does not |
| Backend.SampleStats | backend/main.py:22-105 | over the fixed records there are 2 active incidents, 29 firefighters on duty and 3 stations |
| Text.Strip | ai_builder.py:241 | `strip()`: the result has no surrounding spaces and is the part after the leading spaces, with only spaces after it |
| Text.TrimLeadingNewlines | ai_builder.py:241 | `lstrip("\n")`: a suffix preceded only by newlines that does not start with one |
| Text.TrimEnd | ai_builder.py:241 | `rstrip()`: a prefix followed only by spaces that does not end in one |
| Text.Split | ai_builder.py:161 | `split(sep)`: at least one piece, the first a prefix of the text |
| Text.SplitLeftmost | ai_builder.py:161 | more than one piece exactly when the separator occurs; then the first cut is at the leftmost occurrence, and with one piece that piece is the text |
| Text.SplitRest | ai_builder.py:161 | after the first cut, the remaining pieces are the split of the text after the separator, so every cut is leftmost from where the previous one ended |
| Text.SplitPiecesAreFree | ai_builder.py:161 | no piece of a split holds the separator |
| Text.JoinSplit | ai_builder.py:161 | joining the pieces of a split with its separator gives back the text |
| Text.JoinContains | ai_builder.py:388 | every piece occurs in the joined text |
| Text.JoinSnoc | ai_builder.py:388 | joining one more piece adds the separator and the piece at the end |
| Text.ReplaceIsJoinOfSplit | ai_builder.py:340 | `replace` with a non-empty pattern joins the split pieces with the replacement |
| Text.ReplaceEmpty | ai_builder.py:340 | `replace("", r)` grows the text by `n + 1` copies of `r` |
| Text.ReplaceEmptyIsJoin | ai_builder.py:340 | on a non-empty text, `replace("", r)` is `r + r.join(list(s)) + r` |
| Text.SplitLines | ai_builder.py:301 | `splitlines(keepends=True)` over `\n`: the lines run together give the text, and only a line's last character may be `\n`, as it is for every line but the last |
| Text.Tail | ai_builder.py:367 | `s[-n:]`: the last `n` characters, or all of them when there are fewer |
| Text.UniversalNewlines | ai_builder.py:301 | `read_text`'s universal newlines: no `\r` is left, a text without `\r` is unchanged, and the text never grows |
| Text.UniversalNewlinesIsReplace | ai_builder.py:301 | universal newlines are `replace("\r\n", "\n")` followed by `replace("\r", "\n")` |
| Text.UniversalNewlinesExample | ai_builder.py:334 | `a\r\nb\rc` reads as `a\nb\nc` |
| Text.AsciiLower | backend/main.py:139-142 | `lower()` on ASCII letters: same length, `A`-`Z` mapped to `a`-`z`, everything else kept |

## Left out

- Process launches (`run_p`, `run_json`) and every `git_*`, `gh_*`, `gcp_*` and `firebase_*` method and `has_*` probe: they are foreign processes. In `run_cmd` the launch is the parameter `run`, and `cwd` is left out with it.
- The language-model call: `Send` receives it as a function from the request to a reply or an exception. Model name, temperature and the output token limit are passed to that call only and are not modelled.
- `apply_changes` is `send` under another name and has no member of its own.
- `save_history` and `load_history`: the transcript is the `history` field, and the constructor takes the loaded transcript, or none when loading failed.
- `validate_project`: it assembles a fixed command list and runs each through `run_cmd`, and running is outside the model.
- `ci_poll_and_collect_logs`, `summarize_ci_logs_for_prompt`, the zip command, `argparse`/`main` and the workflow template: polling with a clock, a regular-expression search over logs, and I/O.
- `json.loads`: the patch applier takes the decoder as a parameter, and the decoded value is the `Json` datatype.
- The `root` argument of the three appliers: the model has one tree, the scaffolder's own.
- Real `mkdir` and `write_text`, and the messages of operating-system exceptions: a write fails where a file would have to be a directory or the other way round, and those errors carry no text.
- Empty directories are not represented, since the tree holds only files. `exists()` on such a directory is therefore not modelled.
- The UTF-8 decode fallback of the diff and patch appliers (`read_bytes().decode(..., errors="replace")`): contents are strings, so a file is always read through `read_text`. That fallback would not translate newlines.
- `write_text` writes `\n` as it is, as it does on POSIX systems; Windows newline translation on writing is not modelled.
- Windows path semantics: paths follow POSIX rules.
- DropOpeners: its own contract gives only the length bound and the fence-free case; that an opener is deleted is stated by `Fences.DropOpenersDeletesOpener`, and the whole effect on a fenced body by `Fences.FencedBodyUnwrapped`.
- The full regular-expression engine: the three header patterns and the two fence patterns are hand-written scanners.
- Text.Split: its own contract gives only the first piece as a prefix; where each cut falls is stated by `Text.SplitLeftmost` and `Text.SplitRest`.
- Text.ReplaceEmpty: its own contract gives only the length; the exact text is stated by `Text.ReplaceEmptyIsJoin`.
- Text.UniversalNewlines: its own contract does not say what `\r` becomes; the exact mapping is stated by `Text.UniversalNewlinesIsReplace`.
- Blocks.MatchAt: its own contract gives only the start and the bounds; the placement is stated by `Blocks.MatchAtWellPlaced` and its uniqueness by `Blocks.WellPlacedUnique`.
- Blocks.PlacedMatch: its own contract gives only the span and the bounds; the payload placement is stated by `Blocks.PlacedMatchWellPlaced`.
- Text.SplitLines: splits at `\n` only; Python's `splitlines` also splits at `\r` (which universal newlines have already turned into `\n` in the diff applier), `\x0b`, `\x0c`, `\x1c` to `\x1e`, `\x85`, `\u2028` and `\u2029`.
- Text.AsciiLower: lowercases ASCII letters only; Python's `lower` also maps other Unicode letters.
- RepoUrl.FirstNonEmpty: the values are optional strings, the truthiness of other Python types is not modelled.
- Backend.ComputeStats: `calls_today`, `calls_this_month`, `last_updated` (date arithmetic on the clock) and `avg_response_time_min` (a float constant) are not modelled. `reported_at` is kept as its offset in minutes from start-up.
- The verbose printing of every applier and of `validate_project`.
- FastAPI and CORS wiring, the `hello` and `list_stations` handlers, and the whole front end: there is no logic in them beyond returning the records.
