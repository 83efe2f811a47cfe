# Clone detection in the code stream consumer

The code stream consumer receives Java source files one at a time and reports the
stretches of code each new file shares with the files already seen. For every file
it runs a fixed sequence of steps (`processFile`, index.js):

1. **preprocess** rejects a file whose name does not end in `.java`, or whose name has
   already been processed.
2. **transform** splits the text into lines. The line filter strips blank lines, `//`
   comments, one-line `/* … */` comments and multi-line block comments, carrying an
   in-comment flag from line to line. The chunker then cuts the lines with content into
   sliding windows ("chunks") of five lines.
3. **matchDetect** compares every chunk of the file with every chunk of every stored
   file. It is meant to make one `Clone` for each equal pair, with the new file as the
   source and the stored file as the target, and then to consolidate the clones: clones
   with the same source name, start line and end line are merged into one, and the
   merged clone collects their targets. The model follows this intended behaviour. As
   written, the code passes the `Clone` constructor its arguments in the wrong order,
   and the merge appends no target; both are listed under "## Findings", each with a
   model of the code as written.
4. **expandClones** folds overlapping consecutive windows into longer clones.
5. **storeClones** hands the clones to the clone store.
6. **storeFile** drops the file's lines and clones and stores the file by name.

The Dafny project models these steps. Its modules follow the program's structure:

- `Text` stands for the JavaScript built-ins the detector uses: `\s` and `trim`,
  `split("\n")`, and `[...new Set(…)]`.
- `SourceLines` is the `SourceLine` record.
- `Comments` holds the five regular expressions as string functions, plus one step of
  the line loop.
- `Preprocessor` is `#filterLines`.
- `Chunker` is `#getContentLines` and `#chunkify`.
- `Clones` is the `Clone` value and class.
- `Matcher` is `#chunkMatch` and the candidates `#filterCloneCandidates` produces.
- `Consolidator` is `#consolidateClones` as a fold on values.
- `Expander` is `#expandCloneCandidates` as a fold on values.
- `Detector` holds the file object, the two stores and the `CloneDetector` class, with
  one method per loop or reduce of the source.
- `Pipeline` chains the steps as `processFile` does.
- `ClonesAsWritten` is the clone construction with the arguments as written, and what
  it does to expansion (see "## Findings").

Code that changes state is modelled imperatively:

- `SourceFile`, `Clone`, `FileStore`, `CloneStore` and `CloneDetector` are classes.
- Loops and reduces are methods with loop invariants.
- Each method is proved against a function on values (for example
  `Records(file.instances) == Consolidated(old(Records(file.instances)))`).
- The properties of the detector are proved as lemmas about those functions.

The top-level result is `Pipeline.ProcessFile`, which states:

- the admission verdict;
- the new contents of both stores;
- that the clones reported for an admitted file are exactly `Reported(...)`, the
  expansion of the consolidation of all candidates against the stored files.

Each reported clone is valid and carries the new file's name.

The model follows the code on these points:

- Consolidation runs before expansion. `matchDetect` ends by consolidating
  (CloneDetector.js:237), and `expandClones` comes after it.
- A comment is closed only by a run of `*` and `/` at the start of a line that ends in
  `*/` (CloneDetector.js:5). A `*/` later in the line does not close it.
- The clone's source is the file being processed, and its target is the stored file
  (CloneDetector.js:211-216, with the argument order corrected as described under
  "## Findings").
- A file is never matched against itself. It is stored only after matching
  (index.js:286-299), and a second submission under the same name is rejected
  (CloneDetector.js:197-198).
- The union in `maybeExpandWith` keeps the order of concatenation and does not sort
  (Clone.js:37). For consecutive windows this order is already by line number
  (`Expander.ExpandedRun`).

## Model

| member | source | states |
|---|---|---|
| Text.Trim | Containers/CodeStreamConsumer/src/CloneDetector.js:47 | `trim` leaves no whitespace at either end and never lengthens the text (what it keeps is stated by `Text.TrimSlice`) |
| Text.TrimSlice | Containers/CodeStreamConsumer/src/CloneDetector.js:47 | the trimmed text is a slice `s[p..q]` of the line with only whitespace before `p` and after `q` |
| Text.TrimEmptyIffBlank | Containers/CodeStreamConsumer/src/CloneDetector.js:54 | a line's trimmed text is empty exactly when the line is whitespace only (what `hasContent` tests) |
| Text.Split | Containers/CodeStreamConsumer/src/CloneDetector.js:22 | `split("\n")` gives at least one piece, no piece holds a newline, and joining the pieces with newlines gives the text back |
| Text.SplitJoin | Containers/CodeStreamConsumer/src/CloneDetector.js:22 | splitting newline-free pieces joined by newlines gives exactly those pieces |
| Text.DedupSpec | Containers/CodeStreamConsumer/src/Clone.js:37 | `[...new Set(s)]` holds no element twice and holds exactly the elements of `s` |
| Text.DedupAppend | Containers/CodeStreamConsumer/src/Clone.js:37 | de-duplicating `a` followed by `b`, where `a` has no duplicates, keeps `a` as a prefix; everything after it comes from `b` and is not in `a` |
| Comments.StripBlank | Containers/CodeStreamConsumer/src/CloneDetector.js:1 | replacing `/^\s*$/` empties a whitespace-only line and keeps any other line; no contract of its own, its use is stated by `Comments.PlainLineKept` |
| Comments.StripLineComment | Containers/CodeStreamConsumer/src/CloneDetector.js:2 | replacing `/\/\/.*/` deletes from the first `//` to the end of the line; no contract of its own, stated by `Comments.NoSlashSlashNotFound` and `Comments.LineCommentRemoved` |
| Comments.LineCommentRemoved | Containers/CodeStreamConsumer/src/CloneDetector.js:2 | code without `//` followed by `//` and a comment text loses exactly the comment: the code is all that is left |
| Comments.StripInlineBlock | Containers/CodeStreamConsumer/src/CloneDetector.js:3 | replacing `/\/\*.*?\*\//` deletes the first one-line block comment; no contract of its own, stated by `Comments.NoSlashStarNoInlineBlock` and `Comments.InlineBlockRemoved` |
| Comments.InlineBlockRemoved | Containers/CodeStreamConsumer/src/CloneDetector.js:3 | code without `/*`, then `/*`, a text without `*/` or a line break, `*/` and more code: the comment is deleted and the code on both sides is joined |
| Comments.FirstOpener | Containers/CodeStreamConsumer/src/CloneDetector.js:4 | the position where `/\/\*+[^\*\/]*$/` matches is inside the line and is an opener: `/`, one or more `*`, then no `*` or `/` up to the end |
| Comments.CloserEnd | Containers/CodeStreamConsumer/src/CloneDetector.js:5 | where the match of `/^[\*\/]*\*+\//` ends; no contract of its own, stated by `Comments.CloserEndIsLongestMatch` |
| Comments.NoSlashSlashNotFound | Containers/CodeStreamConsumer/src/CloneDetector.js:2 | the line-comment pattern finds nothing on a line without `//` |
| Comments.NoSlashStarNoInlineBlock | Containers/CodeStreamConsumer/src/CloneDetector.js:3 | the one-line block-comment pattern finds nothing on a line without `/*` |
| Comments.NoSlashStarNoOpener | Containers/CodeStreamConsumer/src/CloneDetector.js:4 | the opener pattern finds nothing on a line without `/*` |
| Comments.LoneOpenerFound | Containers/CodeStreamConsumer/src/CloneDetector.js:4 | on a line whose only markers are one `/*` followed by no `*` or `/`, the opener pattern matches at that `/*` |
| Comments.CloserEndIsLongestMatch | Containers/CodeStreamConsumer/src/CloneDetector.js:5 | the closer match is a prefix of `*` and `/` characters that ends in `*/`, and it is the longest such prefix; there is no match exactly when no such prefix exists |
| Comments.CloserNeedsColumnZero | Containers/CodeStreamConsumer/src/CloneDetector.js:5 | a line that does not start with `*` or `/` never closes a comment, for example an indented `*/` |
| Comments.ProcessLine | Containers/CodeStreamConsumer/src/CloneDetector.js:29-45 | one pass of the loop body on a line and the in-comment flag; no contract of its own, its cases are stated by the four lemmas below |
| Comments.PlainLineKept | Containers/CodeStreamConsumer/src/CloneDetector.js:29-45 | outside a comment, a line without `//` or `/*` is only blank-stripped, leaves the flag off, and trims to its own trimmed text |
| Comments.CommentLineBlanked | Containers/CodeStreamConsumer/src/CloneDetector.js:29-36 | inside a comment, a line with no closer at column 0 becomes empty and the comment goes on |
| Comments.ClosingLine | Containers/CodeStreamConsumer/src/CloneDetector.js:29-45 | inside a comment, a line with a closer is treated as the text after the closer, outside a comment |
| Comments.OpenerEntersComment | Containers/CodeStreamConsumer/src/CloneDetector.js:42-45 | code free of markers followed by `/*` and a tail without `*` or `/` keeps the code and enters comment mode |
| Preprocessor.Preprocessed | Containers/CodeStreamConsumer/src/CloneDetector.js:21-51 | the lines `#filterLines` produces; no contract of its own, stated by `Preprocessor.PreprocessedShape` and `Preprocessor.FilteredAt`, and computed by `Preprocessor.FilterLines` |
| Preprocessor.FilterLine | Containers/CodeStreamConsumer/src/CloneDetector.js:27-45 | the loop body, statement by statement, computes `ProcessLine`: leave a comment, the three rewrites, enter a comment |
| Preprocessor.FilterLines | Containers/CodeStreamConsumer/src/CloneDetector.js:21-51 | the line loop yields exactly `Preprocessed(contents)`: one line per piece, each processed with the flag the earlier pieces left |
| Preprocessor.FilteredAt | Containers/CodeStreamConsumer/src/CloneDetector.js:47 | line `i` of the result comes from piece `i`, processed with the flag after the first `i` pieces |
| Preprocessor.PreprocessedShape | Containers/CodeStreamConsumer/src/CloneDetector.js:22-26 | one line per newline-separated piece, numbered `i + 1`, with trimmed content |
| Preprocessor.PlainFileKept | Containers/CodeStreamConsumer/src/CloneDetector.js:21-51 | in a file with no `//` or `/*`, line `i` is the trimmed piece `i` under number `i + 1` |
| Preprocessor.PlainTrimmedFileRoundTrip | Containers/CodeStreamConsumer/src/CloneDetector.js:21-51 | for such a file whose pieces are already trimmed, joining the line contents with newlines gives back the file |
| Preprocessor.OpenerLine | Containers/CodeStreamConsumer/src/CloneDetector.js:42-47 | a piece ending in an unterminated `/*` keeps its trimmed code and turns comment mode on |
| Preprocessor.CommentBody | Containers/CodeStreamConsumer/src/CloneDetector.js:29-36 | after an opener, the pieces without a closer at column 0 come out empty and comment mode stays on |
| Preprocessor.ClosingPiece | Containers/CodeStreamConsumer/src/CloneDetector.js:29-47 | in comment mode, the piece with a closer yields the trimmed result of processing its text after the closer outside a comment |
| Chunker.Chunks | Containers/CodeStreamConsumer/src/CloneDetector.js:57-67 | the chunks `#chunkify` produces; no contract of its own, stated by `Chunker.WindowsFromShape`, `Chunker.ChunkSizes` and `Chunker.NoChunksWhenShort`, and computed by `Chunker.Chunkify` |
| Chunker.ContentLines | Containers/CodeStreamConsumer/src/CloneDetector.js:53-55 | the content lines are exactly the lines that have content, and there are no more of them than lines |
| Chunker.ContentLinesIncreasing | Containers/CodeStreamConsumer/src/CloneDetector.js:53-55 | filtering keeps line numbers increasing |
| Chunker.WindowsFromShape | Containers/CodeStreamConsumer/src/CloneDetector.js:62-65 | the windows from `i` on number max(0, n - i - k + 1), and window `j` is lines `i + j` to `i + j + k - 1` |
| Chunker.Chunkify | Containers/CodeStreamConsumer/src/CloneDetector.js:57-67 | the chunk loop yields `Chunks(lines, k)`: max(0, n - k + 1) chunks, chunk `i` being content lines `i` to `i + k - 1` |
| Chunker.ChunkLinesHaveContent | Containers/CodeStreamConsumer/src/CloneDetector.js:53-66 | every line of every chunk has content |
| Chunker.NoChunksWhenShort | Containers/CodeStreamConsumer/src/CloneDetector.js:62 | fewer than `k` content lines give no chunk |
| Chunker.ChunkSizes | Containers/CodeStreamConsumer/src/CloneDetector.js:62-63 | every chunk has exactly `k` lines |
| Clones.NewClone | Containers/CodeStreamConsumer/src/Clone.js:3-14 | the source name and chunk are those given; the start and end are the first and last line numbers; there is exactly one target, the target name with the first line of the target chunk |
| Clones.Clone.constructor | Containers/CodeStreamConsumer/src/Clone.js:3-14 | the new object holds the `NewClone` record, which is valid |
| Clones.CloneRecord.SameSource | Containers/CodeStreamConsumer/src/Clone.js:16-20 | `equals`: same source name, start and end; stated by `Clones.SameSourceIsEquivalence` |
| Clones.SameSourceIsEquivalence | Containers/CodeStreamConsumer/src/Clone.js:16-20 | `equals` is reflexive, symmetric and transitive, and it holds exactly when the source name, start and end agree |
| Clones.CloneRecord.WithTarget | Containers/CodeStreamConsumer/src/Clone.js:22-26 | the record `addTarget` is meant to leave; stated by `Clones.WithTargetProperties` |
| Clones.WithTargetProperties | Containers/CodeStreamConsumer/src/Clone.js:22-26 | adding a target appends exactly that target and keeps the source fields and validity |
| Clones.Clone.AddTarget | Containers/CodeStreamConsumer/src/Clone.js:22-26 | the object's new record is the old one with the target appended, as intended (see Findings) |
| Clones.CloneRecord.IsNext | Containers/CodeStreamConsumer/src/Clone.js:30-33 | `isNext`: this chunk's last line number is the other's next-to-last; stated by `Clones.IsNextIffOverlap` |
| Clones.IsNextIffOverlap | Containers/CodeStreamConsumer/src/Clone.js:30-33 | along increasing lines, a clone over lines `p..q-1` is next to the window `j..j+k-1` (with `k >= 2`) exactly when the window ends one line after the clone |
| Clones.CloneRecord.ExpandedWith | Containers/CodeStreamConsumer/src/Clone.js:37-38 | the record `maybeExpandWith` leaves when it expands; stated by `Clones.ExpandedWithProperties`, `Clones.ExpandedWithLines` and `Clones.ExpandedWithValid` |
| Clones.ExpandedWithProperties | Containers/CodeStreamConsumer/src/Clone.js:37-38 | the expanded chunk is the old chunk followed by the other's lines not already in it, with no duplicates and containing all of the other's lines; the end becomes the new last line number; name, start and targets are kept, and so is validity |
| Clones.ExpandedWithLines | Containers/CodeStreamConsumer/src/Clone.js:37 | a line is in the expanded chunk exactly when it is in one of the two chunks |
| Clones.ExpandedWithValid | Containers/CodeStreamConsumer/src/Clone.js:37-38 | expansion keeps a valid clone valid and keeps its first line |
| Clones.ExpandedWindow | Containers/CodeStreamConsumer/src/Clone.js:31-38 | a clone over lines `p..q-1` is next to the following sliding window, and expanding with it gives lines `p..q`, exactly one more line |
| Clones.Clone.MaybeExpandWith | Containers/CodeStreamConsumer/src/Clone.js:35-44 | the result is `isNext`; on true the record becomes the expanded record, on false it is unchanged |
| Matcher.ChunksEqualIsEquivalence | Containers/CodeStreamConsumer/src/CloneDetector.js:69-82 | chunk equality is reflexive, symmetric and transitive |
| Matcher.ChunkMatch | Containers/CodeStreamConsumer/src/CloneDetector.js:69-82 | the flag loop returns true exactly when the chunks have the same length and equal contents position by position |
| Matcher.ClonesOf | Containers/CodeStreamConsumer/src/CloneDetector.js:97-120 | the clones for one source chunk against one stored file; stated by `Matcher.ClonesOfExact`, `Matcher.ClonesOfAppend` and `Matcher.ClonesOfPresent` |
| Matcher.CandidatesFor | Containers/CodeStreamConsumer/src/CloneDetector.js:96-121 | the clones `#filterCloneCandidates` makes against one stored file; stated by `Matcher.CandidatesForExact` and `Matcher.CandidatesForAppend` |
| Matcher.AllCandidates | Containers/CodeStreamConsumer/src/CloneDetector.js:213-216 | the candidates against all stored files, file by file; stated by `Matcher.AllCandidatesSnoc`, `Matcher.CandidatesValid` and `Matcher.AllCandidatesOfNoChunks` |
| Matcher.ClonesOfExact | Containers/CodeStreamConsumer/src/CloneDetector.js:97-120 | the clones made for one chunk are exactly `new Clone` of that chunk with each equal stored chunk |
| Matcher.CandidatesForExact | Containers/CodeStreamConsumer/src/CloneDetector.js:96-121 | the candidates against one stored file are exactly the clones of each pair of a chunk and an equal stored chunk |
| Matcher.CandidatesForAppend | Containers/CodeStreamConsumer/src/CloneDetector.js:96 | candidates are ordered by source chunk: those of earlier chunks come first |
| Matcher.ClonesOfAppend | Containers/CodeStreamConsumer/src/CloneDetector.js:97-99 | within one source chunk, the clones follow the order of the stored chunks |
| Matcher.ClonesOfPresent | Containers/CodeStreamConsumer/src/CloneDetector.js:97-99 | a chunk that occurs among the stored chunks gives at least one clone |
| Matcher.SelfMatchCount | Containers/CodeStreamConsumer/src/CloneDetector.js:96-99 | comparing chunks with a file holding all of them gives at least one candidate per chunk |
| Matcher.CandidatesValid | Containers/CodeStreamConsumer/src/CloneDetector.js:105-116 | every candidate is valid, carries the file's name and has one of the file's chunks as its source |
| Matcher.AllCandidatesSnoc | Containers/CodeStreamConsumer/src/CloneDetector.js:215-216 | the candidates against the stored files are those against the earlier files followed by those against the next one |
| Matcher.AllCandidatesOfNoChunks | Containers/CodeStreamConsumer/src/CloneDetector.js:96 | a file without chunks gets no candidates against any stored files |
| Consolidator.FindEqual | Containers/CodeStreamConsumer/src/CloneDetector.js:178 | `find` gives the first accumulated clone that `equals` the current one, or reports that none does |
| Consolidator.ConsolidateStep | Containers/CodeStreamConsumer/src/CloneDetector.js:177-185 | one step of the reduce, as intended; stated by `Consolidator.IdentitiesStep`, `Consolidator.AppendRepresents` and `Consolidator.AbsorbRepresents` |
| Consolidator.Consolidated | Containers/CodeStreamConsumer/src/CloneDetector.js:173-189 | the consolidated clones are no more than the inputs and all have targets |
| Consolidator.IdentitiesStep | Containers/CodeStreamConsumer/src/CloneDetector.js:177-185 | one step of the reduce adds the current clone's identity exactly when it is new |
| Consolidator.ConsolidatedIdentities | Containers/CodeStreamConsumer/src/CloneDetector.js:177-188 | the identities of the result are the identities of the input de-duplicated, in first-occurrence order |
| Consolidator.ConsolidatedKeys | Containers/CodeStreamConsumer/src/CloneDetector.js:177-188 | no identity occurs twice in the result, and the result has exactly the input's identities |
| Consolidator.ConsolidatedDistinct | Containers/CodeStreamConsumer/src/CloneDetector.js:177-188 | the result is no longer than the input; no two clones of it are `equals`; every input clone `equals` some result clone, and every result clone `equals` some input clone |
| Consolidator.ConsolidatedOfDistinct | Containers/CodeStreamConsumer/src/CloneDetector.js:177-188 | input clones with pairwise different identities come back unchanged |
| Consolidator.ConsolidatedIdempotent | Containers/CodeStreamConsumer/src/CloneDetector.js:177-188 | consolidating again changes nothing |
| Consolidator.RepresentsKept | Containers/CodeStreamConsumer/src/CloneDetector.js:179-183 | a representative stays one when a clone of another identity is processed |
| Consolidator.RepresentsAbsorbs | Containers/CodeStreamConsumer/src/CloneDetector.js:179-180 | a representative that gains the first target of a later clone of its identity stays a representative |
| Consolidator.RepresentsNew | Containers/CodeStreamConsumer/src/CloneDetector.js:181-182 | a clone of a new identity represents that identity |
| Consolidator.AppendRepresents | Containers/CodeStreamConsumer/src/CloneDetector.js:181-182 | after pushing a clone of a new identity, every accumulated clone is still a representative |
| Consolidator.AbsorbRepresents | Containers/CodeStreamConsumer/src/CloneDetector.js:179-180 | after adding a target to the equal clone found, every accumulated clone is still a representative |
| Consolidator.ConsolidatedRepresentatives | Containers/CodeStreamConsumer/src/CloneDetector.js:173-189 | each result clone is the first input clone of its identity, carrying that clone's targets followed by the first target of every later input clone of that identity, in order |
| Consolidator.GatheredKeepsFirstTargets | Containers/CodeStreamConsumer/src/CloneDetector.js:180 | the targets gathered for an identity include the first target of every input clone with that identity |
| Consolidator.ConsolidatedAsWritten | Containers/CodeStreamConsumer/src/CloneDetector.js:177-185 | the reduce with `addTarget` as written; stated by `Consolidator.ConsolidatedAsWrittenKeepsInputs` and `Consolidator.AsWrittenLosesTarget` |
| Consolidator.ConsolidatedAsWrittenKeepsInputs | Containers/CodeStreamConsumer/src/CloneDetector.js:177-185 | with `addTarget` as written, every clone left is an input clone, unchanged |
| Consolidator.AsWrittenLosesTarget | Containers/CodeStreamConsumer/src/Clone.js:22-26 | two matches of one chunk in two stored files: as written, one clone with one target is left; as intended, one clone with both targets |
| Consolidator.ConsolidatedChunkSizes | Containers/CodeStreamConsumer/src/CloneDetector.js:177-188 | consolidation keeps every source chunk's length |
| Consolidator.ConsolidatedValid | Containers/CodeStreamConsumer/src/CloneDetector.js:177-188 | consolidating valid clones of one file gives valid clones of that file |
| Consolidator.ConsolidatedSnoc | Containers/CodeStreamConsumer/src/CloneDetector.js:177-185 | consolidating one more input is one more step of the reduce |
| Expander.FirstNext | Containers/CodeStreamConsumer/src/CloneDetector.js:148-150 | `some` stops at the first accumulated clone that the current one is next to, or none is next to it |
| Expander.Expanded | Containers/CodeStreamConsumer/src/CloneDetector.js:144-159 | the expansion is never longer than its input, is non-empty for a non-empty input, and every clone in it has lines |
| Expander.ExpandStep | Containers/CodeStreamConsumer/src/CloneDetector.js:147-155 | one step of the reduce; stated by `Expander.ExpandStepCases` and `Expander.StepElements` |
| Expander.ExpandStepCases | Containers/CodeStreamConsumer/src/CloneDetector.js:147-155 | each clone is either appended, when no accumulated clone takes it, or absorbed by the first accumulated clone it is next to, with every other accumulated clone unchanged |
| Expander.StepElements | Containers/CodeStreamConsumer/src/CloneDetector.js:147-155 | after one step each accumulated clone is unchanged or expanded with the current one, and the current one is appended only at the end |
| Expander.OriginsStep | Containers/CodeStreamConsumer/src/CloneDetector.js:147-155 | one step keeps every accumulated clone's name, start and targets those of some input clone |
| Expander.CoversStep | Containers/CodeStreamConsumer/src/CloneDetector.js:147-155 | one step keeps every input line inside some accumulated clone |
| Expander.ExpandedOrigins | Containers/CodeStreamConsumer/src/CloneDetector.js:144-159 | every expanded clone has the name, start and targets of some input clone |
| Expander.ExpandedCovers | Containers/CodeStreamConsumer/src/CloneDetector.js:144-159 | every line of every input clone is in some expanded clone |
| Expander.ExpandedValid | Containers/CodeStreamConsumer/src/CloneDetector.js:144-159 | expanding valid clones gives valid clones |
| Expander.WindowExtends | Containers/CodeStreamConsumer/src/Clone.js:30-38 | a clone ending at line `q - 1` of increasing lines is next to the window ending at line `q`, and taking it makes the clone end at line `q` |
| Expander.WindowsExpandable | Containers/CodeStreamConsumer/src/CloneDetector.js:147-155 | a run of consecutive windows of at least two lines can be folded |
| Expander.RunBase | Containers/CodeStreamConsumer/src/CloneDetector.js:151-153 | the first window is appended to the empty accumulator as it is |
| Expander.RunStep | Containers/CodeStreamConsumer/src/CloneDetector.js:148-150 | a single clone spanning the lines up to the next window's next-to-last line absorbs that window and then spans up to its last line |
| Expander.RunNext | Containers/CodeStreamConsumer/src/CloneDetector.js:147-155 | folding one more consecutive window lengthens the single spanning clone by one line |
| Expander.RunUpTo | Containers/CodeStreamConsumer/src/CloneDetector.js:147-155 | after the first `i` consecutive windows, the accumulator is one clone over the first `i + k - 1` lines |
| Expander.ExpandedRun | Containers/CodeStreamConsumer/src/CloneDetector.js:144-159 | a run of consecutive windows expands to exactly one clone spanning all their lines |
| Expander.OfferNext | Containers/CodeStreamConsumer/src/CloneDetector.js:148-150 | offering the current clone to one more accumulated clone keeps the `some` invariant |
| Expander.OfferDone | Containers/CodeStreamConsumer/src/CloneDetector.js:148-153 | when `some` succeeds, the accumulator is one step of the fold; when it fails, the fold appends the current clone |
| Expander.ExpandedUpTo | Containers/CodeStreamConsumer/src/CloneDetector.js:147-155 | the fold of a prefix is empty exactly for the empty prefix, and all its clones have lines |
| Expander.ExpandedSnoc | Containers/CodeStreamConsumer/src/CloneDetector.js:147-155 | folding one more input is one more step of the reduce |
| Expander.ExpandedAll | Containers/CodeStreamConsumer/src/CloneDetector.js:147-155 | the fold of the whole input is the expansion |
| Detector.Rejection.Message | Containers/CodeStreamConsumer/src/CloneDetector.js:196-198 | each rejection text starts with the file's name and says more |
| Detector.Admission | Containers/CodeStreamConsumer/src/CloneDetector.js:193-203 | a file passes exactly when its name ends in `.java` and is not processed; it is rejected as not Java exactly when the extension is missing, and as already processed exactly when a `.java` name is processed |
| Detector.ResubmissionRejected | Containers/CodeStreamConsumer/src/CloneDetector.js:193-203 | once an admitted file's name is recorded, the same name is rejected as already processed |
| Detector.NameSetExact | Containers/CodeStreamConsumer/src/CloneDetector.js:197 | a name is processed exactly when some stored file has it |
| Detector.NameSetSize | Containers/CodeStreamConsumer/src/CloneDetector.js:255-257 | with distinct names, there are as many processed names as stored files |
| Detector.CandidatesHaveTargets | Containers/CodeStreamConsumer/src/CloneDetector.js:211-237 | the candidates appended to clones that all have targets all have targets |
| Detector.FileStore.StoreFile | Containers/CodeStreamConsumer/src/CloneDetector.js:248 | the file is stored after the others and its name is recorded; a new name keeps the store consistent |
| Detector.CloneStore.StoreClones | Containers/CodeStreamConsumer/src/index.js:295 | the file's clones are added after those stored before |
| Detector.SourceFile.constructor | Containers/CodeStreamConsumer/src/index.js:278 | the file object has the name and the contents and has no lines, chunks or clones yet |
| Detector.CloneDetector.Preprocess | Containers/CodeStreamConsumer/src/CloneDetector.js:193-203 | the verdict is `Admission` against the processed names, and nothing changes |
| Detector.CloneDetector.Transform | Containers/CodeStreamConsumer/src/CloneDetector.js:205-209 | the lines become the filtered contents, the chunks the chunks of those lines, and the clones are untouched |
| Detector.CloneDetector.MatchingClones | Containers/CodeStreamConsumer/src/CloneDetector.js:97-120 | the new clones for one chunk have exactly the records `ClonesOf` gives, and are fresh, distinct objects |
| Detector.CloneDetector.MatchAt | Containers/CodeStreamConsumer/src/CloneDetector.js:105-116 | comparing with one more stored chunk adds at most one fresh clone and keeps the earlier ones |
| Detector.CloneDetector.CandidateClones | Containers/CodeStreamConsumer/src/CloneDetector.js:96-121 | the new clones against one stored file have exactly the records `CandidatesFor` gives, and are fresh and distinct |
| Detector.CloneDetector.FilterCloneCandidates | Containers/CodeStreamConsumer/src/CloneDetector.js:95-128 | the earlier clones are kept as a prefix, the candidates are appended after them as fresh objects, and lines and chunks are unchanged |
| Detector.CloneDetector.CollectCandidates | Containers/CodeStreamConsumer/src/CloneDetector.js:213-236 | after the loop over the stored files, the clones are the earlier ones followed by all candidates, file by file |
| Detector.CloneDetector.MatchDetect | Containers/CodeStreamConsumer/src/CloneDetector.js:211-239 | the clones become the consolidation of the earlier clones followed by all candidates; each is one of the earlier objects or a fresh one |
| Detector.CloneDetector.FindClone | Containers/CodeStreamConsumer/src/CloneDetector.js:178 | the search returns `FindEqual` on the accumulated records |
| Detector.CloneDetector.AddTargetAt | Containers/CodeStreamConsumer/src/CloneDetector.js:180 | only the `j`-th accumulated clone gains the target; other clones keep their records |
| Detector.CloneDetector.ConsolidateOne | Containers/CodeStreamConsumer/src/CloneDetector.js:177-185 | one reduce step is `ConsolidateStep` on the records: the accumulator either stays the same objects or gains the current clone at the end |
| Detector.CloneDetector.ConsolidateAt | Containers/CodeStreamConsumer/src/CloneDetector.js:177-185 | after step `i`, the accumulator's records are the consolidation of the first `i + 1` inputs |
| Detector.CloneDetector.UniqueClones | Containers/CodeStreamConsumer/src/CloneDetector.js:177-185 | the reduce yields distinct clone objects, taken from the input, whose records are the consolidation of the input records |
| Detector.CloneDetector.ConsolidateClones | Containers/CodeStreamConsumer/src/CloneDetector.js:173-189 | the file's clones become the consolidation of their old records, as objects taken from the old clones, with lines and chunks unchanged |
| Detector.CloneDetector.ExpandAt | Containers/CodeStreamConsumer/src/CloneDetector.js:148-150 | offering the current clone to accumulated clone `j` keeps the `some` invariant and touches no other clone |
| Detector.CloneDetector.OfferClone | Containers/CodeStreamConsumer/src/CloneDetector.js:148-150 | on success the accumulator's records are one step of the fold; on failure they are unchanged and the fold would append the current clone |
| Detector.CloneDetector.ExpandOne | Containers/CodeStreamConsumer/src/CloneDetector.js:147-155 | one reduce step is `ExpandStep` on the records: the accumulator either stays the same objects or gains the current clone at the end |
| Detector.CloneDetector.ExpandNext | Containers/CodeStreamConsumer/src/CloneDetector.js:147-155 | one reduce step carries the fold invariant from `i` to `i + 1` |
| Detector.CloneDetector.ExpandedClones | Containers/CodeStreamConsumer/src/CloneDetector.js:147-155 | the reduce yields distinct clone objects, taken from the input, whose records are the expansion of the input records |
| Detector.CloneDetector.ExpandClones | Containers/CodeStreamConsumer/src/CloneDetector.js:251-253 | the file's clones become the expansion of their old records, with lines and chunks unchanged |
| Detector.CloneDetector.PruneFile | Containers/CodeStreamConsumer/src/CloneDetector.js:241-245 | lines and clones are dropped and the chunks are kept |
| Detector.CloneDetector.StoreFile | Containers/CodeStreamConsumer/src/CloneDetector.js:247-250 | the pruned file is stored under its name with its chunks, after the files stored before |
| Detector.CloneDetector.NumberOfProcessedFiles | Containers/CodeStreamConsumer/src/CloneDetector.js:255-257 | in a consistent store, the count is the number of processed names |
| Pipeline.StepsApply | Containers/CodeStreamConsumer/src/index.js:286-292 | the chunks of any lines can be matched against any stored files, and their consolidated candidates can be expanded and are valid clones of the file |
| Pipeline.Reported | Containers/CodeStreamConsumer/src/index.js:286-292 | every clone reported for a file is valid and carries the file's name |
| Pipeline.ReportedFromNothing | Containers/CodeStreamConsumer/src/index.js:286-292 | starting from no clones, matchDetect followed by expandClones yields `Reported` |
| Pipeline.ShortFileNoClones | Containers/CodeStreamConsumer/src/index.js:286-292 | a file with fewer content lines than a chunk has gets no clones, whatever files are stored |
| Pipeline.Detect | Containers/CodeStreamConsumer/src/index.js:286-292 | transform, matchDetect and expandClones leave the chunks of the filtered contents and exactly the `Reported` clones |
| Pipeline.Admit | Containers/CodeStreamConsumer/src/index.js:286-299 | for an admitted file, the file store gains the file, with the chunks of its filtered contents, and its new name, and stays consistent; the clone store gains exactly the `Reported` clones after the earlier ones |
| Pipeline.ProcessFile | Containers/CodeStreamConsumer/src/index.js:275-310 | the outcome is the admission verdict; a rejected file changes no store; an admitted file adds its reported clones to the clone store and its name and chunks to the file store, which stays consistent |
| ClonesAsWritten.RawClone.ExpandedWith | Containers/CodeStreamConsumer/src/Clone.js:37-38 | with the arguments as written, expanding keeps the name slot (the window), the missing start and the targets, and the chunk slot stays non-empty |
| ClonesAsWritten.NewCloneAsWritten | Containers/CodeStreamConsumer/src/CloneDetector.js:109-114 | with the arguments as written, the window is in the name field, the file name in the chunk field, start and end are `undefined`, and the one target, present when the stored file's name is not empty, names the stored window with an `undefined` line |
| ClonesAsWritten.RawAllCandidatesShape | Containers/CodeStreamConsumer/src/CloneDetector.js:96-121 | as written, there is one candidate for each intended candidate, each with the file name as its chunk, no start line and one target |
| ClonesAsWritten.RawConsolidatedShaped | Containers/CodeStreamConsumer/src/CloneDetector.js:177-185 | consolidation as written keeps that shape and keeps the first candidate first |
| ClonesAsWritten.RawExpandedCollapses | Containers/CodeStreamConsumer/src/CloneDetector.js:147-155 | as written, `isNext` always holds, so expansion folds every clone into the first: one clone with the first clone's window, start and targets, and no end line once it absorbed another |
| ClonesAsWritten.ReportedAsWrittenAtMostOne | Containers/CodeStreamConsumer/src/index.js:286-292 | as written, a file gets at most one clone, exactly when the intended model has a candidate, and that clone has no start line |
| ClonesAsWritten.DistantWindowsIntended | Containers/CodeStreamConsumer/src/CloneDetector.js:144-189 | two distant windows of `A.java` equal to one window of `B.java`: the intended steps report two clones, at lines 1 and 7 |
| ClonesAsWritten.AsWrittenMergesDistantWindows | Containers/CodeStreamConsumer/src/CloneDetector.js:109-114 | the same example as written: two candidates, but one clone reported, with no start line |

## Left out

- I/O is not modelled. Left out are the upload handling, the HTML pages, the console
  statistics, the timers (index.js, Timer.js), the MonitorTool and treegen scripts, and
  the promise chaining; the pipeline's steps follow one another as plain calls.
- Concurrency, for example two uploads racing between `preprocess` and `storeFile`, is not
  modelled.
- FileStorage.js and CloneStorage.js are not part of this model. The file store is a set
  of processed names and a sequence of stored files, each with its name and chunks (its
  contents are not kept). `numberOfFiles` is taken to be the number of stored files.
  The clone store is the sequence of reported clones.
- SourceLine.js is not part of this model. A line is its number and its content,
  `hasContent` means the trimmed content is non-empty, and `equals` compares contents.
- `CHUNKSIZE` from the environment (CloneDetector.js:14) is not modelled. When set, it
  is a string, and `i + chunkSize` would concatenate. The chunk size is the default, 5.
- Text is a sequence of characters. UTF-16 code units, surrogate pairs and other
  encoding effects are not modelled.
- The sort and merge loop in `matchDetect` (CloneDetector.js:218-234) is left out as a
  no-op. `endLine`, `equalsExceptEndLine` and `mergeWith` do not exist on `Clone`, so
  the comparator gives `NaN`, which the stable sort treats as "equal", and
  `undefined > 0` is false, so the body never runs.
- Matcher.ChunkMatch: when the first chunk is longer than the second, the source reads
  `second[idx]` past its end and passes `undefined` to `SourceLine.equals`, whose
  behaviour there SourceLine.js (not part of this model) decides. The model treats such a
  position as a mismatch, so the verdict is false, as the length test already makes it.
  All chunks have the same length, so this case does not arise in the pipeline.
- The `Set` in `maybeExpandWith` compares `SourceLine` objects by reference. The model
  compares lines by value (number and content). Both chunks are windows of the same
  file's lines, where each line number belongs to one object, so the two comparisons
  agree.
- Expander.Expanded requires that every clone after the first has at least two lines,
  because `isNext` reads the next-to-last line of the other clone and would throw on a
  one-line chunk. The pipeline's chunks have five lines, so this always holds there.
- Clones.NewClone requires non-empty chunks, because the constructor reads the first
  and last line of the source chunk and the first line of the target chunk. An empty
  array passes the `if (targetChunk)` guard, so it does not prevent the crash.
- ClonesAsWritten.RawConsolidated drops a clone that equals an earlier one without
  reading its first target. The source passes `targets[0]` to `addTarget`, which throws
  when that clone has no target. That only happens for a stored file with an empty name,
  and ClonesAsWritten.RawReported requires every stored name to be non-empty, as the
  admission check makes it (every stored name ends in `.java`).
- ClonesAsWritten.RawClone.ExpandedWith keeps the `[...new Set(...)]` of the two names'
  characters. No lemma states what that string is, because nothing reads it afterwards.
- `delete file.lines` and `delete file.instances` (CloneDetector.js:241-245) are
  modelled as setting both to the empty list. Reading a deleted `instances` through
  `file.instances || []` gives the same.
- `Clone` objects in the clone store are kept as their records, not as shared objects.

## Findings

| source | as written | input that shows it | evidently intended | confidence | as-written member | corrected member |
|---|---|---|---|---|---|---|
| Containers/CodeStreamConsumer/src/CloneDetector.js:180 with Containers/CodeStreamConsumer/src/Clone.js:22-26 | the reduce passes `currentClone.targets[0]`, a `{ name, startLine }` object, to `addTarget`; that object has no `sourceChunk`, so nothing is appended and later matches of an already seen chunk lose their targets | the same one-line chunk of `A.java` found in `B.java` and in `C.java`: consolidation leaves one clone whose only target is `B.java` | the one clone keeps both targets, `B.java` and `C.java` at line 1, as the comment at CloneDetector.js:161-171 describes | not executed | Consolidator.AsWrittenLosesTarget | Consolidator.ConsolidatedRepresentatives |
| Containers/CodeStreamConsumer/src/CloneDetector.js:109-114 with Containers/CodeStreamConsumer/src/Clone.js:3-14 | `new Clone(chunk, matchingChunk, file.name, compareFile.name)` does not fit the parameters `(sourceName, targetName, sourceChunk, targetChunk)`: the window becomes the name, the file name becomes the chunk, start and end are `undefined`, and `isNext` compares `undefined` with `undefined`, so expansion folds every clone of the file into the first | `A.java` with windows at lines 1-2 and 7-8 that both equal one window of `B.java`: one clone is reported, with no line numbers | one clone per window with the file's name, its first and last line and the stored file as target, so that the two windows give two clones at lines 1 and 7 | not executed | ClonesAsWritten.AsWrittenMergesDistantWindows | ClonesAsWritten.DistantWindowsIntended |
