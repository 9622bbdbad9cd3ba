# Verification of siso's build-file, upload and file-tree cores

This project models the parts of siso whose correctness no finite test settles, and proves
what they are for. Each Go file that changes things step by step is modelled by classes and
methods with loops; each method is proved against a specification function, or against the
property itself, and the lemmas are about those specifications. Protocols between
goroutines are state machines over all interleavings.

| file | component |
|---|---|
| `DepsFormat.dfy`, `DepsBytes.dfy`, `DepsLogSpec.dfy`, `DepsLog.dfy`, `DepsCounters.dfy` | the binary deps log: byte format, recording, querying, compaction (`toolsupport/ninjautil/deps_log.go`) |
| `Lexer.dfy`, `ChunkParser.dfy`, `ManifestLines.dfy`, `FileParser.dfy` | cutting a manifest into chunks, parsing them apart, what each line is read as, building the graph concurrently into counted arenas |
| `NodeMap.dfy`, `NodeMapProgress.dfy` | the lock-free node map under every interleaving |
| `Eval.dfy`, `EvalGrammar.dfy`, `Bindings.dfy` | the meaning of `$` references, and lazy evaluation over an unordered sharded list of bindings |
| `CasUpload.dfy`, `CasOutcome.dfy`, `CasBatch.dfy`, `ProtoWire.dfy` | concurrent uploads to a content-addressed store, and how blobs are batched |
| `MerkleTree.dfy`, `MerkleNames.dfy` | building a Merkle tree from entries in any order, and traversing it |
| `HashFs.dfy`, `LinkPaths.dfy`, `StoreWay.dfy` | storing and looking up entries by path through symlinks |
| `EditDistance.dfy` | the one-row edit distance with a cutoff |
| `ShellSplit.dfy`, `ShellGrammar.dfy` | quoting arguments for a shell and splitting a command line |
| `BuildParser.dfy`, `BuildGrammar.dfy`, `EdgePrint.dfy` | parsing a build statement, and printing one so that it parses back |
| `GoInts.dfy`, `Slices.dfy`, `Wrappers.dfy` | Go's sized integers, occurrences of a slice, and `Option` and `Result` |

`dafny verify dfyconfig.toml` checks everything.

Conventions: a Go byte slice is a `string` in the text parsers (one `char` a byte) and a
sequence of integers below 256 in the deps log; machine integers are unbounded except where
the deps log, whose format depends on their width, truncates and sign-extends them
explicitly. Digests and directory hashes are injective; the hash of the node map and of the
binding shards is an arbitrary function.

## What the proofs found

* A path record of the deps log reads back exactly when the path is not empty and does not
  end in NUL, unless its length is one more than a multiple of four, when the padding strip
  stops short of a last NUL (`DepsFormat.PathRecordRoundTrip`). A deps record crashes the
  reader when it is shorter than twelve bytes, or when its inputs are known and its output
  number is negative, other than -1, or too large for the int32 arithmetic of the table
  (`DepsFormat.CrashedIff`); the writer never leaves one.
* A deps record for an output that no path record introduced loads, and then crashes
  compaction (`DepsLogSpec.UnnamedOutputPanics`). A path that stands twice in the file hides
  the entry it had first, and compaction brings that entry back
  (`DepsLogSpec.CompactionPreservesGet`, `DepsLogSpec.HiddenComesBack`).
* Whether a deps log is rewritten depends on a count of its outputs that misses each output
  smaller than one before it, so a log can be rewritten early (`DepsCounters.CountersAre`,
  `DepsCounters.CountedIff`, `DepsCounters.LowerIsMissed`).
* A manifest whose last line is a build statement ending in a lone `$`, without a newline,
  makes the path scanner slice past its end, whenever the scan comes there
  (`BuildParser.OverrunsIff`, `BuildParser.OpenDollarOverruns`).
* A manifest that ends in a comment without a newline keeps `parseChunk` on the same byte
  for ever, and one that ends in a bare keyword is indexed past its end; these are the only
  such files, if the parser comes to that line at all (`ChunkParser.StuckIff`).
* `UploadAll` can return nil although a blob is missing: the error of a streamed upload is
  dropped at reapi/cas.go:373-376 (`CasUpload.DroppedStreamError`). Nothing else can be
  missing then (`CasUpload.NilMeansStored`).
* The entries of blobs that a failing call had not finished stay in the map of known digests
  for ever, closed; after any other failure the blob is forgotten and can be tried again
  (`CasOutcome.AfterReturn`).
* The white space behind a folded line of a value is dropped only when two more bytes follow
  it: in front of a last byte it stays, against the comment at
  toolsupport/ninjautil/eval.go:120 (`EvalGrammar.FoldedSpaces`).
* `parseEvalString` accepts an escaped tab that `evaluateAppend` then rejects; and it trims
  the newline off a `$`-newline at the end, which leaves a `$` that `evaluateAppend` rejects
  too. Nothing else is accepted and rejected, as long as the values referred to expand
  (`Eval.ParsedTextExpands`).
* A rune of several bytes that `Split` has written to its buffer leaves all its bytes but the
  first behind; a quote or backslash directly after it writes them once more, so that the
  line `eé''` gives an argument with a stray byte at its end (`ShellGrammar.StrayByte`). The
  exact condition is `ShellGrammar.CleanIff`.
* Splitting what `shellEscape` quoted loses empty arguments and mangles every argument
  with a backslash; the exact condition is `ShellSplit.SplitInvertsEscape`.
* `Edge.Print` ends the last input with a bare newline also when validations follow. They
  then stand on an indented line of their own: an error, or a binding of the statement when
  one of them holds a `=` (`EdgePrint.ValidationsCutOff`). They survive only if the edge has
  no inputs, or if its last input ends in `$`, which escapes that newline. An edge with
  neither inputs nor validations, or whose last path ends in `$`, swallows the next line, and
  a lone implicit output is printed as an explicit one. The exact condition is
  `EdgePrint.PrintThenParse`.
* A store through a symlink can replace the symlink it went through, and the path then
  leads elsewhere (`HashFs.StoreCutsItsWay`); a stored file is then never found
  (`HashFs.FileFoundIff`).

## Model

| member | source | states |
|---|---|---|
| GoInts.Int32RoundTrip | toolsupport/ninjautil/deps_log.go:95-102 | four little-endian bytes read back as the value truncated to int32 |
| GoInts.Int32sRoundTrip | toolsupport/ninjautil/deps_log.go:104-131 | a list of int32 values written one after another reads back as itself |
| DepsFormat.MtimeRoundTrip | toolsupport/ninjautil/deps_log.go:104-131 | every int64 time survives the split into two 32-bit halves |
| DepsFormat.HeaderRoundTrip | toolsupport/ninjautil/deps_log.go:58-64 | the two's-complement flag and the size of a header of either kind read back, for every size up to the limit |
| DepsFormat.PathRecordRoundTrip | toolsupport/ninjautil/deps_log.go:133-160 | a path record reads back as its path iff the path is one the padding can hold |
| DepsFormat.DepsRecordRoundTrip | toolsupport/ninjautil/deps_log.go:104-131 | a deps record reads back as its output, its time and the recorded input paths |
| DepsFormat.ReadStepApplies | toolsupport/ninjautil/deps_log.go:201-253 | one turn of the read loop over an emitted record has the effect of the record iff its path is readable; otherwise it stops or reads another path |
| DepsFormat.FileRoundTrip | toolsupport/ninjautil/deps_log.go:164-266 | a file of any well-numbered records decodes to the log they describe iff all recorded paths are readable |
| DepsFormat.RecordedPathsReadable | toolsupport/ninjautil/deps_log.go:428-494 | that condition on the records is a condition on the paths in memory |
| DepsFormat.WholeRecordsLongest | toolsupport/ninjautil/deps_log.go:201-258 | the whole-record prefix of a cut file is the longest one |
| DepsFormat.CrashPrefix | toolsupport/ninjautil/deps_log.go:164-258 | a file cut at any byte decodes to the longest whole-record prefix and is marked broken iff the cut is inside a record; a cut in the first 16 bytes starts a new log |
| DepsFormat.CrashedIff | toolsupport/ninjautil/deps_log.go:201-253 | a file stops the process iff the read loop comes to a whole deps record that is shorter than twelve bytes, or that names, while all its inputs are known, an output other than -1 which is negative or to which the int32 arithmetic of the table cannot grow |
| DepsFormat.WriterNeverCrashesReader | toolsupport/ninjautil/deps_log.go:164-258 | no file the writer leaves, cut at any byte, stops the process, unreadable paths included |
| DepsFormat.ShortRecordCrashes | toolsupport/ninjautil/deps_log.go:104-131 | a log that holds one deps record of fewer than twelve bytes stops the process |
| DepsFormat.NegativeOutputCrashes | toolsupport/ninjautil/deps_log.go:230-243 | so does one whose deps record has a negative output other than -1 |
| DepsFormat.HugeOutputCrashes | toolsupport/ninjautil/deps_log.go:361-377 | and one whose output is among the last hundred int32 values |
| DepsBytes.FileHeaderBytes | toolsupport/ninjautil/deps_log.go:507-526 | a file starts with the bytes of the signature and of version 4 |
| DepsBytes.StartsAnewIff | toolsupport/ninjautil/deps_log.go:182-193 | a log starts anew iff its file does not hold these sixteen bytes |
| DepsBytes.PathRecordBytes | toolsupport/ninjautil/deps_log.go:528-548 | the bytes of a path record: its size, the path, fewer than four zeros, and a last number that adds up with the path's index to 2^32 - 1 |
| DepsBytes.DepsRecordBytes | toolsupport/ninjautil/deps_log.go:550-575 | the bytes of a deps record: its size with the highest bit set, the output, the time as 64 bits with the lowest byte first, and the inputs |
| DepsBytes.NotWhole | toolsupport/ninjautil/deps_log.go:201-223 | in any file, where no whole record lies the loop is at the end, or the file is broken |
| DepsBytes.DepsRecordRead | toolsupport/ninjautil/deps_log.go:104-131 | in any file, what each whole deps record does, from its bytes: crash, be skipped, or be the only change to the table, with the paths its words name and the time its bytes are |
| DepsBytes.PathRecordRead | toolsupport/ninjautil/deps_log.go:133-160 | in any file, each whole path record is the next path, without the zeros among its last three bytes, iff its last number fits; else the file is broken |
| DepsLogSpec.RecordedGet | toolsupport/ninjautil/deps_log.go:382-494 | after recording, the output answers with exactly the inputs and time recorded, and no other answer changes, errors included |
| DepsLogSpec.RecordedPaths | toolsupport/ninjautil/deps_log.go:428-505 | recording only appends paths, and adds no key but the output and the inputs |
| DepsLogSpec.NewRecsFit | toolsupport/ninjautil/deps_log.go:428-575 | which records one call writes, and when all of them fit the record size |
| DepsLogSpec.NothingWrittenIff | toolsupport/ninjautil/deps_log.go:428-494 | a call writes nothing iff the log answers with just that already and knows all inputs; the same call a second time writes nothing |
| DepsLogSpec.CompactedGet | toolsupport/ninjautil/deps_log.go:284-347 | re-recording the first n entries gives a log that answers with the last live entry of each path among them, and for no other path |
| DepsLogSpec.CompactionPreservesGet | toolsupport/ninjautil/deps_log.go:284-347 | compaction of any loaded log preserves every answer of Get and keeps an error an error iff no earlier entry of the path hides under a later dead one, stale index keys included; in a log with distinct paths none hides |
| DepsLogSpec.HiddenComesBack | toolsupport/ninjautil/deps_log.go:284-347 | a log with a repeated path in which an entry hides, and answers after compaction |
| DepsLogSpec.OneRecordPerLiveOutput | toolsupport/ninjautil/deps_log.go:284-347 | when paths are distinct, the deps records of the compacted file name each live output exactly once, in order |
| DepsLogSpec.LoadedIsView | toolsupport/ninjautil/deps_log.go:201-266 | whatever file is loaded, its entries name only loaded paths and each path is found where it stands last |
| DepsLogSpec.HistoryInputs | toolsupport/ninjautil/deps_log.go:428-494 | the same of every history the writer keeps |
| DepsLogSpec.PrefixInOrder | toolsupport/ninjautil/deps_log.go:428-505 | a history whose index is in order at the end is so after each of its records |
| DepsLogSpec.CompactionFits | toolsupport/ninjautil/deps_log.go:284-320 | re-recording entries that were written once meets no record too large |
| DepsLogSpec.CompactionPanicsIff | toolsupport/ninjautil/deps_log.go:308-320 | below the overflow of output numbers, compaction stops the process iff some live entry has no path |
| DepsLogSpec.UnnamedOutputPanics | toolsupport/ninjautil/deps_log.go:224-243 | a file that loads and whose compaction stops the process |
| DepsLogs.DepsLog.constructor | toolsupport/ninjautil/deps_log.go:507-526 | a new file and an empty log agree |
| DepsLogs.DepsLog.Update | toolsupport/ninjautil/deps_log.go:361-377 | in int32 arithmetic, when it panics; otherwise the slice after an update, the meaning of the answer ("within length"), and what the read view that shares the backing array sees |
| DepsLogs.DepsLog.Load | toolsupport/ninjautil/deps_log.go:164-266 | loading any file crashes or leaves the state its bytes decode to, a read view fit for compaction and the right compaction flag; a file written by this log comes back with its history |
| DepsLogs.DepsLog.ReadRecords | toolsupport/ninjautil/deps_log.go:201-253 | the loop over any bytes computes the specified reader, counters and broken flag |
| DepsLogs.DepsLog.Store | toolsupport/ninjautil/deps_log.go:224-251 | the effect of one parsed record on paths, index, deps and counters, or the panic of its update |
| DepsLogs.DepsLog.ReadNext | toolsupport/ninjautil/deps_log.go:201-253 | parsing of one record at any offset of any file |
| DepsLogs.DepsLog.UniquePathIdx | toolsupport/ninjautil/deps_log.go:496-505 | an index that maps to the path, new iff the path was not known |
| DepsLogs.DepsLog.RecordPath | toolsupport/ninjautil/deps_log.go:528-548 | appends exactly the path record, or nothing when it is too large |
| DepsLogs.DepsLog.RecordDeps | toolsupport/ninjautil/deps_log.go:550-575 | appends exactly the deps record, or nothing when it is too large |
| DepsLogs.DepsLog.Record | toolsupport/ninjautil/deps_log.go:428-494 | succeeds iff all records of the call fit and the table can grow to the output; then the new memory, the records appended (paths before the reference to them) and the answer, and file and memory still agree |
| DepsLogs.DepsLog.InternAndWriteAll | toolsupport/ninjautil/deps_log.go:428-462 | interning the output and the inputs writes one path record for each new one |
| DepsLogs.DepsLog.StoredDiffers | toolsupport/ninjautil/deps_log.go:463-484 | whether the stored entry differs from the one to record |
| DepsLogs.DepsLog.GetDeps | toolsupport/ninjautil/deps_log.go:382-418 | Get answers from the read view, with its three kinds of error |
| DepsLogs.DepsLog.Reset | toolsupport/ninjautil/deps_log.go:269-275 | the recorded state becomes the read view; old index keys stay; of a log that agrees with its file the view is fit for compaction |
| DepsLogs.DepsLog.Recompact | toolsupport/ninjautil/deps_log.go:284-347 | of any loaded log: when it succeeds; then which answers are preserved, and the new file agrees with the memory and can be compacted again, with one deps record per live output if paths were distinct; on failure nothing changes |
| DepsLogs.FileMatchesMemory | toolsupport/ninjautil/deps_log.go:428-575 | after any run of successful calls, the file reads back as the memory iff every path is one the format can hold |
| DepsLogs.InitDepsLog | subcmd/ninja/ninja.go:451-471 | after a crash that cut a written file at any byte, loading and compacting succeeds below the overflow, and the log agrees with its file, can be read again and answers for exactly the records written whole |
| DepsCounters.CountersAre | toolsupport/ninjautil/deps_log.go:201-253 | the counters of a written log are its deps records, and those for an output larger than all before |
| DepsCounters.RewrittenIff | toolsupport/ninjautil/deps_log.go:254-258 | a log is rewritten iff it is broken, has no deps record, or more than a thousand and more than three for each output counted |
| DepsCounters.CountedIff | toolsupport/ninjautil/deps_log.go:236-243 | all outputs are counted iff each is larger than all before it when it comes first |
| DepsCounters.LowerIsMissed | toolsupport/ninjautil/deps_log.go:361-377 | three outputs of which one is counted |
| Lexer.FindNextLine | toolsupport/ninjautil/lexer.go:12-32 | the end of the logical line: past the first newline not escaped from the start of its physical line |
| Lexer.SkipSpacesLoop | toolsupport/ninjautil/lexer.go:104-129 | the first position that is neither white space nor an escaped newline, space or tab |
| ChunkParser.Chunk.ParseChunk | toolsupport/ninjautil/chunk_parser.go:100-267 | the statements, all counters and the first failure of a chunk, stuck and out-of-range outcomes included |
| ChunkParser.NextChunk | toolsupport/ninjautil/chunk_parser.go:72-97 | the next safe boundary, and no earlier one is safe |
| ChunkParser.SplitIntoChunks | toolsupport/ninjautil/chunk_parser.go:49-69 | for every buffer and positive chunk size the chunks tile the buffer at safe boundaries |
| ChunkParser.NextLineStops | toolsupport/ninjautil/lexer.go:12-32 | no logical line reaches over a boundary, from wherever it is scanned |
| ChunkParser.FreshStart | toolsupport/ninjautil/chunk_parser.go:119-140 | at a boundary the parser does not depend on the statement before it |
| ChunkParser.ParseSplits | toolsupport/ninjautil/chunk_parser.go:100-267 | parsing over a boundary is parsing up to it and then from it afresh, failures included |
| ChunkParser.CutInvisible | toolsupport/ninjautil/chunk_parser.go:49-267 | the chunks parsed apart give the sequential statements, summed counters and first failure |
| ChunkParser.AllParse | toolsupport/ninjautil/file_parser.go:114-123 | all chunks parse iff their combination does |
| ChunkParser.StuckIff | toolsupport/ninjautil/chunk_parser.go:100-267 | the parser is stuck or out of range iff it comes to the start of the last physical line and that line is, behind carriage returns, a comment or exactly a keyword |
| ChunkParser.NewlineTerminated | toolsupport/ninjautil/chunk_parser.go:112-120 | so a file whose last physical line is neither is safe, and one that ends with a newline is |
| ChunkParser.UnterminatedStuck | toolsupport/ninjautil/chunk_parser.go:112-120 | without it both happen |
| ManifestLines.LineEndIs | toolsupport/ninjautil/lexer.go:12-32 | a logical line ends at the first newline with neither `$` nor `$` and a carriage return before it, or at the end |
| ManifestLines.StatementsFit | toolsupport/ninjautil/chunk_parser.go:100-267 | every statement is what its text says: one of a keyword kind starts with that word and a blank and goes on behind it; a declaration starts with no such word and a binding is indented, behind a statement it belongs to, each with its first `=`; and they stand one behind another |
| ManifestLines.KeywordLine | toolsupport/ninjautil/chunk_parser.go:158-252 | conversely, each line the parser comes to that starts with a keyword and a blank is a statement of that kind, and nothing else starts there |
| ManifestLines.OtherLine | toolsupport/ninjautil/chunk_parser.go:110-157 | any other line is nothing when it is empty, blank or a comment, and else a binding when it is indented and a declaration when not |
| ManifestLines.OwnerIsLast | toolsupport/ninjautil/chunk_parser.go:124-140 | the statement that an indented line belongs to is the last one before it that is not a binding |
| ManifestLines.FailureBlames | toolsupport/ninjautil/chunk_parser.go:100-267 | a failure stands at a line the parser comes to, whose text is the reason for it |
| ManifestLines.CountersCount | toolsupport/ninjautil/chunk_parser.go:38-267 | every counter is the number of the statements or lines it is named for |
| FileParser.Arena.New | toolsupport/ninjautil/arena.go:19-23 | hands out the next cell of the arena |
| FileParser.Arena.Chunk | toolsupport/ninjautil/arena.go:26-32 | cuts off an arena over the next cells |
| FileParser.Alloc | toolsupport/ninjautil/file_parser.go:126-174 | one reservation of the summed counts, cut into arenas that tile it |
| FileParser.ParsedShape | toolsupport/ninjautil/chunk_parser.go:100-267 | parsed statements come grouped with their bindings; the rule and build counters count them exactly, the counter of rule bindings at least (blank indented lines are counted too) |
| FileParser.NeverExhausted | toolsupport/ninjautil/chunk_parser.go:294-438 | no goroutine runs out of rule, edge or binding cells, or meets a binding on its own |
| FileParser.CountersAreCells | toolsupport/ninjautil/file_parser.go:126-174 | the counters that are summed for a pass are the numbers of cells its chunks take |
| FileParser.AllocPass | toolsupport/ninjautil/file_parser.go:126-174 | so each goroutine of a pass gets an arena over exactly its cells |
| FileParser.TakeCell | toolsupport/ninjautil/arena.go:19-23 | the cell a goroutine takes in a step is the one its arena hands out, and there is one |
| FileParser.RunInv | toolsupport/ninjautil/file_parser.go:177-223 | the invariant of both concurrent passes in every state of every interleaving |
| FileParser.CellsDisjoint | toolsupport/ninjautil/arena.go:19-32 | in every interleaving a cell about to be taken lies in the reservation and is nobody else's |
| FileParser.Finalize | toolsupport/ninjautil/file_parser.go:226-238 | collects the filled cells in order |
| FileParser.EdgesInFileOrder | toolsupport/ninjautil/file_parser.go:204-238 | every finished interleaving yields the build statements of the chunks in order |
| FileParser.GoesOn | toolsupport/ninjautil/file_parser.go:177-223 | while a pass is not done some goroutine has a next step |
| FileParser.RunsEnd | toolsupport/ninjautil/file_parser.go:177-223 | no interleaving takes more than two steps for each statement |
| FileParser.EdgesOfFile | toolsupport/ninjautil/file_parser.go:126-238 | whatever the chunks and the interleaving, the edges are those of the sequentially parsed file, in its order |
| NodeMap.RunInv | toolsupport/ninjautil/nodemap.go:62-87 | the invariant of the compare-and-swap loop in every state of every interleaving |
| NodeMap.SwapStep | toolsupport/ninjautil/nodemap.go:77-84 | a successful swap prepends the new node to its chain and keeps the invariant |
| NodeMap.ChainsSound | toolsupport/ninjautil/nodemap.go:62-87 | each slot heads a finite acyclic chain with distinct keys of that slot |
| NodeMap.SameKeySameNode | toolsupport/ninjautil/nodemap.go:62-87 | calls with equal keys get the same node, whenever they return |
| NodeMap.ReturnedStays | toolsupport/ninjautil/nodemap.go:62-87 | a node once returned stays on the chain of its key |
| NodeMap.FreeCellUnpublished | toolsupport/ninjautil/slab.go:21-37 | no chain ever holds a cell its slab has free, taken back by unnew or not handed out |
| NodeMap.FailedSwapIsProgress | toolsupport/ninjautil/nodemap.go:62-87 | a swap fails only if another goroutine has published its node in that slot since the head was loaded: the map is lock-free |
| NodeMapProgress.OwnStepNearer | toolsupport/ninjautil/nodemap.go:62-87 | each step of a goroutine either returns a node of its key, on the chain of its slot, or lowers a bound on the steps to that |
| NodeMapProgress.AloneReturns | toolsupport/ninjautil/nodemap.go:62-87 | a goroutine that runs alone returns, in a number of steps linear in its chain, wherever it was |
| NodeMapProgress.NoCellLost | toolsupport/ninjautil/slab.go:21-37 | when no call is under way, the cells the slabs have handed out are exactly those on the chains |
| NodeMap.Lookup | toolsupport/ninjautil/nodemap.go:90-100 | finds the node of the key iff some chain holds one |
| NodeMap.Freeze | toolsupport/ninjautil/nodemap.go:103-121 | numbers all nodes from 1, one-to-one, and lists them by number |
| NodeMap.FrozenKeys | toolsupport/ninjautil/nodemap.go:103-121 | after quiescence the numbered nodes are one-to-one with the keys returned, and their number is the map's counter |
| Eval.ParseEvalString | toolsupport/ninjautil/eval.go:36-85 | the text behind leading spaces, escaped ones included, trimmed of its newline, and the number of its escapes, or a rejection |
| Eval.CountedIffDollar | toolsupport/ninjautil/eval.go:36-108 | the counter is zero iff there is no `$`, which the evaluator's shortcut relies on |
| Eval.NoEscapeIsLiteral | toolsupport/ninjautil/eval.go:93-108 | the shortcut for text without escapes agrees with the loop |
| Eval.ParsedTextExpands | toolsupport/ninjautil/eval.go:36-171 | in every environment whose values expand, what the parser returns expands iff the text does not escape a tab and the trimmed value does not end in an odd run of `$` |
| Eval.AcceptedNotExpanded | toolsupport/ninjautil/eval.go:51-141 | a text of each kind that is accepted and then rejected |
| Eval.ScanToken | toolsupport/ninjautil/eval.go:109-168 | which literal, reference or error stands at an index |
| Eval.EvaluateAppend | toolsupport/ninjautil/eval.go:101-171 | in every environment, cyclic ones included, terminates and appends exactly the expansion, or fails with its error |
| Eval.EvaluateInto | toolsupport/ninjautil/eval.go:89-98 | the expansion at depth zero, in a buffer that is reset only when there is something to expand |
| Eval.SelfReferenceFails | toolsupport/ninjautil/eval.go:156-165 | a variable that refers to itself is an error at every depth |
| EvalGrammar.Reads | toolsupport/ninjautil/eval.go:109-168 | every text is pieces of five kinds, and maybe a rest that starts none |
| EvalGrammar.ValueIsMeaning | toolsupport/ninjautil/eval.go:89-171 | in every environment a value expands to the texts of its pieces in order, a reference standing for the expansion of what the environment answers or for nothing, or to the first error |
| EvalGrammar.PlainIsBraced | toolsupport/ninjautil/eval.go:137-165 | `$name` and `${name}` expand alike between any texts, when no name character follows |
| EvalGrammar.ReferenceIsAnswer | toolsupport/ninjautil/eval.go:156-165 | a reference alone expands to the expansion of the answer, or to nothing |
| EvalGrammar.FoldedSpaces | toolsupport/ninjautil/eval.go:116-136 | the white space behind a folded line goes iff two more bytes follow it |
| EvalGrammar.ParsedIs | toolsupport/ninjautil/eval.go:36-85 | what the parser accepts, how many escapes it counts and which newline it trims, for any text whose rest is no escaped tab |
| Eval.EagerLast | toolsupport/ninjautil/eval.go:156-165 | eager evaluation binds a name to its last declaration, evaluated over the declarations before that one |
| Eval.LazyIsEager | toolsupport/ninjautil/eval.go:89-171 | lazy evaluation at a position gives the text of eager in-order evaluation of all earlier declarations, and succeeds iff that succeeds and references nest at most 256 deep |
| Bindings.ShardBindings.constructor | toolsupport/ninjautil/binding.go:39-48 | the least power-of-two doubling that leaves fewer than eight expected bindings a shard |
| Bindings.ShardBindings.Set | toolsupport/ninjautil/binding.go:87-107 | one more binding, in its shard |
| Bindings.ShardBindings.Get | toolsupport/ninjautil/binding.go:52-84 | the visible binding with the largest position of the whole map, or none, whatever the order of the shard |
| Bindings.LatestIsLast | toolsupport/ninjautil/binding.go:67-84 | bindings set in any order answer like the declarations of the file in order |
| Bindings.ShardedLazyIsEager | toolsupport/ninjautil/eval.go:89-171 | the lazy result over bindings set in any order and sharded in any way is the eager one |
| CasUpload.RunInv | reapi/cas.go:222-332 | the protocol invariant in every state of every interleaving of any number of calls |
| CasUpload.MemoisedIsStored | reapi/cas.go:222-332 | a digest memoised as present and an operation closed without error are really in the store |
| CasUpload.NoDoubleUpload | reapi/cas.go:233-278 | no two calls upload the same digest at once |
| CasUpload.NilMeansStored | reapi/cas.go:222-383 | the blobs that a call which returned nil left missing are those it failed to stream and nobody else stored; so all are stored iff those are |
| CasUpload.DroppedStreamError | reapi/cas.go:373-376 | a run in which a call returns nil and its blob is missing |
| CasUpload.ClosedExactlyOnce | reapi/cas.go:233-323 | each operation has one owner and is closed at most once, exactly once when its owner has returned |
| CasUpload.WaitersOwnNothingOpen | reapi/cas.go:279-323 | a call that waits for others owns no open operation |
| CasUpload.NeverDeadlocks | reapi/cas.go:222-332 | while some call has not returned, some call can go on by itself |
| CasUpload.StepsDecreaseWork | reapi/cas.go:222-332 | every step of a call lowers a measure, so every call returns under any schedule |
| CasOutcome.ErrorIff | reapi/cas.go:222-332 | over every run, a returned call returned an error iff one of its steps was a failed query or send, a lost or refused answer, a cancellation, or a wait for an operation closed with an error or unfinished |
| CasOutcome.UndisturbedStoresAll | reapi/cas.go:222-332 | when nothing goes wrong outside, every returned call returned nil, and its blobs are stored |
| CasOutcome.SendsOnlyMissing | reapi/cas.go:233-311 | a call asks only about blobs new to the map, and sends only what was reported missing to it |
| CasOutcome.AfterReturn | reapi/cas.go:251-266 | when the owner of an operation has returned, its digest is memoised if it was closed without error, and else forgotten, but for the operations the deferred function closed itself |
| CasBatch.VarintMonotone | reapi/cas.go:388-417 | longer numbers never encode shorter |
| CasBatch.EntryMonotone | reapi/cas.go:388-417 | for hashes of one length the request size grows with the blob |
| CasBatch.SortBySize | reapi/cas.go:393-395 | sorted by size, nothing lost |
| CasBatch.SeparateBlobs | reapi/cas.go:388-417 | a split of all blobs; for hashes of one length exactly those whose single request stays below the limit are small |
| CasBatch.CreateBatches | reapi/cas.go:500-527 | order and content kept, no empty batch, every batch greedy, and within the byte and count limits when single blobs are |
| CasBatch.FewestBatches | reapi/cas.go:500-527 | no order-preserving split into fitting batches uses fewer |
| CasBatch.SmallsFit | reapi/cas.go:352-471 | what is separated as small always fits a batch |
| ProtoWire.VarintRoundTrip | reapi/cas.go:388-417 | a varint reads back, whatever follows it, and is as long as it is said to be |
| ProtoWire.RequestLength | reapi/cas.go:500-527 | a request with the contents of its blobs is, in the wire format, as many bytes as the batching counts |
| ProtoWire.BundledFit | reapi/cas.go:500-527 | so every request made of blobs that fit alone holds at most a thousand entries and the limit of bytes |
| Merkle.WalkIsLexical | reapi/merkletree/merkletree.go:133-196 | a name lands at its lexically normalised place, given level by level, and fails iff some prefix of it leaves the root |
| Merkle.MerkleTree.MakeDir | reapi/merkletree/merkletree.go:211-227 | the directory exists and is listed once in its parent |
| Merkle.MerkleTree.Set | reapi/merkletree/merkletree.go:107-197 | the new tree, store and error of one entry, with what is created before an error |
| Merkle.SetAdds | reapi/merkletree/merkletree.go:107-227 | setting an entry adds exactly its directories, its file or symlink and its blob, and keeps the tree in form |
| MerkleNames.SetFailsIff | reapi/merkletree/merkletree.go:107-197 | exactly when setting an entry fails, and how, from its name as one string |
| MerkleNames.FileStands | reapi/merkletree/merkletree.go:164-175 | a file that is set stands in the directory its name leads to, with its digest and mode, and its contents are stored |
| MerkleNames.LinkStands | reapi/merkletree/merkletree.go:151-157 | a symlink stands there with its target |
| MerkleNames.DirStands | reapi/merkletree/merkletree.go:158-163 | a directory stands where its whole name leads |
| Merkle.SetAllHolds | reapi/merkletree/merkletree.go:107-227 | conflict-free entries set in any order leave exactly what they ask for, and their blobs in the store |
| Merkle.SortByName | reapi/merkletree/merkletree.go:368-370 | sorted by name in Go's string order, the same elements |
| MerkleNames.LessIff | reapi/merkletree/merkletree.go:368-370 | the order is that of the first difference of two names |
| Merkle.MerkleTree.CollectFiles | reapi/merkletree/merkletree.go:351-367 | equal duplicates dropped, and a failure iff two files of one name differ |
| Merkle.MerkleTree.CollectLinks | reapi/merkletree/merkletree.go:373-385 | equal duplicates dropped, and a failure iff a symlink's name is taken by something else |
| Merkle.MerkleTree.BuildDirs | reapi/merkletree/merkletree.go:391-423 | every subdirectory no symlink hides is built, and a failure iff one of them cannot be or a file has its name |
| Merkle.MerkleTree.BuildTree | reapi/merkletree/merkletree.go:348-437 | succeeds iff no reached name stands for two things; then the digest of the canonical directory, all of it stored, other parts of the tree untouched |
| Merkle.MerkleTree.Build | reapi/merkletree/merkletree.go:334-340 | the same from the root |
| Merkle.BuiltUnique | reapi/merkletree/merkletree.go:348-437 | trees that hold the same have one canonical directory |
| Merkle.BuiltIsCanonical | reapi/merkletree/merkletree.go:348-437 | every built directory is sorted with unique names at every level |
| Merkle.ConflictFreeBuilds | reapi/merkletree/merkletree.go:107-437 | conflict-free entries always build |
| Merkle.DigestIgnoresOrder | reapi/merkletree/merkletree.go:107-437 | neither the order nor the repetition of conflict-free entries shows in the digest |
| Merkle.Traverse | reapi/merkletree/traverse.go:21-66 | the files, symlinks and directories the store can give back, in the source's order |
| Merkle.TraverseRecovers | reapi/merkletree/traverse.go:21-66 | traversing a built tree gives exactly what the tree holds |
| Merkle.BuildThenTraverse | reapi/merkletree/traverse.go:21-66 | after a build every directory and file below the root is in the store, and traversing recovers exactly the entries asked for, at their normalised places |
| HashFs.Redirect | hashfs/fs.go:1826-1850 | the path a symlink leads to is the same whether the elements were collected or are taken apart again |
| LinkPaths.RulesHold | hashfs/fs.go:1842-1848 | an empty element and `.` drop out of a path anywhere, and `..` takes the name before it away |
| LinkPaths.RootIsTop | hashfs/fs.go:1842-1848 | any number of `..` at the root drop out |
| LinkPaths.RulesDecide | hashfs/fs.go:1842-1848 | these rules are enough: a path none of them shortens is a list of names, and stands for itself |
| LinkPaths.LinkRespelled | hashfs/fs.go:1842-1848 | what the rules leave out of a symlink's target does not change where it leads |
| LinkPaths.AbsoluteLink | hashfs/fs.go:1842-1845 | an absolute target starts at the root, whatever the symlink's own place |
| LinkPaths.RelativeLink | hashfs/fs.go:1846-1848 | a relative one starts at the directory of the symlink, each `..` one level higher but not above the root |
| LinkPaths.LeadsToNames | hashfs/fs.go:1842-1848 | a symlink leads to a path of names, or to the root |
| HashFs.Tree.LookupNextDir | hashfs/fs.go:1863-1881 | directory, symlink or failure of one slot |
| HashFs.Tree.NextDir | hashfs/fs.go:1885-1962 | the same, creating a missing slot after what is on the disk |
| HashFs.Tree.LookupEntry | hashfs/fs.go:1661-1689 | one pass lands, restarts at a redirected path, or is stuck |
| HashFs.Tree.Lookup | hashfs/fs.go:1642-1659 | the entry at the slot that at most forty passes resolve to |
| LinkPaths.FoundBehind | hashfs/fs.go:1642-1659 | what lies behind fewer than forty symlinks is found, and behind forty or more it is not |
| HashFs.Tree.StoreEntry | hashfs/fs.go:1725-1816 | one pass with the leaf, creating directories on the way |
| HashFs.Tree.StoreAtLeaf | hashfs/fs.go:1736-1810 | what becomes of a leaf that is free, the same, refreshed, kept or replaced |
| HashFs.Tree.StoreAt | hashfs/fs.go:1693-1711 | at most forty passes, and the error after them |
| HashFs.StoreStepKeeps | hashfs/fs.go:1885-1962 | what a step of store goes through, lookup goes through afterwards, and no slot that led on changes |
| StoreWay.WayMade | hashfs/fs.go:1885-1962 | a pass of store leaves every living entry alone, and makes each missing slot on its way what the disk holds there: a symlink, or an empty new directory with its time or the present |
| StoreWay.PassMakesWay | hashfs/fs.go:1725-1860 | and it ends at the last name, at a file of the tree or the disk, or at a symlink of either, which leads on |
| HashFs.LookupFollowsStore | hashfs/fs.go:1661-1860 | a pass of lookup over the tree a pass of store leaves ends the same way, whether it lands, restarts or is stuck |
| HashFs.ResolveFollowsStore | hashfs/fs.go:1642-1860 | all passes together resolve to the slot store landed on, and to none iff store got stuck or gave up, on any tree, with cycles of any shape |
| HashFs.LeafStays | hashfs/fs.go:1736-1810 | the leaf holds what store returns, and no other slot leads elsewhere |
| HashFs.StoredContent | hashfs/fs.go:1741-1810 | what store returns has the content that was stored, and a known command is not lost |
| HashFs.LeafKeptIff | hashfs/fs.go:1741-1810 | exactly when the entry at the leaf stays |
| HashFs.DirectoryStays | hashfs/fs.go:1778-1782 | a directory stored over one it agrees with leaves every lookup of every path as it was |
| HashFs.LookupAfterStore | hashfs/fs.go:1642-1860 | lookup of the original path finds exactly the entry store returned, unless the landing slot was on the way and now leads elsewhere, and nothing when store failed |
| HashFs.FileFoundIff | hashfs/fs.go:1642-1860 | for a stored file exactly: it is found again iff its slot was not on the way or leads on as before |
| HashFs.StoreCutsItsWay | hashfs/fs.go:1725-1860 | a store after which the path is not found, for want of that condition |
| HashFs.SelfLinkGivesUp | hashfs/fs.go:1642-1711 | an example: on a symlink to itself both give up after any number of passes, and nothing is stored |
| EditDistance.DistanceIsLeastCost | toolsupport/ninjautil/edit_distance.go:7-47 | the recursive distance is the least cost of an edit script between the strings |
| EditDistance.RowMinimumGrows | toolsupport/ninjautil/edit_distance.go:38-42 | a bound below a whole row holds for all later rows |
| EditDistance.Compute | toolsupport/ninjautil/edit_distance.go:7-47 | exact without a cutoff; with one, exact whenever the distance is at most it, and above it otherwise |
| EditDistance.NextRow | toolsupport/ninjautil/edit_distance.go:20-44 | overwriting the row in place gives the next row, and its minimum bounds it from below |
| ShellSplit.NeedShellEscape | toolsupport/ninjautil/shell_escape.go:28-35 | whether some rune is not safe |
| ShellSplit.ShellEscape | toolsupport/ninjautil/shell_escape.go:37-52 | the quoted argument |
| ShellSplit.Split | toolsupport/shutil/split.go:16-114 | the arguments or the error of any line, with the byte offsets of multi-byte runes |
| ShellGrammar.SplitIsMeaning | toolsupport/shutil/split.go:16-114 | what Split returns for any line is the meaning of its words, or the error of what stops it |
| ShellGrammar.EveryLine | toolsupport/shutil/split.go:16-114 | every line is such words and maybe a rest that stops it |
| ShellGrammar.CleanIff | toolsupport/shutil/split.go:29-92 | an argument is the runes of its word iff no quote or backslash stands directly behind a rune of several bytes that is in the buffer |
| ShellGrammar.StrayByte | toolsupport/shutil/split.go:58-92 | a line with such a rune, and the byte that comes twice |
| ShellGrammar.QuotedComeBack | toolsupport/shutil/split.go:16-114 | arguments in double or in single quotes come back, empty ones included; an equals sign in the first is an error |
| ShellGrammar.UnquotedLine | toolsupport/shutil/split.go:16-114 | a line without quotes and backslashes gives its blank-separated fields, or an error iff it holds a metacharacter or its first field an equals sign |
| ShellSplit.QuotedRuns | toolsupport/ninjautil/shell_escape.go:41-50 | a quoted argument without backslashes is read back rune by rune |
| ShellSplit.LineRuns | toolsupport/shutil/split.go:77-112 | a trimmed line of escaped arguments is cut into the non-empty ones |
| ShellSplit.SplitOfEscaped | toolsupport/shutil/split.go:16-114 | escaped arguments without backslashes come back but for the empty ones; an equals sign in the first is an error |
| ShellSplit.SplitWrites | toolsupport/shutil/split.go:78-109 | no split writes more backslashes than the line has neighbouring pairs of them |
| ShellSplit.SplitInvertsEscape | toolsupport/shutil/split.go:16-114 | Split of the joined escaped arguments returns them iff there is one, none has a backslash, the first has no equals sign, and none is empty unless it is alone |
| EdgePrint.EscapeNinjaToken | toolsupport/ninjautil/graph.go:327-340 | the escaped path |
| EdgePrint.Print | toolsupport/ninjautil/graph.go:270-323 | appends the whole build statement |
| BuildParser.PathParser.Path | toolsupport/ninjautil/paths.go:58-90 | of any text: the next path, its escapes and where it ends, empty when there is none; or the panic at a `$` with nothing behind it |
| BuildParser.PathParser.PathList | toolsupport/ninjautil/paths.go:44-55 | all paths up to the next stop, appended and counted, or the panic of one of them |
| BuildParser.PathParser.Ident | toolsupport/ninjautil/paths.go:32-41 | the longest identifier, or none at the end |
| BuildParser.PathParser.Colon | toolsupport/ninjautil/paths.go:93-103 | past a colon, if one is next |
| BuildParser.PathParser.Pipe | toolsupport/ninjautil/paths.go:106-126 | past a single pipe, if one is next |
| BuildParser.PathParser.PipeThen | toolsupport/ninjautil/paths.go:129-152 | past a pipe and its second byte, if they are next |
| BuildParser.ParseBuild | toolsupport/ninjautil/chunk_parser.go:457-503 | the lists, counts and rule name of any statement text, or the error, or the panic |
| BuildGrammar.StatementReads | toolsupport/ninjautil/chunk_parser.go:457-503 | a statement written with any white space, folded lines and escaped blanks between its parts reads as its paths with their escapes, how many of each kind, and its rule |
| BuildGrammar.HeadFails | toolsupport/ninjautil/chunk_parser.go:457-485 | which error a statement is that stops before its colon |
| BuildParser.OverrunsIff | toolsupport/ninjautil/paths.go:58-90 | `parseBuild` slices past the end of its text iff the text ends in an odd number of `$` and the scan of a list comes to them |
| BuildParser.OnlyLastOverruns | toolsupport/ninjautil/chunk_parser.go:158-171 | only the last statement of a file without a newline at its end can |
| BuildParser.OpenDollarOverruns | toolsupport/ninjautil/paths.go:58-90 | a file of one such statement |
| BuildParser.UnreachedDollar | toolsupport/ninjautil/chunk_parser.go:457-468 | a text that ends in `$` and is a plain error, as no scan comes to it |
| EdgePrint.ListParsed | toolsupport/ninjautil/paths.go:44-90 | a run of printed paths is read as one list, without leading spaces and empty paths |
| EdgePrint.EntryIsPath | toolsupport/ninjautil/chunk_parser.go:553-560 | an escaped path evaluates to itself in any environment |
| EdgePrint.KeptReads | toolsupport/ninjautil/chunk_parser.go:553-560 | printed paths free of stop bytes are read back iff each is non-empty and starts neither with a space nor with `./` |
| EdgePrint.ScannedClean | toolsupport/ninjautil/paths.go:58-90 | with no variable set, no scanned path stands for one with a tab, newline, carriage return, `|` or NUL in it |
| EdgePrint.PrintedRead | toolsupport/ninjautil/graph.go:274-323 | what the parser makes of any printed statement whose paths are free of stop bytes, validations included |
| EdgePrint.LineEnds | toolsupport/ninjautil/lexer.go:12-32 | a text printed in folds is one logical line, wherever it stands |
| EdgePrint.LineClosesIff | toolsupport/ninjautil/graph.go:291-323 | the printed statement is one logical line iff the bare newline after the last input or validation is its only unescaped one |
| EdgePrint.PrintThenParse | toolsupport/ninjautil/graph.go:264-340 | in every file and environment the printed statement is cut out as one statement that parses back to the edge, iff its paths and rule can be written and its line closes where its text ends |
| EdgePrint.OnlyPrintable | toolsupport/ninjautil/graph.go:264-340 | one file with something after the statement, and no variables, is enough to tell |
| EdgePrint.ValidationsCutOff | toolsupport/ninjautil/graph.go:307-323 | where the validations of an edge go whose last input closes the line: an error, or a binding when one of them holds a `=` |
| EdgePrint.LoneImplicitLost | toolsupport/ninjautil/graph.go:275-290 | a lone implicit output prints like an explicit one |
| EdgePrint.DollarSwallowsLine | toolsupport/ninjautil/lexer.go:24-29 | a line whose newline follows a `$` does not end there |

## Left out

- DepsLogs.DepsLog.Record: I/O errors other than a record that does not fit, and a nil receiver, are not modelled, and nothing is claimed of a log after a failed call, whose memory runs ahead of its file.
- DepsLogs.DepsLog.Load: the log is not reopened for writing, as file handles are not modelled; `filepath.ToSlash` is the identity, as on the platforms where it is.
- DepsLogs.DepsLog.Update: memory is unbounded, so an output just below the overflow gets its table of many gigabytes; a dependency list passed in is copied, so later writes of the caller to its own slice are not seen.
- ChunkParser.SplitIntoChunks: the chunk size is any positive number instead of one computed from the number of processors.
- FileParser.RunInv: `include`, `pool` and `subninja` statements are outside the concurrent passes that are modelled, and so is the renumbering of statement positions by `include`.
- NodeMap.RunInv: loads, stores and swaps of one word are single steps, and memory is sequentially consistent, as Go's atomics are.
- CasUpload.RunInv: the server answers every blob of a batch once and reports as missing a subset of what it was asked; retries inside a call and the cancellation of contexts are one failing answer. An operation closed by the deferred function stays in the map, as in the source (CasOutcome.AfterReturn), so no later retry of its blob is claimed.
- ProtoWire.RequestLength: of the wire format only what a batch request is made of, and reading back only its varints.
- Eval.EvaluateAppend: the nil environment is not modelled apart; nothing is looked up in it, so the depth stays zero, and it expands like `NoVariables()`.
- Eval.LazyIsEager: one file; lookup through the parent scopes of `subninja` files, and the order of build, rule and scope bindings in `edgeEnv.lookupVar`, are not modelled.
- Bindings.ShardBindings.Get: the mask of the hash by a power of two is a remainder, the seeded hash is an arbitrary function, and a nil receiver, which answers nothing, is not modelled.
- ShellSplit.Split: input is valid UTF-8; Go replaces other bytes by U+FFFD.
- EdgePrint.Print: the scope, pool, rule and variable sections around the build statement are not modelled, and paths are valid UTF-8.
- BuildParser.ParseBuild: looking up the rule and the pool, the statement's variables and claiming the outputs are not modelled.
- Merkle.MerkleTree.Set: precomputed subtrees (`SetTree`, `setTree`) are not modelled, so no directory is opaque; the store is present; `filepath.ToSlash` is the identity.
- Merkle.MerkleTree.Build: stated for a tree that was not built before, whose subdirectories have no digest yet; `sort.Slice` is an insertion sort.
- Merkle.MerkleTree.BuildTree: the same, and so of `BuildDirs`; the shortcut for a subdirectory that has a digest belongs to trees that are built twice or hold precomputed subtrees.
- Merkle.Traverse: a file's content is never taken for a serialised directory.
- HashFs.Tree.Lookup: only absolute clean paths from the root; lookups that start in a subdirectory are not modelled.
- HashFs.Tree.NextDir: no concurrent writer, so the compare-and-swap and load-or-store calls on a directory's map always succeed; the disk is a fixed function, and a symlink on it has a target.
- HashFs.LookupAfterStore: one way for a stored symlink or directory, whose changed slot can still lead back to itself; for a file see HashFs.FileFoundIff.
- The inner loop of `resolveNextDir` returns in its first turn, because neither helper reports success without a directory or a target; the model has no loop there.
- Rule maps and rule variables (`rule.go`) use the same prepend loop as the node map and are not modelled apart.
- Default targets, the counting of validations and the linking of out-edges after `finalize` would only add easy members.
- gRPC, byte streams, compression, credentials, real disk access, state files, and reading of protocol-buffer messages.
