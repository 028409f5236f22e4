# polars-logfmt: the scan engine, modelled and proved

`polars-logfmt` turns a logfmt text into a polars data frame. This project models the engine under
`LazyLogFmtReader` and proves what it promises:

- a **parallel scan** cuts a file into frames, shares them out among at most 8 workers that claim rows from one
  atomic counter, and lets each fill a columnar builder;
- a **sequential scan** reads rows a batch at a time and is what the parallel scan has to agree with;
- a **byte parser** under both, which makes strings out of unchecked slices.

The centre of the project is `ParallelLaws.ParallelRefinesSequential`: for every interleaving of the workers, every
number of threads and every line filter, predicate, projection and batch size, the parallel scan is the sequential
one, on texts whose accepted lines all carry the same keys, once each, with values that both paths convert alike.

| file | models |
|---|---|
| `Text`, `Utf8`, `Characters` | bytes, lines as `read_line` takes them, well-formed UTF-8 (section 4 of RFC 3629), characters and whitespace by their numbers |
| `LogfmtParser`, `Grammar`, `RoundTrip` | the index-loop parser; what every line means, told without an index; printing and parsing again |
| `FrameCutting`, `FrameLines`, `ZstFile`, `UnitStream` | cutting a file into frames, reading a frame under short reads, seek tables, units as one stream |
| `Chunks`, `RowBudget`, `FirstRows`, `StoppedWorkers` | sharing the frames out; the workers and their counter as a transition system |
| `SchemaProbe` | schema inference on a stream that is replayed afterwards |
| `SkippedLines` | lines that are blank or filtered out leave no trace |
| `Table`, `ColumnFrames` | values, cells, frames: what polars is taken to do |
| `Builder`, `RowTable`, `WorkerFrames` | `DataFrameMaker`, the simple row table it must hold, and one worker's frame |
| `SequentialScan`, `SequentialLaws`, `BatchLaws`, `AlignedBatches`, `UniformScan`, `LazyReader` | batches, the pull loop, its state and the class that carries it |
| `ParallelScan`, `FileOrder`, `ParallelLaws`, `RowFilterLaws`, `SlicedLaws`, `RaggedScan` | the parallel batch around the workers, and the refinement |
| `Departures` | inputs on which the scan does not do what it looks like |

What changes step by step in the program is imperative here: `DataFrameMaker`, `LazyLogFmtReader`, `UnitsReader`,
`FrameReader`, `LocalSeekableZstdFile` are classes; the parser, the newline search, the schema probe, the batch loop,
the type flags and the fill loops are methods with loops. Each is proved against a function or states its result
outright, and the laws are proved about the functions. The workers are a transition system with one step per counter `load`, per line (with its
`fetch_add`), per end of frame and per round of the loop over the frames, where the builder may be flushed; a line that
is not UTF-8 stops the worker that meets it. `Relaxed` loads may see any value between the last one the worker saw and
the current one.

What lies outside is a parameter: a file is its bytes and a plan saying what each seek and read does; number, date and
duration parsing and formatting are uninterpreted functions; a line filter, a row filter and a predicate are arbitrary
functions, the predicate of the columns it names; which workers get a file handle is arbitrary. A frame is a list of
columns and rows of cells; filtering by a column that is missing, or selecting one that is missing or named twice, is
an error; stacking needs the same columns. A schema is always present, as `scan` ensures.

## Where the code departs from what it looks like

- A word without an equals sign takes the token after it along: `error user=5 id=7` gives `id` only
  (`RoundTrip.WordTakesToken`; `Grammar.LineIsPieces` for every line).
- `k=""` hands over the one byte `"` as the value (`RoundTrip.PrintThenParse`, `RoundTrip.EmptyQuotedComesBackAsQuote`).
- A parallel scan with a pushed slice need not return the first rows of the file: `FileOrder.SliceIsFirstRowsIff` says
  when all interleavings do, `Departures.SliceOfLaterRow` shows one that does not.
- A parallel scan takes no notice of the row filter: `RowFilterLaws.RowFilterHonouredIff` says when that shows,
  `Departures.RowFilterNotAsked` is a text on which it does.
- Without `aligned_cols_cnt` the parallel scan never yields a row (`ParallelScan.UnalignedYieldsNothing`). Without a
  slice the answer is then that of the sequential scan (`ParallelLaws.UnalignedScanIsSequential`). With one it is in
  every run if and only if the sequential scan fails or no worker can be stopped by a line that is not UTF-8
  (`SlicedLaws.UnalignedSliceIff`): the units `a=1` and `\xff` on two threads with a slice of one row may fail, where
  the sequential scan returns `a=1` (`Departures.SliceStopped`).
- The columnar builder is the row table only on regular lines (`RowTable.BuilderIsTableIff`); the two paths differ on
  durations, on dates that do not parse and on missing keys (`Table.CellsAgreeIff`, `Table.MissingCellsAgreeIff`).
- With `aligned_cols_cnt` a row with other keys than the first row of its batch keeps them if it has equally many
  (`AlignedBatches.AlignedBatchIff`, `Departures.AlignedBatchWithOtherColumn`).
- A batch of rows without any pair is skipped, rows and all (`BatchLaws.BatchSizeLeavesNoTraceIff`,
  `Departures.HollowBatchSkipped`).
- With a slice the two paths need not read the same lines, so one of them may fail on a line that is not UTF-8 and the
  other not: the scan may fail where the sequential one does not (`Departures.SliceStopped`), and return a row where
  that fails (`Departures.SlicePastBadLine`). With `aligned_cols_cnt`, `SlicedLaws.AlignedSliceIff` says from text,
  threads and slice when neither can happen; on a UTF-8 text neither does (`SlicedLaws.ReadableSliceIsSequential`).
- With `aligned_cols_cnt` the columns of a parallel scan come from the first lines of the workers' chunks, not from the
  first line of the file, and where these call for different columns it falls back (`RaggedScan.RaggedScanIs`), so
  that a key the first line did not have need not be dropped (`Departures.OtherColumnNotDropped`).
- The comment on the frame size says 32 MB; the code, and the model, use 4 MiB
  (polars-logfmt/src/lazy/lazy_logfmt_reader.rs:894-895).

## Model

| member | source | states |
|---|---|---|
| LogfmtParser.ParseSpans | polars-logfmt/src/logfmt.rs:86-185 | the index loop makes exactly the callbacks of the recursive parser, whose meaning `Grammar` tells |
| Grammar.LineIsPieces | polars-logfmt/src/logfmt.rs:86-185 | every line, whatever its bytes, is made of pieces: whitespace, tokens without a key or with one that is not UTF-8, words without an equals sign, an equals sign at the end, unquoted, quoted and unclosed values; its pairs are what these mean, in order |
| Grammar.PiecesMean | polars-logfmt/src/logfmt.rs:86-185 | however a line is put together from pieces, it gives what they mean: skipped tokens nothing, a word without an equals sign nothing and neither the token after it, an unclosed quote the rest of the line, a quoted empty value the closing quote |
| Grammar.PieceThenRest | polars-logfmt/src/logfmt.rs:93-184 | what comes after a piece is parsed like a line of its own |
| Grammar.ScanFinds | polars-logfmt/src/logfmt.rs:149-167 | the scan stops at the first quote with an even number of backslashes right in front of it, and at the end of the line if there is none |
| LogfmtParser.AdvanceQuoted | polars-logfmt/src/logfmt.rs:149-167 | the quoted-value loop ends where the specified scan ends, escapes that run past the line included |
| LogfmtParser.UncheckedUtf8IsSound | polars-logfmt/src/logfmt.rs:147-183 | on every UTF-8 line every key and value slice is in bounds and UTF-8, and slices come in order without overlap, even when an escape skips into a character or past the end |
| LogfmtParser.LineSound | polars-logfmt/src/logfmt.rs:86-185 | a line that is UTF-8 yields only UTF-8 texts, with keys that are non-empty and free of `=` and ASCII whitespace |
| RoundTrip.PrintThenParse | polars-logfmt/src/logfmt.rs:86-185 | printing any pairs and parsing the line gives the keys in order and the still-escaped values, which unescape to the originals, for a value if and only if it is not the empty quoted one |
| RoundTrip.UnescapeEscape | polars-logfmt/src/logfmt.rs:152-164 | escaping quotes and backslashes loses nothing |
| RoundTrip.ScanEscaped | polars-logfmt/src/logfmt.rs:152-164 | the scan for the closing quote stops right after any escaped text |
| RoundTrip.EmptyQuotedComesBackAsQuote | polars-logfmt/src/logfmt.rs:158-167 | the concrete line `k=""` parses to the value `"` |
| RoundTrip.WordTakesToken | polars-logfmt/src/logfmt.rs:125-137 | the concrete line `e u=5 i=7` gives the pair of `i` only |
| Characters.WellFormedIff | polars-logfmt/src/lazy/lazy_logfmt_reader.rs:1055-1057 | a text is well-formed UTF-8 if and only if it encodes a sequence of scalar values, and then it encodes one only |
| Characters.BlankIff | polars-logfmt/src/lazy/lazy_logfmt_reader.rs:1267-1269 | a line is blank if and only if it is UTF-8 and every character of it has the property White_Space |
| Characters.AsciiBlankIff | polars-logfmt/src/lazy/lazy_logfmt_reader.rs:1061-1063 | among ASCII bytes the blank lines are those of spaces and the bytes 9 to 13 |
| Characters.ParserSpaces | polars-logfmt/src/logfmt.rs:95-97 | the parser skips the ASCII whitespace a line is trimmed of, but for the vertical tab |
| Utf8.LinesWellFormed | polars-logfmt/src/lazy/lazy_logfmt_reader.rs:1260-1263 | reading line by line fails on a text that is not UTF-8 and on no other |
| Text.LinesRejoin | polars-logfmt/src/lazy/lazy_logfmt_reader.rs:1260-1266 | the lines that are read put together are the text |
| FrameCutting.FindCut | polars-logfmt/src/lazy/lazy_logfmt_reader.rs:910-934 | for any outcome of seeks and reads, short ones included, the cut is right after the last newline among the bytes that were handed over, and at the window's end if there is none among them; with full reads it is the end of the last line of the window |
| FrameCutting.CutFrames | polars-logfmt/src/lazy/lazy_logfmt_reader.rs:890-951 | for any outcome of seeks and reads: frames that are not empty, at most 4 MiB, numbered, consecutive, covering exactly the file, each ending with the file, with its 4 MiB window or right after a newline; `None` exactly for an unknown or zero size |
| FrameCutting.SeekTableFrames | polars-logfmt/src/ssh_vfs/local_zst_file.rs:73-93 | one frame per end in the table, from the end before it to its own and empty if the ends go back there; `None` exactly when there is no frame or an end cannot be had |
| FrameCutting.SeekTableCovers | polars-logfmt/src/ssh_vfs/local_zst_file.rs:81-92 | seek-table frames cover the file without gap or overlap if and only if the ends never go back |
| FrameCutting.FrameReader.ReadFrame | polars-logfmt/src/lazy/lazy_logfmt_reader.rs:51-76 | the reused buffer ends up with bytes of this frame only; with reads that make progress, with all of them up to the end of the file |
| ZstFile.LocalSeekableZstdFile.Read | polars-logfmt/src/ssh_vfs/local_zst_file.rs:50-62 | the caller's buffer is filled from the front with consecutive bytes, the rest is left alone, the position moves by what was filled, and short reads never leave a gap |
| FrameLines.CutsOnLinesIffLinesFit | polars-logfmt/src/lazy/lazy_logfmt_reader.rs:899-948 | frames cut with full reads end between lines if and only if no line is longer than 4 MiB |
| FrameLines.FramesKeepLines | polars-logfmt/src/lazy/lazy_logfmt_reader.rs:1051-1061 | splitting each frame into lines, in order, gives the lines of the file |
| FrameLines.FrameLinesOfFile | polars-logfmt/src/lazy/lazy_logfmt_reader.rs:890-951 | the cutting loop with full reads makes frames whose lines are the lines of the file |
| FrameLines.FrameLinesOfAnyFile | polars-logfmt/src/lazy/lazy_logfmt_reader.rs:890-951 | whatever seeks and reads do while the file is cut, the lines of the frames are the lines of the file if and only if no frame that fills its window ends inside a line |
| FrameLines.UnitsKeepLinesIff | polars-logfmt/src/seekable_vfs.rs:26-33 | splitting each unit into lines gives the lines of the stream of units if and only if no unit starts inside a line, which is what `UnitSource` asks for |
| FrameLines.FramesKeepLinesIff | polars-logfmt/src/lazy/lazy_logfmt_reader.rs:875-888 | the lines of the frames of a seek table are the lines of the file if and only if no frame with text starts inside a line |
| FrameLines.ReadFrames | polars-logfmt/src/lazy/lazy_logfmt_reader.rs:51-76 | reading frame after frame into the one buffer, under any short reads that make progress, gives the text of each frame whole |
| UnitStream.UnitsReader.FillBuf | polars-logfmt/src/lazy.rs:260-270 | refilling loses and repeats nothing, stops on the units left, and answers with nothing only at the end of the text |
| UnitStream.UnitsReader.Consume | polars-logfmt/src/lazy.rs:272-274 | consuming hands on exactly the bytes it passes over |
| UnitStream.UnitsReader.Read | polars-logfmt/src/lazy.rs:278-287 | a read hands on the next bytes; nothing for a non-empty buffer means all was delivered |
| UnitStream.UnitsReader.RunSchedule | polars-logfmt/src/lazy.rs:259-288 | any schedule of read, fill and consume calls delivers a prefix of the units put together |
| UnitStream.UnitsReader.ReadToEnd | polars-logfmt/src/lazy.rs:259-288 | reads of any size, repeated until nothing comes, deliver everything |
| Chunks.ChunksCover | polars-logfmt/src/lazy/lazy_logfmt_reader.rs:495-537 | the chunks that are kept are non-empty and in order make up the frames, each frame once; no more than 8, the bound or the frames; all but the last have the least size with which that many workers take all frames, and the last no more |
| Chunks.CeilingCovers | polars-logfmt/src/lazy/lazy_logfmt_reader.rs:500-505 | the ceiling division leaves no frame over, and one frame less for each worker would |
| RowBudget.RunKeepsInv | polars-logfmt/src/lazy/lazy_logfmt_reader.rs:1004-1214 | every reachable state: each worker has pushed exactly the accepted lines it is past, all of them readable, is stopped only in front of an unreadable one, and counter and rows agree |
| RowBudget.FinishedRunFillsSlice | polars-logfmt/src/lazy/lazy_logfmt_reader.rs:1021-1026 | however the workers interleave, a finished run with slice n in which no line stopped a worker pushed min(n, accepted lines) rows; each worker pushed a prefix of its chunk and flushed once, or was stopped by an unreadable line and did not flush; without a slice it pushed all of its chunk |
| RowBudget.CounterOvershoot | polars-logfmt/src/lazy/lazy_logfmt_reader.rs:1070-1075 | in every reachable state the counter is rows pushed plus failed claims, at most n plus the workers; lines that are not accepted never move it |
| RowBudget.CappedWorkerStops | polars-logfmt/src/lazy/lazy_logfmt_reader.rs:1070-1075 | from the moment it was refused a slot, or saw the slice full, a worker claims nothing, pushes nothing and looks at the counter no more |
| RowBudget.FlushesOnce | polars-logfmt/src/lazy/lazy_logfmt_reader.rs:1186-1213 | in every reachable state a worker flushed at most once, and did so exactly when it is through its last frame or was capped; a stopped worker never flushes |
| RowBudget.EmptySliceReadsNothing | polars-logfmt/src/lazy/lazy_logfmt_reader.rs:1021-1026 | with a slice of no rows no line is read |
| RowBudget.RunsAreBounded | polars-logfmt/src/lazy/lazy_logfmt_reader.rs:1174-1214 | no run is longer than the work of its first state |
| RowBudget.AnyLoadMayBeSeen | polars-logfmt/src/lazy/lazy_logfmt_reader.rs:1021-1026 | the loads are relaxed: before a frame a worker may go by any value of the counter since the last one it saw, and so open a frame although the slice is full |
| RowBudget.AdvanceIsStep | polars-logfmt/src/lazy/lazy_logfmt_reader.rs:1004-1110 | no worker that is not done is ever stuck |
| RowBudget.FinishAll | polars-logfmt/src/lazy/lazy_logfmt_reader.rs:531-585 | every run can be continued to a finished one |
| FirstRows.FirstRowsIff | polars-logfmt/src/lazy/lazy_logfmt_reader.rs:615-625 | a sliced parallel scan that meets no unreadable line gives the first n accepted rows under every interleaving if and, on readable lines, only if n is 0, there are no more than n, or they are all in one chunk |
| FirstRows.BackwardsRun | polars-logfmt/src/lazy/lazy_logfmt_reader.rs:1070-1075 | the interleaving that breaks it: the last chunk with accepted lines takes the slots first |
| FirstRows.JoinedLength | polars-logfmt/src/lazy/lazy_logfmt_reader.rs:1204-1210 | the rows of all workers together are min(n, accepted lines) |
| FirstRows.NoLimitJoinsAll | polars-logfmt/src/lazy/lazy_logfmt_reader.rs:601-612 | without a slice they are all accepted lines in order |
| SchemaProbe.InferSchema | polars-logfmt/src/lazy.rs:86-123 | consumed bytes and the rest of the stream are the stream; the schema has the keys of the first n accepted lines and nothing else, each with the least type to which what is inferred from its last value on every such line can be widened; an error exactly when a line that is not UTF-8 comes before the n-th accepted one |
| SchemaProbe.RowSchemaHolds | polars-logfmt/src/lazy.rs:183-199 | the schema of one line has exactly its keys, each with the type inferred from its last value |
| SchemaProbe.MergeIsJoin | polars-logfmt/src/lazy.rs:125-136 | the type merge is commutative, associative and idempotent and gives the least type both widen to |
| SchemaProbe.JoinAllIsLeast | polars-logfmt/src/lazy.rs:108-118 | the inferred schema is the least upper bound of the rows' schemas |
| SchemaProbe.JoinAllOfSameRows | polars-logfmt/src/lazy.rs:108-118 | neither the order nor the repetition of the probed rows matters |
| SchemaProbe.LongerProbeWidens | polars-logfmt/src/lazy.rs:82-86 | a longer probe only adds keys and widens types |
| Table.CellsAgreeIff | polars-logfmt/src/logfmt.rs:191-214 | builder and row path make the same cell if and only if the field is no duration and, for a date, the value parses; the same column type if and only if it is no duration |
| Table.CellsHaveType | polars-logfmt/src/lazy.rs:460-552 | in both scans every cell is of the type its column is stored with, and only a date can be null in the sequential one |
| Table.MissingIsUnparsed | polars-logfmt/src/lazy.rs:466-520 | a missing key is filled in as a value that does not parse or is not true is: zero, false, nothing; only a date that does not parse is null in one scan and zero in the other |
| Table.DurationCells | polars-logfmt/src/lazy/lazy_logfmt_reader.rs:1643-1649 | a duration is its microseconds in the builder and its shown text in the row path; one that does not parse is zero in the one and its own text in the other |
| Table.CellsOfOtherSorts | polars-logfmt/src/lazy.rs:466-552 | a value of another sort than its column counts as the number, the truth or the text it stands for |
| Table.MissingCellsAgreeIff | polars-logfmt/src/lazy.rs:455-559 | a missing key is null in both paths for dates only |
| Table.SortedKeys | polars-logfmt/src/lazy.rs:387-390 | the keys come once each, a key before those it is the front of and before those with a greater byte at the first place they differ |
| Table.OnlyOneOrder | polars-logfmt/src/lazy/lazy_logfmt_reader.rs:1087 | no other sequence of the same keys is in that order |
| Table.LeqIsByteOrder | polars-logfmt/src/lazy.rs:387-390 | comparing byte by byte decides that order |
| Builder.DataFrameMaker.constructor | polars-logfmt/src/lazy/lazy_logfmt_reader.rs:1432-1458 | an empty builder satisfies the invariant |
| Builder.DataFrameMaker.AppendColumn | polars-logfmt/src/lazy/lazy_logfmt_reader.rs:1724-1782 | a new column gets a new empty builder of its kind and no other builder changes |
| Builder.DataFrameMaker.PushPair | polars-logfmt/src/lazy/lazy_logfmt_reader.rs:1554-1659 | one callback appends one cell to the column of its key, makes the column if there is none, and touches no other; no two columns share a builder |
| Builder.DataFrameMaker.PushLine | polars-logfmt/src/lazy/lazy_logfmt_reader.rs:1541-1678 | after every push each column holds exactly the cells the pushed lines call for, null pass and shortcut included |
| Builder.DataFrameMaker.EndLine | polars-logfmt/src/lazy/lazy_logfmt_reader.rs:1661-1677 | the end of a line keeps the invariant whether or not the null pass runs |
| Builder.DataFrameMaker.ToColumns | polars-logfmt/src/lazy/lazy_logfmt_reader.rs:1819-1913 | the listed columns are moved out in order, a key without column is left out, what is not listed stays |
| RowTable.BuilderIsTableIff | polars-logfmt/src/lazy/lazy_logfmt_reader.rs:1541-1678 | after every push builder and row table agree, one cell per line and column, null where absent, if and only if the first line carries every column and no line repeats a key |
| RowTable.NullPassIsNotMissed | polars-logfmt/src/lazy/lazy_logfmt_reader.rs:1661-1662 | a line with distinct keys that lacks a column never skips the null pass |
| RowTable.RegularLineKeepsTable | polars-logfmt/src/lazy/lazy_logfmt_reader.rs:1541-1678 | one more regular line keeps the table |
| RowTable.LateColumnIsNoTable | polars-logfmt/src/lazy/lazy_logfmt_reader.rs:1559-1614 | a column first met on a later line has no cells for the lines before |
| RowTable.RepeatIsNoTable | polars-logfmt/src/lazy/lazy_logfmt_reader.rs:1615-1658 | a key repeated on a line has two cells for it |
| RowTable.RepeatsHideNull | polars-logfmt/src/lazy/lazy_logfmt_reader.rs:1662-1677 | a line without one of the columns leaves it a cell short if and only if it has as many pairs as there are columns, which takes repeated keys; otherwise it gets a null |
| ColumnFrames.ColumnsMakeFrame | polars-logfmt/src/lazy.rs:396-559 | the columns of a table, pushed one by one, make the frame of its rows |
| SequentialScan.ParseRow | polars-logfmt/src/logfmt.rs:220-227 | the loop that fills the row map makes the specified row, every value of a type its field lets through |
| WorkerFrames.RowHolds | polars-logfmt/src/logfmt.rs:187-227 | a row has exactly the keys of its line and keeps the last value of each, typed by the schema |
| SequentialScan.ParseBatch | polars-logfmt/src/lazy/lazy_logfmt_reader.rs:1236-1308 | the batch loop reads exactly the specified rows, counts the lines that passed the filter and leaves the rest of the stream |
| SequentialScan.BatchMakesProgress | polars-logfmt/src/lazy/lazy_logfmt_reader.rs:175-216 | every call that yields a frame shortens what is left, so the pull loop ends |
| SequentialScan.PushedFrameIs | polars-logfmt/src/lazy/lazy_logfmt_reader.rs:1386-1405 | predicate and projection on the frame of some rows, told row by row, rows without any key included, with the exact condition for an error |
| SequentialLaws.BatchTakesFront | polars-logfmt/src/lazy/lazy_logfmt_reader.rs:1236-1308 | a batch takes accepted rows from the front and leaves the others; it fails only on a text that is not UTF-8 |
| SequentialLaws.BatchIsFirstRows | polars-logfmt/src/lazy/lazy_logfmt_reader.rs:735-781 | the rows of one batch are the first ones of the text |
| SequentialLaws.SliceThenFilter | polars-logfmt/src/lazy/lazy_logfmt_reader.rs:803-837 | a pushed slice means the first n accepted rows and then the predicate, never a later matching row, for every text and predicate, aligned or not; a line that is not UTF-8 is an error exactly when it comes before the n-th row |
| SequentialLaws.SliceIsFirstRows | polars-logfmt/src/lazy/lazy_logfmt_reader.rs:803-837 | the rows of a slice are the first n accepted ones: as they are, or with keys taken away by alignment |
| SequentialLaws.ReadIsAligned | polars-logfmt/src/lazy/lazy_logfmt_reader.rs:1286-1306 | on every text one row per accepted line in order, each aligned, up to a line that is not UTF-8 |
| SequentialLaws.AlignAllNarrows | polars-logfmt/src/lazy/lazy_logfmt_reader.rs:1291-1304 | alignment takes keys away and does nothing else |
| SequentialLaws.ShortBatch | polars-logfmt/src/lazy/lazy_logfmt_reader.rs:1254-1258 | on every text a batch cut short by its size reads the first rows of the batch that is not, and fails if and only if that one fails before it has as many |
| SequentialLaws.FailsIff | polars-logfmt/src/lazy/lazy_logfmt_reader.rs:1260-1263 | a batch of all rows fails if and only if the text is not UTF-8 |
| SequentialLaws.FailedBatchIsPast | polars-logfmt/src/lazy/lazy_logfmt_reader.rs:1260-1263 | a batch that fails leaves what comes after the first line that is not UTF-8 |
| SkippedLines.SkippedLineLeavesNoTrace | polars-logfmt/src/lazy/lazy_logfmt_reader.rs:1267-1275 | with or without a line that is blank or filtered out, anywhere in the text, the sequential scan is the same, for every slice and batch size |
| SkippedLines.SkippedIff | polars-logfmt/src/lazy/lazy_logfmt_reader.rs:1267-1275 | such a line is one that is blank, whatever the filter says, or UTF-8 and refused by the filter |
| SkippedLines.ReadWithout | polars-logfmt/src/lazy/lazy_logfmt_reader.rs:1258-1306 | so is every batch: the same rows, count and failure, and the rest but for that line |
| SkippedLines.SkippedLineTakesNoSlot | polars-logfmt/src/lazy/lazy_logfmt_reader.rs:1061-1075 | with such a line in a frame every worker has the same lines to claim a slot for, in the same order |
| SkippedLines.ProbeWithout | polars-logfmt/src/lazy.rs:96-106 | the probe sees the same accepted lines and fails on the same texts |
| SequentialLaws.UnbatchedScan | polars-logfmt/src/lazy/lazy_logfmt_reader.rs:142-226 | without slice and batch size the scan is the pushed-down frame of all accepted rows, an error exactly when the text is not UTF-8 or the pushdown fails |
| BatchLaws.StackedIsPushed | polars-logfmt/src/lazy/lazy_logfmt_reader.rs:183-202 | pushing down batch by batch and stacking is pushing down the whole |
| BatchLaws.BatchesAddUp | polars-logfmt/src/lazy/lazy_logfmt_reader.rs:175-225 | what any scan in batches that succeeds ends with |
| BatchLaws.BatchedScanSucceedsIff | polars-logfmt/src/lazy/lazy_logfmt_reader.rs:175-225 | a scan in batches succeeds if and only if the text is UTF-8, the pushdown is possible for every batch, also those without any pair, and the batches with columns all have the same ones |
| BatchLaws.BatchSizeLeavesNoTraceIff | polars-logfmt/src/lazy/lazy_logfmt_reader.rs:175-225 | a scan in batches that succeeds is the scan without batches if and only if no batch lacked pairs altogether, or the predicate drops such rows, or no row has a pair |
| UniformScan.AlignIsIdle | polars-logfmt/src/lazy/lazy_logfmt_reader.rs:1291-1304 | alignment changes nothing on rows with the same keys |
| SequentialLaws.BatchCountsLines | polars-logfmt/src/lazy/lazy_logfmt_reader.rs:1267-1290 | a batch counts exactly the lines that passed the line filter, whether or not the row filter keeps them |
| AlignedBatches.AlignedBatchIff | polars-logfmt/src/lazy/lazy_logfmt_reader.rs:1291-1304 | for every batch size, the columns of an aligned batch are the keys of its first row that has any if and only if no row it reads has equally many others |
| AlignedBatches.AlignAllFrom | polars-logfmt/src/lazy/lazy_logfmt_reader.rs:1291-1304 | every row of an aligned batch from its first row with a key on, told exactly |
| UniformScan.UniformSlice | polars-logfmt/src/lazy/lazy_logfmt_reader.rs:803-837 | the meaning of a slice on rows with the same keys, aligned or not, on every text |
| UniformScan.UniformScanIs | polars-logfmt/src/lazy/lazy_logfmt_reader.rs:142-226 | on such rows the scan is their frame for every batch size, or an error |
| LazyReader.KindFor | polars-logfmt/src/lazy.rs:400-451 | the six flags and their order choose the first sort some row has, for a column the schema leaves open |
| LazyReader.InferredIsFirst | polars-logfmt/src/lazy.rs:426-447 | that is the first of date, duration, string, float, integer and boolean that some row has a value of, and string if there is no value |
| LazyReader.TypedKind | polars-logfmt/src/lazy.rs:426-451 | rows parsed under the schema never make it guess |
| LazyReader.RowsToFrame | polars-logfmt/src/lazy.rs:384-559 | the column-by-column loop makes the frame of the rows |
| LazyReader.LazyLogFmtReader.SingleBatch | polars-logfmt/src/lazy/lazy_logfmt_reader.rs:672-838 | result and all three state fields of one sequential batch |
| LazyReader.LazyLogFmtReader.NextBatch | polars-logfmt/src/lazy/lazy_logfmt_reader.rs:629-671 | result and state of one call, parallel attempt, fallback and finished reader included |
| LazyReader.LazyLogFmtReader.ScanAll | polars-logfmt/src/lazy/lazy_logfmt_reader.rs:175-225 | the pull loop ends and returns what the specified scan returns |
| LazyReader.FirstCollect | polars-logfmt/src/lazy.rs:68-79 | a collect that goes on with the probe's stream fails if a line that is not UTF-8 comes before the n-th accepted one or no line is accepted, and otherwise returns exactly what a scan of the whole text with the inferred schema returns |
| LazyReader.ScanOfStream | polars-logfmt/src/lazy/lazy_logfmt_reader.rs:145-172 | a scan on a stream that was opened reads it from there and tries no parallel batch |
| LazyReader.OnePathOnly | polars-logfmt/src/lazy/lazy_logfmt_reader.rs:643-670 | in every run of calls rows come from the parallel batch or from sequential ones, never both; once finished, every later call returns nothing and changes nothing |
| LazyReader.SliceIsReadOnce | polars-logfmt/src/lazy/lazy_logfmt_reader.rs:803-816 | after a call that read all rows of the slice every later call returns nothing, also when the pushdown failed on them |
| LazyReader.FailedCallCountsNothing | polars-logfmt/src/lazy/lazy_logfmt_reader.rs:822-836 | a call that fails leaves the offset, and everything if it read no batch |
| LazyReader.NothingMeansFinished | polars-logfmt/src/lazy/lazy_logfmt_reader.rs:774-780 | a call that returns nothing leaves the reader finished |
| LazyReader.CallsReadOn | polars-logfmt/src/lazy/lazy_logfmt_reader.rs:687-723 | a fallback reads from the start, every later batch from where the last one stopped; no byte is skipped or read twice |
| LazyReader.OffsetCountsLines | polars-logfmt/src/lazy/lazy_logfmt_reader.rs:767-836 | over any run of calls that do not fail the offset is the number of lines read so far that passed the line filter |
| WorkerFrames.ParseFrames | polars-logfmt/src/lazy/lazy_logfmt_reader.rs:1076-1110 | what is done with the lines that claimed a slot: column keys from the first line with keys, every line pushed to the builder; then the frame, pushdown without a slice only, frames without rows dropped |
| WorkerFrames.OpeningIs | polars-logfmt/src/lazy/lazy_logfmt_reader.rs:1076-1094 | the keys a worker keeps are those of the first opening line that has any, where the first pushed line of each frame opens; until there is one it moves out no column |
| WorkerFrames.KeptInOrder | polars-logfmt/src/lazy/lazy_logfmt_reader.rs:1554-1557 | a builder with column keys looks at exactly the pairs of those keys, in order |
| WorkerFrames.KeptIs | polars-logfmt/src/lazy/lazy_logfmt_reader.rs:1554-1557 | so every column finds the value the line has for it, and a line that repeats no key still repeats none |
| WorkerFrames.FirstLineTable | polars-logfmt/src/lazy/lazy_logfmt_reader.rs:1541-1913 | for any lines of which the first has a key and none repeats one, ragged ones included, a worker's frame is the table of the first line's keys: one row per line in order, null where a line lacks a key |
| WorkerFrames.BuilderMakesSameFrame | polars-logfmt/src/lazy/lazy_logfmt_reader.rs:1080-1110 | on lines with the same keys the columnar builder makes the row path's frame, cell by cell |
| WorkerFrames.SameFrameIffAlike | polars-logfmt/src/lazy/lazy_logfmt_reader.rs:1619-1658 | on lines with the same keys, once each, the two paths make the same frame if and only if they convert every value alike |
| ParallelScan.JobAccepts | polars-logfmt/src/lazy/lazy_logfmt_reader.rs:495-563 | the accepted lines of all chunks, in order, are the accepted lines of the text |
| ParallelScan.AnAttempt | polars-logfmt/src/lazy/lazy_logfmt_reader.rs:505-628 | every text has an attempt the laws speak about: the workers always have a run that finishes |
| ParallelScan.AttemptsWithout | polars-logfmt/src/lazy/lazy_logfmt_reader.rs:583-600 | a worker without a handle lets the batch fall back, and a stopped one with a handle lets it fail; with both, either may come first |
| ParallelScan.UnalignedYieldsNothing | polars-logfmt/src/lazy/lazy_logfmt_reader.rs:1193-1210 | without `aligned_cols_cnt` no attempt at the parallel batch yields rows, and it fails only if a worker met a line that is not UTF-8 |
| ParallelScan.StackParts | polars-logfmt/src/lazy/lazy_logfmt_reader.rs:583-612 | dropping the empty frames and stacking the others gives all rows in worker order |
| ParallelScan.JobReadableIff | polars-logfmt/src/lazy/lazy_logfmt_reader.rs:1055-1057 | the workers can read all lines of their chunks if and only if the text is UTF-8 |
| ParallelLaws.ParallelRefinesSequential | polars-logfmt/src/lazy/lazy_logfmt_reader.rs:417-628 | without a slice, on lines with one same non-empty set of distinct keys and values both paths convert alike, the scan with the parallel batch is the scan without it: same columns, rows and order, or both an error, whatever the frames, threads, interleaving, failed handles, filters, predicate, projection and batch size |
| RaggedScan.RaggedScanIs | polars-logfmt/src/lazy/lazy_logfmt_reader.rs:1076-1110 | with `aligned_cols_cnt` and no slice, for lines that repeat no key and need not carry the same ones: an error exactly on a text that is not UTF-8 or when the pushdown is impossible for the first line of some chunk; one row per line that passes, null where it lacks a column, if the chunks with such lines lead to the same columns; otherwise the sequential scan |
| RaggedScan.FirstLinesDecide | polars-logfmt/src/scan.rs:48-50 | if the first lines of the chunks carry the same keys, the scan is the table of these keys with all accepted lines, filtered and projected: nulls for missing keys, other keys dropped |
| RaggedScan.TablePushed | polars-logfmt/src/lazy/lazy_logfmt_reader.rs:1193-1210 | predicate and projection on a table with nulls, told row by row, with the exact condition for an error |
| ParallelLaws.ParallelFileScan | polars-logfmt/src/lazy/lazy_logfmt_reader.rs:417-628 | the same for the frames cut from a file whose lines are at most 4 MiB |
| ParallelLaws.ParallelTableScan | polars-logfmt/src/lazy/lazy_logfmt_reader.rs:875-888 | the same for the frames of a seek table none of which starts inside a line |
| ParallelLaws.UnalignedScanIsSequential | polars-logfmt/src/lazy/lazy_logfmt_reader.rs:417-628 | without `aligned_cols_cnt` and without a slice the scan is the sequential one on every text, errors included |
| ParallelLaws.FallbackMeansNoRows | polars-logfmt/src/lazy/lazy_logfmt_reader.rs:601-612 | with a handle for every worker the parallel batch falls back only if no line stopped a worker and the lines that were pushed give no row; without a slice the pushdown is then possible, if there are such lines |
| RowFilterLaws.ParallelIgnoresRowFilter | polars-logfmt/src/lazy/lazy_logfmt_reader.rs:1096-1109 | a parallel scan that does not fall back is the sequential scan without the row filter |
| RowFilterLaws.ParallelHonoursRowFilterIff | polars-logfmt/src/lazy/lazy_logfmt_reader.rs:1096-1109 | a parallel scan that yields rows is what was asked for if and only if no accepted line has a row that the row filter drops and the predicate lets through |
| RowFilterLaws.FailingHonoursRowFilterIff | polars-logfmt/src/lazy/lazy_logfmt_reader.rs:1096-1109 | a parallel scan that fails is what was asked for if and only if the text is not UTF-8 or the row filter keeps some row |
| RowFilterLaws.RowFilterHonouredIff | polars-logfmt/src/lazy/lazy_logfmt_reader.rs:1096-1109 | told from the text alone, with a handle for every worker: the parallel scan is what was asked for if and only if the text is not UTF-8 or no accepted line has a row that the row filter drops and the predicate lets through; where the pushdown is impossible, if the row filter keeps some row or there is no line |
| FileOrder.SlicePushesOnce | polars-logfmt/src/lazy/lazy_logfmt_reader.rs:1070-1075 | under every interleaving each pushed line is an accepted line of its frame, none is pushed twice, and they are put together in file order; with slice n, and no worker stopped, there are min(n, accepted lines) of them |
| FileOrder.SliceIsFirstRowsIff | polars-logfmt/src/lazy/lazy_logfmt_reader.rs:615-625 | they are the first n of the file under every interleaving when there is nothing to choose, and on UTF-8 lines only then |
| ParallelLaws.SlicedParallelScan | polars-logfmt/src/lazy/lazy_logfmt_reader.rs:615-627 | on every text: with a slice the scan falls back, or fails because a worker got to a line that is not UTF-8, or applies the predicate and projection once, to the joined rows |
| StoppedWorkers.CanBeStoppedIff | polars-logfmt/src/lazy/lazy_logfmt_reader.rs:1055-1075 | in some interleaving a worker is stopped by an unreadable line if and only if its chunk has one and the rows it can push without having to read the first are fewer than the slice; without a slice, if its chunk has one |
| StoppedWorkers.CompletesIff | polars-logfmt/src/lazy/lazy_logfmt_reader.rs:1021-1026 | some interleaving of a sliced scan is come through by all workers if and only if all lines are readable or the rows they can push without having to read an unreadable one fill the slice |
| SlicedLaws.UnalignedSliceIff | polars-logfmt/src/lazy/lazy_logfmt_reader.rs:586-598 | with a slice and without `aligned_cols_cnt`, on every text and under every attempt the scan is the sequential one if and only if that fails or no worker can be stopped |
| SlicedLaws.AlignedSliceIff | polars-logfmt/src/lazy/lazy_logfmt_reader.rs:586-627 | with a slice and `aligned_cols_cnt`, on alike lines that leave nothing to choose, every attempt leads to the sequential answer if and only if the pushdown is impossible, or the sequential scan fails and the safe rows of the workers do not fill the slice, or it does not fail and no worker can be stopped |
| SlicedLaws.ReadableSliceIsSequential | polars-logfmt/src/lazy/lazy_logfmt_reader.rs:615-627 | on a UTF-8 text of alike lines that leave nothing to choose, every attempt leads to the sequential answer |
| Departures.SliceOfLaterRow | polars-logfmt/src/lazy/lazy_logfmt_reader.rs:1070-1075 | two one-line units, two threads and a slice of one row: an interleaving returns the second line |
| Departures.SliceStopped | polars-logfmt/src/lazy/lazy_logfmt_reader.rs:1055-1057 | the units `a=1` and `\xff`, two threads and a slice of one row, aligned or not: an interleaving fails, and the sequential scan returns the first line |
| Departures.SlicePastBadLine | polars-logfmt/src/lazy/lazy_logfmt_reader.rs:1021-1026 | the same units the other way round, aligned: the sequential scan fails, and an interleaving returns the second line |
| Departures.RowFilterNotAsked | polars-logfmt/src/lazy/lazy_logfmt_reader.rs:1096-1109 | one line and a row filter that is never true: the line is returned |
| Departures.HollowBatchSkipped | polars-logfmt/src/lazy/lazy_logfmt_reader.rs:180-182 | batches of one line, the first without a pair: its row is missing |
| Departures.OtherColumnNotDropped | polars-logfmt/src/scan.rs:48-50 | the units `a=1` and `b=2`, two threads, aligned: every column of both lines is in the result |
| Departures.AlignedBatchWithOtherColumn | polars-logfmt/src/lazy/lazy_logfmt_reader.rs:1291-1304 | the aligned batch of `a=1` and `b=2` has both columns |

## Left out

- SSH, SFTP, zstd decoding, opening files and parsing addresses: I/O; a file is bytes and a plan of outcomes.
- polars itself: lazy engine, casts, builders, concatenation inside the library. `Table` says what is assumed of it.
- Number, date and duration parsing and type inference: uninterpreted functions; 64-bit integers are unbounded and
  floats are reals, so NaN and rounding are not modelled.
- The schema probe inside the parallel and the sequential batch when no schema is set: `scan` always sets one.
- Row storage order in a hash map: rows are maps, and columns are sorted as the code sorts them.
- `Mode::PerColumn`, `Mode::Columner`, the branch for `use_df_maker == false` and the deprecated parser: never taken.
- Capacity and row-count hints, logging, builders, option structs, the command line and the host plugin adapter.
- Wrap-around of 64-bit offsets, line counts and the slot counter.
- A unit that fails after appending part of itself: a failed read of a unit leaves the buffer empty.
- RowBudget.FinishedRunFillsSlice: reads of a frame that fail are not among the steps; the only error inside a run is a
  line that is not UTF-8.
- FileOrder.SliceIsFirstRowsIff: the second direction is for lines that are all UTF-8.
- ParallelLaws.ParallelRefinesSequential: for lines with the same keys `WorkerFrames.SameFrameIffAlike` gives both
  directions; lines with different keys can agree too (a missing date is null on both sides, and a predicate or a
  projection may drop what differs), and those texts are not singled out.
- SlicedLaws.AlignedSliceIff: when there is something to choose, rows that are not the first ones may still be equal
  to them; that case is not singled out.
- RaggedScan.RaggedScanIs: scans with a slice, chunks whose first accepted line has no key, and lines that repeat a key.
- BatchLaws.BatchSizeLeavesNoTraceIff: without `aligned_cols_cnt`, which looks at the first row of each batch and
  so does depend on the batch size.
