# VibeRAG chunker and command line, in Dafny

VibeRAG is a small retrieval-augmented-generation tool written in Kotlin. Its
`chunk` mode reads a document and cuts it into overlapping chunks, one JSON
line each. Later modes embed those chunks (`embed`) and query them (`search`).
This project models the offline chunking engine and the command-line front end
that picks the mode and settles its options.

The chunking engine takes a text through these steps:

1. `normalize` unifies line endings and turns control characters into spaces.
   It trims every line, collapses runs of three or more `\s` characters, and
   trims the whole text.
2. `splitParagraphs` cuts the text at blank lines.
3. The paragraphs are joined again with `"\n\n"`.
4. `splitSentencesWithOffsets` scans the joined text for sentence ends:
   `. ! ? …` and the ideographic full stop, except between two digits, and
   every newline. It records each trimmed sentence with an offset. It then
   merges runs of short neighbouring sentences into units of at most 60
   characters. A sentence longer than 60 characters stays a unit of its own,
   whatever its length.
5. `detectSections` marks every paragraph whose first line looks like a heading.
6. `makeChunks` packs units greedily into chunks of about `targetLen`
   characters. Each chunk after the first starts far enough back to re-read
   about `overlap` characters. Each chunk is labelled with the heading in force
   at its start (`currentSection`).

The command line parses `--key=value` arguments (`parseArgs`) and checks file
paths (`validateFilePath`). It then dispatches on `--mode`.

The model keeps the source's own shape:

- Each loop of the source is a `method` with a loop. It is proved equal
  to a recursive specification function, for example:
  - `Chunker.MakeChunks` against `Chunker.ChunksOf`;
  - `SentenceScan.ScanSentences` against `SentenceScan.Scan`;
  - `SentenceMerge.MergeShortSentences` against `SentenceMerge.Units`.
- The properties are then proved about those functions as lemmas.
- A loop nested inside another is its own method: `Chunker.PackSentences`,
  `Chunker.Rewind`, `SentenceScan.ScanStep` and `SentenceScan.FlushBuffer`.
  So is a heading loop written for any heading test, `Sections.CollectMarkers`.
- Several specification functions take the one step they call as a function
  parameter: the heading test `h` of `Sections.MarkersFrom`, and the text
  clean-up `fin` of `Chunker.ChunksFrom`. This keeps the lemmas about the loop
  apart from the lemmas about that step. The source's own step (`HeadingOf`,
  `Trim`) is what `SectionsOf` and `ChunksOf` pass.

Modules follow the source's structure:

| module | file | models |
|---|---|---|
| `KotlinStd` | kotlin_std.dfy | the library calls the core relies on: `trim`, `lines`, `joinToString`, `toIntOrNull`, `"%05d"` |
| `Normalizer` | normalizer.dfy | `normalize` |
| `Paragraphs` | paragraphs.dfy | `splitParagraphs` |
| `Spans` | spans.dfy | index ranges shared by the scan and the merge |
| `SentenceScan` | sentence_scan.dfy | the boundary scan and `flush` of `splitSentencesWithOffsets` |
| `SentenceMerge` | sentence_merge.dfy | the short-sentence merge of `splitSentencesWithOffsets` |
| `Sentences` | sentences.dfy | `splitSentencesWithOffsets` as a whole |
| `Sections` | sections.dfy | `detectSections`, `currentSection` |
| `ChunkRecord` | chunk_record.dfy | the `Chunk` record and its id |
| `Chunker` | chunker.dfy | `makeChunks` |
| `ChunkFacts` | chunk_facts.dfy | what `makeChunks` guarantees |
| `Pipeline` | pipeline.dfy | `chunkText` without its file I/O |
| `Cli` | cli.dfy | `parseArgs`, `validateFilePath`, the mode dispatch of `main` |

Sentence offsets are modelled as written. `flush` records a sentence at
`endExclusive - t.length`, where `t` is the trimmed buffer. When a buffer ends
in whitespace that `trim()` removes, the recorded offset lies to the right of
where the sentence really starts. The most common case is a sentence ended by a
newline. `SentenceScan.ScanNewlineExample` shows it: in `"ab\ncd"`, `"ab"` is
recorded at offset 1. `SentenceScan.ScanPlaced` states exactly where each
sentence lies relative to its recorded offset. The rest of the model, including
`charStart`/`charEnd` and the section lookup, uses these offsets as the source
computes them.

## Model

| member | source | states |
|---|---|---|
| `KotlinStd.Trim` | src/main/kotlin/viberag/ChunkText.kt:56 | `trim()` gives a slice of its input with no whitespace at either end |
| `KotlinStd.TrimOfTrimmed` | src/main/kotlin/viberag/ChunkText.kt:56 | trimming a string that has no whitespace at its ends changes nothing |
| `KotlinStd.TrimEmptyIff` | src/main/kotlin/viberag/ChunkText.kt:56-57 | a trimmed buffer is empty exactly when the buffer is all whitespace, i.e. exactly when `flush` records nothing |
| `KotlinStd.Lines` | src/main/kotlin/viberag/ChunkText.kt:43 | `lines()` gives at least one line, and no line holds `\n` or `\r` |
| `KotlinStd.JoinLinesOfText` | src/main/kotlin/viberag/ChunkText.kt:43 | for a text without carriage returns, joining its `lines()` with `"\n"` gives the text back |
| `KotlinStd.LinesOfJoin` | src/main/kotlin/viberag/ChunkText.kt:43 | splitting lines joined by `"\n"` gives those lines back when none holds a line break |
| `KotlinStd.Pad5` | src/main/kotlin/viberag/ChunkText.kt:152 | `%05d` writes only digits, at least five of them, and their decimal value is the number |
| `KotlinStd.DecimalValue` | src/main/kotlin/viberag/ChunkText.kt:152 | the decimal digits of `n` read back as `n` |
| `KotlinStd.ToIntOrNull` | src/main/kotlin/viberag/Main.kt:27 | `toIntOrNull()` reads an optional sign and ASCII digits, and only gives values that fit in a 32-bit `Int` |
| `KotlinStd.IntRoundTrip` | src/main/kotlin/viberag/Main.kt:27 | every 32-bit integer written in decimal is read back by `toIntOrNull()` |
| `KotlinStd.NotANumber` | src/main/kotlin/viberag/Main.kt:27 | a string with a character that is neither an ASCII digit nor a leading sign gives null |
| `Normalizer.ReplaceCr` | src/main/kotlin/viberag/ChunkText.kt:38 | `replace("\r", "\n")` leaves no carriage return and changes no other character |
| `Normalizer.ReplaceCrLfNoCr` | src/main/kotlin/viberag/ChunkText.kt:38 | `replace("\r\n", "\n")` leaves a text without carriage returns unchanged |
| `Normalizer.UnifyLineEndsFacts` | src/main/kotlin/viberag/ChunkText.kt:38 | after both replacements no carriage return is left, and every visible character is kept in order |
| `Normalizer.Decontrol` | src/main/kotlin/viberag/ChunkText.kt:40 | each character becomes a newline or a character of code 0x20 or more, and stays visible exactly when it was |
| `Normalizer.ControlsToSpaces` | src/main/kotlin/viberag/ChunkText.kt:39-41 | the control-character loop keeps the length and maps each character on its own: newlines and characters from 0x20 up stay, every other character becomes a space |
| `Normalizer.StripControls` | src/main/kotlin/viberag/ChunkText.kt:39-41 | the `buildString` loop maps each character by `Decontrol`; its output holds no control character but newlines and keeps the visible characters |
| `Normalizer.ControlsToSpacesOfPrintable` | src/main/kotlin/viberag/ChunkText.kt:39-41 | a text already free of control characters passes the loop unchanged |
| `Normalizer.CollapseRuns` | src/main/kotlin/viberag/ChunkText.kt:43 | definition: each maximal run of `\s` characters three or more long becomes one space, shorter runs and other characters are kept |
| `Normalizer.CollapseRunsNoLongRuns` | src/main/kotlin/viberag/ChunkText.kt:43 | after `replace(Regex("\\s{3,}"), " ")` no three `\s` characters stand in a row, and a first character that is not `\s` is kept |
| `Normalizer.CollapseRunsVisible` | src/main/kotlin/viberag/ChunkText.kt:43 | collapsing runs keeps every visible character, in order |
| `Normalizer.CollapseRunsFixed` | src/main/kotlin/viberag/ChunkText.kt:43 | a text with no run of three `\s` characters is left unchanged by the collapse |
| `Normalizer.CleanLineFacts` | src/main/kotlin/viberag/ChunkText.kt:43 | trimming and collapsing a line gives a clean line (trimmed, printable, no long run) with the same visible characters |
| `Normalizer.CleanLineOfClean` | src/main/kotlin/viberag/ChunkText.kt:43 | cleaning a clean line changes nothing |
| `Normalizer.TrimStartJoin` | src/main/kotlin/viberag/ChunkText.kt:43 | `trimStart` of trimmed lines joined by newlines just drops the leading blank lines |
| `Normalizer.TrimEndJoin` | src/main/kotlin/viberag/ChunkText.kt:43 | `trimEnd` of trimmed lines joined by newlines just drops the trailing blank lines |
| `Normalizer.TrimJoin` | src/main/kotlin/viberag/ChunkText.kt:43 | the final `trim()` of the joined clean lines is again a join of clean lines |
| `Normalizer.NormalizedText` | src/main/kotlin/viberag/ChunkText.kt:36-44 | definition: `normalize` after NFKC is unify line ends, map controls to spaces, clean each line, join with newlines, trim |
| `Normalizer.Normalize` | src/main/kotlin/viberag/ChunkText.kt:36-44 | the normalized text is trimmed, has no control character but newlines, consists of clean lines, and keeps every visible character of the input in order |
| `Normalizer.NormalizedTextFacts` | src/main/kotlin/viberag/ChunkText.kt:36-44 | the same four facts, for the specification function |
| `Normalizer.NormalizedFixpoint` | src/main/kotlin/viberag/ChunkText.kt:36-44 | a text that already has those facts is its own normalization |
| `Normalizer.NormalizeIdempotent` | src/main/kotlin/viberag/ChunkText.kt:36-44 | normalizing twice gives the same as normalizing once |
| `Paragraphs.Pieces` | src/main/kotlin/viberag/ChunkText.kt:47 | `split(Regex("\\n{2,}"))` gives at least one piece; the first is a prefix of the text, and no piece holds a blank line |
| `Paragraphs.KeepTrimmed` | src/main/kotlin/viberag/ChunkText.kt:47 | the `map { trim }` / `filter { isNotEmpty }` step keeps only non-empty, trimmed pieces without blank lines |
| `Paragraphs.SplitParagraphs` | src/main/kotlin/viberag/ChunkText.kt:46-47 | every paragraph is non-empty, trimmed and holds no blank line |
| `Paragraphs.SplitParagraphsKeepsInk` | src/main/kotlin/viberag/ChunkText.kt:46-47 | splitting loses only whitespace: the paragraphs hold every non-whitespace character of the text, in the original order |
| `Paragraphs.PiecesOfJoin` | src/main/kotlin/viberag/ChunkText.kt:47 | paragraphs joined with `"\n\n"` split back into exactly those paragraphs |
| `Paragraphs.SplitParagraphsOfJoin` | src/main/kotlin/viberag/ChunkText.kt:46-47 | `splitParagraphs` of paragraphs joined with `"\n\n"` returns those paragraphs |
| `Paragraphs.SplitParagraphsIdempotent` | src/main/kotlin/viberag/ChunkText.kt:46-47 | re-splitting the rejoined paragraphs (what `chunkText` hands on) gives the same paragraphs |
| `SentenceScan.SegmentsFrom` | src/main/kotlin/viberag/ChunkText.kt:63-79 | the buffers the scan flushes are contiguous, lie in the text, and cover it from the buffer start to its end |
| `SentenceScan.IsBoundary` | src/main/kotlin/viberag/ChunkText.kt:66-75 | definition: a sentence ends at `.`, `!`, `?`, `…` or `。` unless both neighbours are digits (a missing neighbour is NUL), and at every newline |
| `SentenceScan.TrimSpanIsTrim` | src/main/kotlin/viberag/ChunkText.kt:56 | the trimmed buffer is the text between the first and the last non-whitespace character of the buffer |
| `SentenceScan.FlushIsTrim` | src/main/kotlin/viberag/ChunkText.kt:55-62 | `flush(e)` records nothing for a blank buffer, else the trimmed buffer `t` at offset `e - t.length` |
| `SentenceScan.FlushBuffer` | src/main/kotlin/viberag/ChunkText.kt:55-62 | the method appends to `out` and `ofs` exactly what `flush` records |
| `SentenceScan.ScanFromStep` | src/main/kotlin/viberag/ChunkText.kt:64-77 | a boundary at `i` moves the buffer up to `i + 1` into the recorded sentences; any other character only grows the buffer |
| `SentenceScan.ScanStep` | src/main/kotlin/viberag/ChunkText.kt:64-77 | one turn of the scan loop keeps the recorded sentences plus what remains to be scanned unchanged |
| `SentenceScan.ScanSentences` | src/main/kotlin/viberag/ChunkText.kt:52-79 | the scan loop and the final `flush(s.length)` return the texts and offsets of `Scan(s)` |
| `SentenceScan.ScanFromIsFlushAll` | src/main/kotlin/viberag/ChunkText.kt:63-79 | the scan is the same as flushing each boundary-delimited buffer in turn |
| `SentenceScan.ScanWellFormed` | src/main/kotlin/viberag/ChunkText.kt:55-79 | every scanned sentence is non-empty, trimmed and inside the text, and each ends before the next starts |
| `SentenceScan.ScanInk` | src/main/kotlin/viberag/ChunkText.kt:63-79 | the scanned sentences hold exactly the non-whitespace characters of the text, in order |
| `SentenceScan.ScanShape` | src/main/kotlin/viberag/ChunkText.kt:67-75 | no sentence holds a newline, and a sentence-end character inside a sentence sits between two digits |
| `SentenceScan.ScanPlaced` | src/main/kotlin/viberag/ChunkText.kt:59 | each sentence lies in the text ending just before the whitespace run that precedes `offset + length`, so the offset is exact when no whitespace precedes that point |
| `SentenceScan.ScanNewlineExample` | src/main/kotlin/viberag/ChunkText.kt:59 | `"ab\ncd"` scans to `"ab"` at 1 and `"cd"` at 3: a newline-ended sentence's offset is one past its start |
| `SentenceScan.DecimalPointExample` | src/main/kotlin/viberag/ChunkText.kt:68-71 | the dot in `"3.14."` does not end a sentence; only the final dot does |
| `SentenceScan.ScanEmpty` | src/main/kotlin/viberag/ChunkText.kt:63-79 | an empty text scans to no sentence |
| `SentenceScan.OneSentence` | src/main/kotlin/viberag/ChunkText.kt:63-79 | a text with no boundary before its last character is flushed as one buffer |
| `SentenceScan.FlushWhole` | src/main/kotlin/viberag/ChunkText.kt:79 | flushing a whole non-blank text records its trimmed form at `length - trimmed length` |
| `SentenceMerge.GroupEnd` | src/main/kotlin/viberag/ChunkText.kt:90 | a unit being merged ends at or after the next sentence and within the list |
| `SentenceMerge.GroupsFrom` | src/main/kotlin/viberag/ChunkText.kt:86-97 | the merge cuts the sentences into contiguous, non-empty groups that cover the whole list |
| `SentenceMerge.Units` | src/main/kotlin/viberag/ChunkText.kt:82-98 | definition: each merged unit is a group of consecutive sentences joined with a space |
| `SentenceMerge.UnitStarts` | src/main/kotlin/viberag/ChunkText.kt:82-98 | definition: each merged unit's offset is the offset of its first sentence |
| `SentenceMerge.FoldStep` | src/main/kotlin/viberag/ChunkText.kt:88-95 | the three branches of the merge loop: start a unit, extend it with a space and the sentence, or emit it and start a new one |
| `SentenceMerge.FoldIsUnits` | src/main/kotlin/viberag/ChunkText.kt:84-97 | the texts the merge loop emits are the groups' sentences joined by spaces |
| `SentenceMerge.FoldIsUnitStarts` | src/main/kotlin/viberag/ChunkText.kt:85-97 | the offsets the merge loop emits are those of each group's first sentence |
| `SentenceMerge.MergeShortSentences` | src/main/kotlin/viberag/ChunkText.kt:82-98 | the merge loop returns the units and their offsets |
| `SentenceMerge.GroupBounds` | src/main/kotlin/viberag/ChunkText.kt:90-94 | a unit of two or more sentences is at most 60 characters, and a unit stops only when the next sentence would take it past 60 |
| `SentenceMerge.MergeKeepsContent` | src/main/kotlin/viberag/ChunkText.kt:82-98 | merging loses nothing: the units joined by spaces equal the sentences joined by spaces |
| `SentenceMerge.GroupsOrdered` | src/main/kotlin/viberag/ChunkText.kt:93-94 | the groups' first sentences come in strictly increasing order |
| `SentenceMerge.MergeKeepsOrder` | src/main/kotlin/viberag/ChunkText.kt:93-97 | one offset per unit, and strictly increasing sentence offsets give strictly increasing unit offsets |
| `SentenceMerge.MergeSingle` | src/main/kotlin/viberag/ChunkText.kt:85-97 | a single sentence is a single unit at its own offset |
| `Sentences.SplitSentencesWithOffsets` | src/main/kotlin/viberag/ChunkText.kt:49-99 | the method returns the merged units of the scan and their offsets |
| `Sentences.SentencesOrdered` | src/main/kotlin/viberag/ChunkText.kt:49-99 | as many offsets as sentences, and the offsets strictly increase |
| `Sentences.OffsetsInside` | src/main/kotlin/viberag/ChunkText.kt:49-99 | every offset lies in `[0, s.length)` |
| `Sentences.SentencesTrimmed` | src/main/kotlin/viberag/ChunkText.kt:56-91 | every returned sentence is non-empty and trimmed |
| `Sentences.SentencesKeepInk` | src/main/kotlin/viberag/ChunkText.kt:49-99 | the sentences hold exactly the non-whitespace characters of the text, in order |
| `Sentences.SentencesOfEmpty` | src/main/kotlin/viberag/ChunkText.kt:49-99 | an empty text gives two empty lists |
| `Sentences.SingleSentence` | src/main/kotlin/viberag/ChunkText.kt:63-79 | a non-blank text with no boundary before its last character is one sentence, its trimmed form, at `length - trimmed length` |
| `Sentences.SingleUnit` | src/main/kotlin/viberag/ChunkText.kt:85-97 | a text that scans to one sentence returns exactly that sentence and offset |
| `Sections.FirstLineOneLine` | src/main/kotlin/viberag/ChunkText.kt:105 | the trimmed first line holds no line break |
| `Sections.IsNumberedHeading` | src/main/kotlin/viberag/ChunkText.kt:108 | definition: digits, then groups of a dot and digits, then whitespace, then at least one character, with no line break |
| `Sections.IsPlainHeading` | src/main/kotlin/viberag/ChunkText.kt:109 | definition: a Hangul syllable, ASCII letter or ASCII digit followed by at most 78 characters, with no line break |
| `Sections.LooksHeading` | src/main/kotlin/viberag/ChunkText.kt:106-109 | definition: the first line is 2 to 80 characters long and is a numbered or a plain heading |
| `Sections.Take` | src/main/kotlin/viberag/ChunkText.kt:110 | `take(n)` gives a prefix of at most `n` characters, the whole string when it is short enough |
| `Sections.TakeKeepsHeading` | src/main/kotlin/viberag/ChunkText.kt:107-110 | a heading has at most 80 characters, so `take(120)` keeps all of it |
| `Sections.HeadingOfFacts` | src/main/kotlin/viberag/ChunkText.kt:105-110 | a paragraph announces a heading exactly when its trimmed first line passes the heading test; the heading is that line, 2 to 80 characters, trimmed |
| `Sections.HeadingOf` | src/main/kotlin/viberag/ChunkText.kt:105-110 | definition: a paragraph announces its trimmed first line, cut to 120 characters, when that line looks like a heading, and nothing otherwise |
| `Sections.NumberedExample` | src/main/kotlin/viberag/ChunkText.kt:108 | `"1.2 Scope"` passes the numbered-heading test |
| `Sections.ListItemExample` | src/main/kotlin/viberag/ChunkText.kt:108-109 | `"- item"` passes neither heading pattern |
| `Sections.ParaOffset` | src/main/kotlin/viberag/ChunkText.kt:111 | a paragraph after the first starts at least two characters per separator in |
| `Sections.ParaOffsetGrows` | src/main/kotlin/viberag/ChunkText.kt:111 | the paragraph offsets grow by at least each paragraph's length plus 2 |
| `Sections.ParaOffsetInJoin` | src/main/kotlin/viberag/ChunkText.kt:111 | paragraph `k` is found at its computed offset in the paragraphs joined with `"\n\n"`, as the code assumes |
| `Sections.CollectMarkers` | src/main/kotlin/viberag/ChunkText.kt:101-114 | the loop returns one marker per heading paragraph, in paragraph order |
| `Sections.DetectSections` | src/main/kotlin/viberag/ChunkText.kt:101-114 | `detectSections` is that loop with the source's heading test |
| `Sections.MarkersSound` | src/main/kotlin/viberag/ChunkText.kt:104-111 | every marker comes from a heading paragraph and sits at that paragraph's offset |
| `Sections.MarkersComplete` | src/main/kotlin/viberag/ChunkText.kt:104-110 | every heading paragraph contributes its marker |
| `Sections.MarkersOrdered` | src/main/kotlin/viberag/ChunkText.kt:110-111 | at most one marker per paragraph, and the marker offsets strictly increase |
| `Sections.SectionsFacts` | src/main/kotlin/viberag/ChunkText.kt:101-114 | the markers are exactly the heading paragraphs at their offsets, in increasing offset order, each name a trimmed line of 2 to 80 characters |
| `Sections.PrefixAtMost` | src/main/kotlin/viberag/ChunkText.kt:118-120 | the loop of `currentSection` stops within the list |
| `Sections.CurrentFrom` | src/main/kotlin/viberag/ChunkText.kt:116-122 | definition: the loop takes the name of each marker at or before the offset and stops at the first marker after it |
| `Sections.CurrentSection` | src/main/kotlin/viberag/ChunkText.kt:116-122 | the method returns what the loop specification gives |
| `Sections.CurrentSectionFacts` | src/main/kotlin/viberag/ChunkText.kt:116-122 | the result is the last marker of the leading run of markers at or before the offset; null exactly when the first marker lies after it or there is none |
| `Sections.CurrentSectionSorted` | src/main/kotlin/viberag/ChunkText.kt:116-122 | on sorted markers the result is a marker at or before the offset with every later marker after it |
| `Sections.NearestMarker` | src/main/kotlin/viberag/ChunkText.kt:101-122 | for any heading test, the section at an offset is null exactly when no heading paragraph starts at or before it, else the last one that does |
| `Sections.NearestHeading` | src/main/kotlin/viberag/ChunkText.kt:101-122 | `currentSection(t, detectSections(ps))` is the nearest heading at or before `t` |
| `ChunkRecord.ChunkId` | src/main/kotlin/viberag/ChunkText.kt:152 | the id is the document id, a dash and the chunk number in at least five digits (exactly five below 100000) |
| `ChunkRecord.ChunkIdInjective` | src/main/kotlin/viberag/ChunkText.kt:152 | different chunk numbers of one document get different ids |
| `ChunkRecord.ChunkIdExample` | src/main/kotlin/viberag/ChunkText.kt:152 | chunk 7 of `"guide"` is `"guide-00007"` |
| `Chunker.PackFrom` | src/main/kotlin/viberag/ChunkText.kt:140-147 | the inner loop never goes back, and takes at least one sentence into an empty buffer |
| `Chunker.Pack` | src/main/kotlin/viberag/ChunkText.kt:136-147 | every chunk takes at least one sentence |
| `Chunker.BackFrom` | src/main/kotlin/viberag/ChunkText.kt:164-169 | the backward scan stops between `i - 1` and where it began |
| `Chunker.NextStart` | src/main/kotlin/viberag/ChunkText.kt:164-170 | the next chunk starts strictly after the current one and no later than the first sentence not taken, so the outer loop always progresses and ends |
| `Chunker.ChunkAt` | src/main/kotlin/viberag/ChunkText.kt:148-161 | definition: chunk `cid` has id `docId-%05d`, source `docId.txt`, the section in force at its start, and the given text, start and end |
| `Chunker.ChunksFrom` | src/main/kotlin/viberag/ChunkText.kt:132-172 | definition: the outer loop emits a chunk for each packing with non-empty trimmed text, numbering them on from `cid`, and ends once a packing takes the last sentence, otherwise restarting where the overlap rewinds to |
| `Chunker.Emitted` | src/main/kotlin/viberag/ChunkText.kt:148-161 | one packing emits at most one chunk |
| `Chunker.PackSentences` | src/main/kotlin/viberag/ChunkText.kt:136-147 | the inner loop returns the packing of the specification |
| `Chunker.Rewind` | src/main/kotlin/viberag/ChunkText.kt:164-170 | the overlap loop returns the next start of the specification |
| `Chunker.ChunksStep` | src/main/kotlin/viberag/ChunkText.kt:135-171 | one turn of the outer loop emits the chunk of this packing and continues at the next start, or stops after the last sentence |
| `Chunker.MakeChunks` | src/main/kotlin/viberag/ChunkText.kt:124-173 | the method returns the chunks of the specification |
| `ChunkFacts.PackFromStops` | src/main/kotlin/viberag/ChunkText.kt:140-142 | packing stops at the last sentence or before one that does not fit |
| `ChunkFacts.PackFromEnd` | src/main/kotlin/viberag/ChunkText.kt:145 | the end offset is the offset of the last sentence taken plus its length |
| `ChunkFacts.PackFromBound` | src/main/kotlin/viberag/ChunkText.kt:142 | a non-empty buffer within the target stays within it |
| `ChunkFacts.PackFromJoin` | src/main/kotlin/viberag/ChunkText.kt:143-144 | the buffer is always the sentences taken, joined by newlines |
| `ChunkFacts.PackFacts` | src/main/kotlin/viberag/ChunkText.kt:136-147 | a packing is sentences `i..j` joined by newlines, ends where sentence `j - 1` ends, fits the target unless it is one sentence, and the next sentence would not have fit |
| `ChunkFacts.BackFromFacts` | src/main/kotlin/viberag/ChunkText.kt:164-169 | the backward scan stops once it has counted `overlap` characters (length plus one per sentence) or reached sentence `i`, and not earlier |
| `ChunkFacts.NextStartFacts` | src/main/kotlin/viberag/ChunkText.kt:164-170 | the re-read sentences weigh at least `overlap` unless the start is `i + 1`, and one sentence fewer would weigh less |
| `ChunkFacts.NoOverlap` | src/main/kotlin/viberag/ChunkText.kt:166-170 | with `overlap <= 0` the next chunk starts at the first sentence not taken |
| `ChunkFacts.SomeOverlap` | src/main/kotlin/viberag/ChunkText.kt:164-170 | with a positive overlap, after a chunk of two or more sentences the next chunk re-reads at least the last of them |
| `ChunkFacts.ChunksNumbered` | src/main/kotlin/viberag/ChunkText.kt:151-160 | chunks are numbered consecutively, each id made from the document id and its number |
| `ChunkFacts.ChunksShaped` | src/main/kotlin/viberag/ChunkText.kt:148-161 | every chunk comes from a packing at or after the current sentence, with non-empty cleaned text and the document's file name as source |
| `ChunkFacts.ChunksOrdered` | src/main/kotlin/viberag/ChunkText.kt:137-170 | with increasing offsets, chunk starts strictly increase |
| `ChunkFacts.TrimPacked` | src/main/kotlin/viberag/ChunkText.kt:148 | on non-empty trimmed sentences the final `trim()` leaves the packed text as it is |
| `ChunkFacts.WindowText` | src/main/kotlin/viberag/ChunkText.kt:136-158 | a chunk holds consecutive sentences joined by newlines, from the start of the first to the end of the last, within the target unless it is one sentence |
| `ChunkFacts.ChunksText` | src/main/kotlin/viberag/ChunkText.kt:124-173 | every chunk is such a window of consecutive sentences |
| `ChunkFacts.WindowSpan` | src/main/kotlin/viberag/ChunkText.kt:145-158 | a window's end lies after its start |
| `ChunkFacts.ChunksSpan` | src/main/kotlin/viberag/ChunkText.kt:124-173 | every chunk ends after it starts, and chunk starts strictly increase |
| `ChunkFacts.ChunksReachEnd` | src/main/kotlin/viberag/ChunkText.kt:135-171 | when every packing has text, the loop stops after emitting the chunk packed up to the last sentence, so that chunk is the last one |
| `ChunkFacts.LastChunk` | src/main/kotlin/viberag/ChunkText.kt:124-173 | there are chunks exactly when there are sentences, and the last chunk is a window of consecutive sentences ending with the last one: their text joined by newlines, from the start of the first to the end of the last sentence, within the target unless it is one sentence |
| `ChunkFacts.PacksNonEmpty` | src/main/kotlin/viberag/ChunkText.kt:148-149 | on non-empty trimmed sentences every packing has non-empty trimmed text, so every packing emits a chunk |
| `ChunkFacts.PackedIsWindow` | src/main/kotlin/viberag/ChunkText.kt:136-158 | a chunk packed from sentence `x` that takes the last sentence holds sentences `x..` to the end joined by newlines and ends where the last sentence ends |
| `ChunkFacts.ChunkFields` | src/main/kotlin/viberag/ChunkText.kt:148-161 | chunk `k` has number `k`, its id, source `docId.txt`, non-empty trimmed text, and the section in force at its start |
| `Pipeline.ChunkText` | src/main/kotlin/viberag/ChunkText.kt:11-27 | the pipeline method returns the chunks of the specification |
| `Pipeline.SentencesFit` | src/main/kotlin/viberag/ChunkText.kt:18-26 | the sentences handed to `makeChunks` meet what its lemmas need: matching lengths, non-empty trimmed texts, increasing offsets |
| `Pipeline.TextChunksFields` | src/main/kotlin/viberag/ChunkText.kt:11-27 | every written chunk is numbered in order with its id and source, has non-empty trimmed text, and ends after it starts; starts increase |
| `Pipeline.TextChunksSections` | src/main/kotlin/viberag/ChunkText.kt:14-26 | every chunk's section is the nearest heading at or before its start |
| `Pipeline.TextChunksWindows` | src/main/kotlin/viberag/ChunkText.kt:15-26 | every chunk is a window of consecutive sentences, within `targetLen` unless it is one sentence |
| `Pipeline.TextChunksLast` | src/main/kotlin/viberag/ChunkText.kt:18-26 | the text has chunks exactly when it has sentences, and the last chunk is the window of consecutive sentences that ends with the last one, ending where it ends |
| `Cli.FirstEq` | src/main/kotlin/viberag/Main.kt:108 | finds the first `=`, or reports that there is none |
| `Cli.EntryOf` | src/main/kotlin/viberag/Main.kt:107-117 | definition: an argument is ignored unless it is `--`, a key, `=` and a value; a value in matching quotes loses them, and one lone quote throws |
| `Cli.ParamsFrom` | src/main/kotlin/viberag/Main.kt:106-120 | definition: the loop applies each argument in turn, later keys overwriting earlier ones, and stops at the first that throws |
| `Cli.ParamsOf` | src/main/kotlin/viberag/Main.kt:103-123 | definition: `parseArgs` runs that loop from an empty map |
| `Cli.ParseArgs` | src/main/kotlin/viberag/Main.kt:103-123 | the loop returns the specification's map or error |
| `Cli.ParamsLastWins` | src/main/kotlin/viberag/Main.kt:117 | each key maps to the value of the last argument that set it |
| `Cli.ParamsThrows` | src/main/kotlin/viberag/Main.kt:113-117 | `parseArgs` throws exactly when some argument's value is a lone quote character |
| `Cli.IgnoredArg` | src/main/kotlin/viberag/Main.kt:107-109 | an argument without `--`, or without `=` after it, is ignored |
| `Cli.EntrySplit` | src/main/kotlin/viberag/Main.kt:108-111 | a key-setting argument is `--`, the key, `=` and the value, with no `=` in the key |
| `Cli.EntryRoundTrip` | src/main/kotlin/viberag/Main.kt:108-117 | `--key=value` gives the key and the value back, with one pair of outer quotes removed |
| `Cli.FirstEqAfter` | src/main/kotlin/viberag/Main.kt:108 | the split happens at the `=` after the key, even when the value holds `=` |
| `Cli.QuotesStripped` | src/main/kotlin/viberag/Main.kt:113-116 | a value in matching double or single quotes is unquoted |
| `Cli.MismatchedQuotes` | src/main/kotlin/viberag/Main.kt:113-116 | mismatched quotes are kept |
| `Cli.LoneQuote` | src/main/kotlin/viberag/Main.kt:113-115 | a value that is one quote character alone throws |
| `Cli.ValidateFilePath` | src/main/kotlin/viberag/Main.kt:126-141 | an accepted path is non-empty, has no NUL and no `..`, and gives its canonical file |
| `Cli.ValidateFilePathIff` | src/main/kotlin/viberag/Main.kt:126-141 | a path is accepted exactly when it passes the string checks and can be made canonical |
| `Cli.ParentRefused` | src/main/kotlin/viberag/Main.kt:130 | any path containing `..` is refused, whatever the file system says |
| `Cli.IntOption` | src/main/kotlin/viberag/Main.kt:27-28 | definition: an integer option is its `toIntOrNull()` value, or the default when absent or not an integer |
| `Cli.TextOption` | src/main/kotlin/viberag/Main.kt:26 | definition: a text option is its value, or the default when absent |
| `Cli.IntOptionRoundTrip` | src/main/kotlin/viberag/Main.kt:27 | a 32-bit integer written in decimal is read back as itself |
| `Cli.ChunkDefaults` | src/main/kotlin/viberag/Main.kt:15-44 | chunking runs only in mode `chunk`, with both paths given, accepted and the input present; docId defaults to `myDocument`, targetLen to 1000, overlapSize to 150 |
| `Cli.EmbedRequires` | src/main/kotlin/viberag/Main.kt:46-66 | embedding runs only in mode `embed` with the chunk file and docId given, the path accepted and the file present |
| `Cli.SearchDefaults` | src/main/kotlin/viberag/Main.kt:80-91 | a search takes the query, the optional docId filter, and topK defaulting to 5 |
| `Cli.ChunkMode` | src/main/kotlin/viberag/Main.kt:15-45 | definition: the chunk branch checks `input`, `output`, both paths and that the input exists, in that order, and otherwise chunks with the defaulted options |
| `Cli.EmbedMode` | src/main/kotlin/viberag/Main.kt:46-79 | definition: the embed branch checks `chunks`, `docId`, the path and that the file exists, in that order, and otherwise embeds |
| `Cli.SearchMode` | src/main/kotlin/viberag/Main.kt:80-95 | definition: the search branch needs `query`, and takes the optional docId and topK defaulting to 5 |
| `Cli.Dispatch` | src/main/kotlin/viberag/Main.kt:14-100 | definition: `main` picks the branch by the `mode` option, and any other mode, or none, prints the unknown-mode error and exits |
| `Cli.MainAction` | src/main/kotlin/viberag/Main.kt:10-100 | definition: `main` dispatches on the parsed options, or ends with the exception `parseArgs` throws |
| `Cli.ModeDispatch` | src/main/kotlin/viberag/Main.kt:14-100 | each mode runs only when named, and any other mode, or none, gives the unknown-mode error |
| `Cli.DispatchExample` | src/main/kotlin/viberag/Main.kt:15-44 | `--mode=chunk` with two accepted paths chunks with docId `myDocument`, 1000 and 150 |

## Left out

- Reading the input file and writing one JSON line per chunk (src/main/kotlin/viberag/ChunkText.kt:12, 28-33, 176-177) are file I/O. `Pipeline.ChunkText` returns the chunks instead. The JSON encoding of `Chunk` is not modelled.
- The NFKC step of `normalize` (src/main/kotlin/viberag/ChunkText.kt:37) is Unicode normalization. The model's input is the text after that step.
- Kotlin `Int` is 32 bits. Offsets, lengths, `cid`, `back` and `offset` are unbounded integers here, so overflow on texts longer than 2^31 characters is not modelled.
- Strings are sequences of characters. A character outside the Basic Multilingual Plane counts as one character here and as two UTF-16 units in Kotlin's `length`.
- ChunkRecord.ChunkId: the model assumes a default JVM locale whose zero digit is '0'. `String.format` writes the `%05d` digits, padding zeros included, from the default format locale, so on a JVM whose locale uses other digits (fa-IR, ar-EG) the id of chunk 7 of "guide" holds those digits instead of "00007"; `ChunkRecord.ChunkIdExample` holds only for the assumed locale.
- KotlinStd.Pad5: writes ASCII digits, the digits of a default locale whose zero digit is '0'; other locales' digits are not modelled.
- KotlinStd.ToIntOrNull: reads only ASCII digits. Kotlin's `toIntOrNull()` also reads other Unicode decimal digits, so an option value such as `--targetLen=٥٠٠` (Arabic-Indic digits) gives 500 in Kotlin but falls back to the default here (`Cli.IntOption`).
- KotlinStd.NotANumber: "not a digit" means not an ASCII digit; a value made of other Unicode decimal digits is a number in Kotlin.
- KotlinStd.IsDigit: only the ASCII digits. Kotlin's `isDigit()` also accepts other Unicode decimal digits, so the "between two digits" rule of the sentence scan is narrower here.
- The regular expressions of `normalize`, `splitParagraphs` and the heading test are written out as predicates and recursive functions, not as a regex engine.
- `File(path).canonicalFile` and `File.exists()` depend on the file system. They are the parameters `canonical` (`None` where it throws) and `present`.
- The `embed` and `search` modes call the Ollama and Qdrant services over the network (`EmbedAndUpsert.kt`, `QuerySearch.kt`, `service/`, `data/Ollama.kt`, `data/Qdrant.kt`). The model stops at the `Cli.Action` that `main` would run, with its options settled. Those files are not part of this model.
- Printing an error and `exitProcess(1)` become the action `Exit(message)`. The exception `parseArgs` throws on a lone-quote value becomes `Failure(IndexError)`.
