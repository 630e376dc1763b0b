# StepMania `.ssc` chart player — a Dafny model

This project models the core of a small Java program that reads a
StepMania `.ssc` chart and plays it on a Launchpad-style 8×8 button grid.
Four lanes of arrows scroll through eight rows of coloured buttons. The
model covers the following parts.

- **Reader** (`reader.dfy`) models the character reader of `SSCParser`.
  - It drops `\r` and `\n` and counts each `\n` as a line.
  - It elides `//` line comments, using one character of push-back to
    tell `/` from `//`.
  - It returns U+FFFF for ever once the text is exhausted.
  - `#KEY:VALUE;` pairs are read on top of it.
  - The Java loops that never end (a key or value still open at the end
    of the text, or a comment with no line break) are explicit outcomes
    (`None`, `Hangs`), not silent failures.
- **Parser** (`parser.dfy`) models `SSCParser` as a class.
  - The class holds the reader position, the push-back stack, the line
    counter, the song and the list of charts.
  - Beside the class are the pure functions its methods are proved
    against: the global block up to `ATTACKS`, one block per chart up to
    `NOTES`, the song metadata, the chart's header and the `#BPMS` time
    course.
  - Module `ParserProperties` holds the lemmas about these functions.
- **Notes** (`notes.dfy`) models note parsing in two parts.
  - Every bar is placed on a 192-ticks-per-bar grid, at a spacing of
    `192 / resolution` ticks per row.
  - Each hold or roll head is then expanded to a body that runs to the
    next tail.
  - The Java code works in place on a `byte[][]`. The model keeps an
    `array2<Byte>` and proves the methods against pure functions on
    sequences.
- **Time course** (`timecourse.dfy`) models `TimeCourse`.
  - It is a class with two parallel sorted sequences, the change positions
    and their tempos.
  - A binary search inserts a new change or overwrites an existing one.
  - `GetBPM` finds the change at or before a position.
- **Chart** (`chart.dfy`) covers the chart's enums, the chart as a value,
  `getState`, `getBPM` with its fall-back to the song's time course, and
  `getOffset` with its fall-back to the song's offset.
- **Playback** (`game.dfy`) models `Game` as a class.
  - The class holds the chart, the 8×4 display, the tick counter and the
    timer/preparing flags.
  - Colour selection is by rhythmic position.
  - The redraw scrolls the display and paints the newest row. Every 12th
    tick triggers a redraw.
  - The start sequence orders the music clip and the notes timer by the
    chart's offset.

Java `byte` is the newtype `Base.Byte`. The Java `int` cast of
`Math.round` is written out as 32-bit wrap-around (`Numbers.Wrap32`).
Java exceptions are values of `Base.Fault`, carried in a `Result`.

## Model

| member | source | states |
|---|---|---|
| Base.JavaSplit | SSCParser.java:95-96 | no piece of `String.split` contains the delimiter, and when the text has one, trailing empty pieces are dropped |
| Numbers.ParseDouble | SSCParser.java:97 | a number that cannot be read fails with NumberFormatException naming the text |
| Numbers.ParseInt | SSCParser.java:83 | a parsed `#METER` is a 32-bit int; a missing or malformed one fails with NumberFormatException naming the input |
| Numbers.Wrap32 | SSCParser.java:97 | the `(int)` cast gives a value in int range, congruent to the long modulo 2^32, and leaves in-range values alone |
| Numbers.Round | SSCParser.java:97 | `Math.round` gives the long nearest x (ties up), saturated at the long bounds |
| TimeCourses.BinarySearch | TimeCourse.java:15 | `Arrays.binarySearch` either finds the key or returns `-(insertion point)-1`, where the insertion point splits smaller from larger entries |
| TimeCourses.BpmAt | TimeCourse.java:25-28 | a lookup fails, with index -1, exactly when every change lies after the position; otherwise it gives the tempo of the last change, in list order, at or before the position |
| TimeCourses.SetChange | TimeCourse.java:14-23 | an update keeps the lists of equal length, makes the position a change point and adds at most one entry (`SetChangeLayout` and `SetChangePairs` state where and what) |
| TimeCourses.TimeCourse.constructor | TimeCourse.java:9-12 | a new time course has a single change, the initial tempo at position 0 |
| TimeCourses.TimeCourse.SetBpmChange | TimeCourse.java:14-23 | the arrays become `SetChange(old, position, bpm)` and stay strictly increasing with position 0 present |
| TimeCourses.TimeCourse.GetBPM | TimeCourse.java:25-28 | the answer is the tempo of the last change at or before the position |
| TimeCourses.LastAtOrBelowCharacterized | TimeCourse.java:26-27 | the lookup index is i exactly when every earlier position is at or below p and every later one above it |
| TimeCourses.CountBelowCharacterized | TimeCourse.java:15-17 | the insertion point is the number of positions below p |
| TimeCourses.StepFunction | TimeCourse.java:25-28 | between two consecutive changes the tempo is the earlier change's value |
| TimeCourses.BpmDefinedFrom | TimeCourse.java:25-28 | a lookup fails exactly before the first change, so it never fails from position 0 on |
| TimeCourses.SetChangeWellFormed | TimeCourse.java:14-23 | inserting or overwriting keeps the positions strictly increasing and the lists of equal length, and the new position is present |
| TimeCourses.InsertSorted | TimeCourse.java:16-19 | inserting at the binary-search insertion point keeps the positions strictly increasing and loses none |
| TimeCourses.CountBelowSplits | TimeCourse.java:15-17 | the insertion point divides the positions below p from those at or above it |
| TimeCourses.SetChangeLayout | TimeCourse.java:14-23 | the entries before the insertion point are kept, the change sits at it, and the later entries are kept or shifted by one |
| TimeCourses.SetChangePairs | TimeCourse.java:14-23 | the set of (position, tempo) changes loses any old change at p and gains (p, bpm); the length grows exactly when p is new |
| TimeCourses.OverwritePairs | TimeCourse.java:20-22 | overwriting an existing position replaces only its tempo |
| TimeCourses.InsertPairs | TimeCourse.java:16-19 | inserting a new position adds only the new change |
| TimeCourses.SetThenGet | TimeCourse.java:14-28 | after a change at p, a lookup at q gives the new tempo when p is the last change at or before q, and otherwise the old answer |
| TimeCourses.GetAtNewChange | TimeCourse.java:14-28 | a lookup in the new change's range gives its tempo |
| TimeCourses.GetAfterOverwrite | TimeCourse.java:20-28 | an overwrite leaves lookups outside its range unchanged |
| TimeCourses.GetBeforeInsert | TimeCourse.java:16-28 | an insertion leaves lookups before it unchanged |
| TimeCourses.GetPastInsert | TimeCourse.java:16-28 | an insertion leaves lookups past the next change unchanged |
| Notes.NoteCharToByte | SSCParser.java:135-149 | a character outside the table fails with the character and the current line |
| Notes.NoteSymbolTable | SSCParser.java:135-149 | `0`-`4`, `M`, `K`, `L`, `F` map to codes 0-4, 6, 7, 8, 9; any character up to `4` is accepted, and one below `0` gives a negative code |
| Notes.LastRowAt | SSCParser.java:109-113 | the row found for a tick is in the bar and lands exactly on that tick |
| Notes.FirstBad | SSCParser.java:110-111 | the first rejected character is absent exactly when every character is a note symbol, and is a non-symbol of the text otherwise |
| Notes.TailIndex | SSCParser.java:123-126 | the forward scan stops at the first tail code, or finds none |
| Notes.ExpandLane | SSCParser.java:118-130 | an expanded lane keeps its length (`ExpandKeepsTails`, `ExpandCells` and `ExpandFailsIff` state what it writes and when it fails) |
| Notes.ExpandKeepsTails | SSCParser.java:122-126 | expansion leaves every tail in place and writes nothing but the original cell or a body code (3 for a hold, 5 for a roll) |
| Notes.PlacedGrid | SSCParser.java:104-116 | the placed grid has 192 ticks per bar and four lanes |
| Notes.ExpandGrid | SSCParser.java:118-130 | the expanded grid has the shape of the placed one |
| Notes.RowLandsAlone | SSCParser.java:112 | with positive spacing, row i of a bar lands on tick spacing·i |
| Notes.NoRowLands | SSCParser.java:112 | a tick that no row lands on is left alone |
| Notes.BarRowsPlaced | SSCParser.java:108-113 | for a resolution of at most 192, row i lands on tick (192/resolution)·i of its bar with that row's codes |
| Notes.BarGapsEmpty | SSCParser.java:104-113 | the ticks between rows stay empty |
| Notes.OverfullBar | SSCParser.java:108-112 | a bar of more than 192 rows has spacing 0, so all rows land on tick 0, the last one wins, and every other tick is empty |
| Notes.ExpandFailsIff | SSCParser.java:122-126 | a lane fails to expand exactly when it has a hold or roll head with no later tail |
| Notes.OpenHeadFrom | SSCParser.java:122-126 | an open head lies after a tail or past a non-head exactly when it lies in the rest of the lane |
| Notes.ExpandIdempotent | SSCParser.java:118-130 | expanding an expanded lane changes nothing |
| Notes.IdempotentHold | SSCParser.java:124-125 | a hold body is written as code 3, the tail code, and such a lane expands to itself |
| Notes.ExpandCells | SSCParser.java:122-126 | cell x of an expanded lane is head + 1 for the earliest head s before x with no tail in (s, x], and the original cell when there is none |
| Notes.ShiftExpected | SSCParser.java:122-126 | dropping a prefix that opens no run reaching x leaves the expected cell at x unchanged |
| Notes.ExpandGridIdempotent | SSCParser.java:118-130 | expanding an expanded grid changes nothing |
| Notes.NotesFromText | SSCParser.java:103-133 | parsed notes have 192 ticks for each piece of `split(",\\s*")` and four lanes; a failure is a non-symbol with the current line, or the index 192 times the number of bars |
| Notes.NotesShape | SSCParser.java:103-133 | parsed notes have 192 ticks per bar and are already expanded; a failure is a bad character with its line, or an open head reported as the index one past the grid |
| Notes.ParseNotes | SSCParser.java:103-133 | the in-place parse gives exactly the grid, or the failure, of the specification function |
| Notes.PlaceBars | SSCParser.java:104-116 | every bar in turn is placed; the first bad character is reported; on success every cell is the placed cell |
| Notes.PlaceBar | SSCParser.java:108-115 | one bar fills its 192 ticks and nothing else |
| Notes.PlaceRow | SSCParser.java:110-113 | one row writes its four codes at its tick, or reports its first bad character |
| Notes.ExpandHolds | SSCParser.java:118-130 | the in-place expansion succeeds exactly when the grid expands, and then leaves the expanded cells |
| Notes.ExpandTick | SSCParser.java:120-128 | one tick across four lanes advances the scan of each lane, or reports an open head |
| Notes.FillHold | SSCParser.java:122-126 | filling one run changes only its lane and keeps the expansion of the whole lane |
| Charts.GameModeOf | Chart.java:6-8 | `valueOf` finds only a constant with that name |
| Charts.StepsTypeOf | Chart.java:9-11 | `valueOf` finds only a constant with that name |
| Charts.DifficultyOf | Chart.java:12-14 | `valueOf` finds only a constant with that name |
| Charts.EnumNamesRoundTrip | Chart.java:6-14 | every constant is found by its own name |
| Charts.Length | Chart.java:34-36 | the length in bars is the number of ticks divided by 192, a fraction when the grid does not end on a bar line |
| Charts.GetState | Chart.java:38-40 | a cell is read exactly when tick and lane are in bounds; otherwise the out-of-range index is reported, tick first |
| Charts.GetBPM | Chart.java:42-48 | the tempo comes from the chart's own time course when it has one, otherwise from the song's |
| Charts.GetOffset | Chart.java:50-53 | a chart's offset is its own unless it is the sentinel -1, then the song's |
| Charts.ChartBpm | Chart.java:42-48 | a chart's tempo is defined from tick 0 on and is the value of the step at that tick |
| Charts.ChartFallbacks | Chart.java:42-53 | a chart with its own time course ignores the song's; a chart with the sentinel offset reports the song's |
| Reader.SkipBreaks | SSCParser.java:177-180 | skipping line breaks stops at the first other character |
| Reader.LineEnd | SSCParser.java:184-185 | a comment ends just after the first line feed, if there is one |
| Reader.Next | SSCParser.java:174-192 | one `read()` stays inside the text, returns U+FFFF for ever at the end, and otherwise consumes input; an unterminated comment never returns |
| Reader.PairStart | SSCParser.java:154-160 | the search for `#` consumes input, skips whitespace and answers whether the first other character it reads (U+FFFF included) is `#` |
| Reader.ReadUntil | SSCParser.java:162-168 | a key or value read up to its delimiter does not contain it and consumes input |
| Reader.NextPair | SSCParser.java:152-171 | `parseKeyValuePair` reads a key without `:` and a value without `;`, or returns null at the end |
| Reader.PairRoundTrip | SSCParser.java:152-171 | wherever the reader stands with an empty stack, `#key:value;` is read back as exactly that key and value, just past the `;` |
| Reader.ReadPlain | SSCParser.java:162-168 | plain text up to the delimiter is read back unchanged |
| Reader.BreaksCounted | SSCParser.java:177-180 | wherever the reader stands, line breaks before a character are dropped and each line feed is counted |
| Reader.NoBreakFromStream | SSCParser.java:176-180 | with an empty stack, `read()` never returns `\r` or `\n` |
| Reader.CommentSkipped | SSCParser.java:181-186 | wherever the reader stands, a `//` comment up to its line feed is invisible to the next read |
| Reader.OpenComment | SSCParser.java:184-185 | a comment with no line feed makes `read()` run for ever |
| Reader.SlashPushback | SSCParser.java:181-189 | wherever the reader stands, a lone `/` is returned and the character after it is pushed back and returned next |
| Reader.SkipToPair | SSCParser.java:154-160 | after n whitespace characters, the first other one decides: the search answers whether it is `#` and stands just past it |
| Reader.PairStartFinds | SSCParser.java:154-160 | whenever the search returns, it has read whitespace and then one other character, and its answer is whether that one is `#` |
| Reader.NoPairIff | SSCParser.java:152-159 | `parseKeyValuePair` returns null exactly when the first non-whitespace character read is not `#` (U+FFFF included), and then stands just past it |
| Reader.ExhaustedHangs | SSCParser.java:163-168 | at the end the reader returns U+FFFF, a key or value never finishes, and no further pair is found |
| Parser.Put | SSCParser.java:33 | a pair is stored under its lower-cased key, an empty value as null, and the other entries are kept |
| Parser.ReadBlock | SSCParser.java:32-35 | reading a block stays inside the text and consumes input whenever it reads a pair |
| Parser.DoubleOf | SSCParser.java:62-64 | a missing key fails with NullPointerException |
| Parser.PathOf | SSCParser.java:65-67 | a file name is read exactly when its key is present |
| Parser.Change | SSCParser.java:96-97 | a `pos=bpm` change has a 32-bit position; a failure is a missing `=` part or a malformed number |
| Parser.ParsedChanges | SSCParser.java:95-97 | every change in the list is parsed, or the failure is an index or number error |
| Parser.Fold | SSCParser.java:94-98 | applying the changes in order keeps the time course well formed |
| Parser.TempoOf | SSCParser.java:93-101 | the `#BPMS` time course is well formed, or fails with a NullPointerException on `bpms` when the key is missing |
| Parser.GlobalMetadata | SSCParser.java:56-69 | the song has the parsed offset, music and time course; a NullPointerException names one of the required keys, which is missing |
| Parser.ChartOf | SSCParser.java:71-91 | an added chart refers to the song, has the sentinel offset and the parsed notes, and has its own time course exactly when `#BPMS` is present |
| Parser.ParseFrom | SSCParser.java:22-54 | a parse that returns got its song from the metadata of the first block, up to `#ATTACKS`, and that song's time course is well formed |
| Parser.ChartLoop | SSCParser.java:38-46 | the chart loop keeps the song and only appends to the charts read so far |
| Parser.SSCParser.constructor | SSCParser.java:15-20 | a new parser is at the start of the text with an empty stack, line 0, no song and no charts |
| Parser.SSCParser.ReadRaw | SSCParser.java:178 | one raw character is read and the position advances |
| Parser.SSCParser.SkipLineBreaks | SSCParser.java:177-180 | line breaks are skipped and counted as `SkipBreaks` says |
| Parser.SSCParser.SkipComment | SSCParser.java:184-185 | a comment is consumed up to its line feed, and this is reported when there is none |
| Parser.SSCParser.Read | SSCParser.java:174-192 | `read()` returns the character of `Next` and moves the reader to its state |
| Parser.SSCParser.Collect | SSCParser.java:162-168 | a key or value is collected as `ReadUntil` says |
| Parser.SSCParser.ParseKeyValuePair | SSCParser.java:152-171 | the result is `NextPair` of the reader's state, and the reader ends where it says |
| Parser.SSCParser.ReadEntries | SSCParser.java:32-43 | the entries up to the stop key are `ReadBlock` of the reader's state |
| Parser.SSCParser.Parse | SSCParser.java:22-54 | `parse()` gives the outcome of `ParseFrom`, on success holds its song and charts, and whenever it returns leaves the parser ready to parse again |
| Parser.SSCParser.InsertGlobalMetadata | SSCParser.java:56-69 | the song becomes the metadata of the block, or the fault is raised |
| Parser.SSCParser.InsertChart | SSCParser.java:71-91 | the chart of the block is appended, skipped or the fault raised, as `ChartOf` says |
| Parser.GenerateTimeCourse | SSCParser.java:93-101 | the loop over `#BPMS` builds exactly `TempoOf` |
| ParserProperties.BlockKeys | SSCParser.java:33 | every key of a block is lower case, and earlier keys are kept |
| ParserProperties.PutAllLast | SSCParser.java:33 | after putting pairs in order, a key holds the value of the last pair whose key lower-cases to it |
| ParserProperties.PairsTextReads | SSCParser.java:152-171 | pairs written out plainly one after the other are read back in order, ending just past the last `;` |
| ParserProperties.BlockOfPairs | SSCParser.java:32-35 | pairs of which only the last has the stop key as written make one block holding all of them put in order, ending just past that pair's `;` |
| ParserProperties.LowerStopKeyGoesOn | SSCParser.java:33-34 | `#attacks:` does not end the song block, which goes on to `#ATTACKS:` |
| ParserProperties.BlockUntilNoPair | SSCParser.java:32-35 | pairs without the stop key followed by a non-pair make one block holding all of them, ending where the non-pair was read |
| ParserProperties.EmptyBlockEndsCharts | SSCParser.java:38-45 | a chart block comes out empty exactly when no pair follows, and then the chart loop ends with the charts so far |
| ParserProperties.ParsedChangesRead | SSCParser.java:95-97 | each parsed change is that entry's own parse |
| ParserProperties.ParsedChangesAll | SSCParser.java:95-97 | when every entry parses, the list parses |
| ParserProperties.ParsedChangesFault | SSCParser.java:95-97 | the failure of the list is the first failing entry's |
| ParserProperties.FoldKeeps | SSCParser.java:94-98 | a change that no later entry overwrites survives the fold |
| ParserProperties.FoldLastWins | SSCParser.java:94-98 | the last change at a position is the one kept |
| ParserProperties.LastChangeDecides | SSCParser.java:94-98 | the tempo at a `#BPMS` position is the last value given for it |
| ParserProperties.PairLookup | TimeCourse.java:25-28 | looking up a change's own position gives its tempo |
| ParserProperties.GlobalMetadataReads | SSCParser.java:56-69 | the metadata succeeds exactly when offset, sample start and length parse, banner, background and music are present and the time course parses |
| ParserProperties.ChartSkipped | SSCParser.java:75-82 | a chart is skipped exactly when its game mode is known but its steps type is not |
| ParserProperties.ChartAdded | SSCParser.java:71-91 | an added chart is well formed, belongs to the song it was read for and reports that song's offset |
| ParserProperties.ParsedSong | SSCParser.java:22-54 | a parsed song has a well-formed time course, and every chart is well formed, refers to it and reports its offset |
| ParserProperties.ParsedCharts | SSCParser.java:38-46 | the chart loop only appends well-formed charts of the song |
| Playback.RhythmFrom | Game.java:135-140 | the scan returns the first subdivision at or after i that divides the tick |
| Playback.RhythmIndex | Game.java:135-140 | the rhythmic position is the first subdivision whose spacing divides the tick |
| Playback.GetRhythmPosition | Game.java:135-140 | the loop returns exactly that first subdivision |
| Playback.RhythmFirst | Game.java:135-140 | any first dividing subdivision is the rhythmic position |
| Playback.RhythmKinds | Game.java:21-22 | a whole-beat tick is position 0; the position is past the five colours exactly when the tick is neither a 16th nor a 24th |
| Playback.ColorAt | Game.java:127-133 | heads and taps take the colour of their rhythmic position, or fail past the colour table; tails take the tail colour; all else is empty; an out-of-range tick or lane fails |
| Playback.ColorKinds | Game.java:127-133 | tails are weak red, beat taps strong red, off-grid notes an index failure, other codes empty |
| Playback.PaintFrom | Game.java:121-123 | painting keeps a four-lane row |
| Playback.Redrawn | Game.java:104-125 | a redraw keeps eight rows of four lanes |
| Playback.PaintLanes | Game.java:121-123 | lanes before the start are kept; painted lanes show their colour, up to the first lane whose colour fails |
| Playback.PastTheEnd | Game.java:117-123 | a redraw past the last tick scrolls and then fails on lane 0 with that tick |
| Playback.RedrawRun | Game.java:88-98 | repeated redraws keep eight rows of four lanes |
| Playback.RunKeepsOld | Game.java:117-119 | rows older than the redraws still hold the original rows |
| Playback.RunSnoc | Game.java:88-98 | a run of n + 1 redraws is the run of n followed, unless it failed, by one redraw 12 ticks later |
| Playback.RunStops | Game.java:91-93 | once a redraw fails, no later redraw happens |
| Playback.RunShowsTicks | Game.java:88-125 | after n redraws without a fault, row j shows the colours of the tick 12·j before the latest drawn tick |
| Playback.Game.constructor | Game.java:25-32 | a new game starts at tick -12 with a blank display and no timer |
| Playback.Game.GetColor | Game.java:127-133 | the colour is `ColorAt` |
| Playback.Game.RedrawArrows | Game.java:104-125 | the display becomes `Redrawn` at tick + 84, and stays marked as preparing exactly when the redraw failed |
| Playback.Game.ShiftRows | Game.java:117-119 | rows 7..1 take the rows above them and row 0 is kept |
| Playback.Game.PaintTop | Game.java:120-123 | the top row becomes the painted row and only it changes |
| Playback.Game.Tick | Game.java:88-98 | the tick advances by one; every 12th tick redraws, and a failed redraw stops the timer |
| Playback.Game.RunTimer | Game.java:75-98 | the timer calling tick() for n steps from a step boundary leaves the grid of `RedrawRun` over n redraws and is cancelled exactly when one of them failed; `preparing` is then left set exactly on that failure, and the tick stands just past the failing redraw, which is the first one of the run to fail |
| Playback.InitTrace | Game.java:34-44 | `init()` opens the clip, then starts the notes and the clip with a wait of the absolute offset between them, the notes first exactly when the offset is not negative |
| Playback.Game.Init | Game.java:34-44 | the start sequence follows `InitTrace` and leaves the timer running |
| Playback.Game.InitNotes | Game.java:68-72 | the notes timer starts at the chart's tempo at tick 0 |
| Playback.StartBpm | Game.java:69-70 | the starting tempo is the chart's tempo at tick 0, which always exists |
| Playback.InitLag | Game.java:34-44 | the clip is opened first, music and notes each start once, and the recorded wait puts the music `offset` seconds after the notes (the sleep's millisecond truncation is left out) |
| Playback.RedrawSchedule | Game.java:88-98 | starting from tick -12, the redraw happens on every 12th call |

## Left out

- Floating point is not modelled. Tempos and offsets are exact `real`s, and `tickLength` is not computed because it only feeds the timer period.
- ParseDouble reads only `[+-]digits[.digits]`. Java's `Double.parseDouble` also accepts exponents, hexadecimal, `Infinity`, `NaN`, a trailing `d`/`f` and surrounding control characters.
- Numbers.ParseInt: only the ASCII digits `0`-`9` are read. Java's `Integer.parseInt` also accepts the other Unicode decimal digits (`Character.digit`), so for example `#METER:٣;` is rejected here.
- Round is `Math.round` on an exact real, so the double rounding of the position is not modelled.
- Strings are sequences of Unicode scalar values, while a Java `String` is a sequence of UTF-16 code units: a character beyond U+FFFF counts once here and twice in Java. This changes the resolution of a bar, which is its length divided by four, and the character that `charAt` hands to `noteCharToByte`. Java reports a lone surrogate as the `InvalidNoteCharacter`, where `Notes.Resolution` and `Notes.FirstBad` see the whole character. Texts within U+0000..U+FFFF agree.
- Lower and Upper map ASCII letters only. Java's locale-dependent case mapping and the charset decoding of the file are not modelled.
- The Launchpad device is not modelled: MIDI output, `turnOn`/`getButton` and `setPreparing` are replaced by the `display` array and the `preparing` flag. The display before the first redraw is taken as blank.
- The audio clip, sleeping (`wait` sleeps `(int) (time * 1000)` milliseconds, truncating the recorded wait to whole milliseconds), the timer's period and concurrency between the timer and the main thread are not modelled. `Init` records the start sequence as events with waiting times, and `Game.RunTimer` stands for the timer thread as a loop that calls `Tick` in order.
- The warning printed on an unknown steps type and the tempo printed at start are left out. They are output only.
- File handling is not modelled: the chart text is a parameter, file names stay strings, and `directoryLocation` and IOException handling are left out.
- Chart and SMFile are value snapshots. A chart holds a copy of the song, so aliasing between the parser's SMFile and its charts is not modelled.
- A Java loop that never ends becomes an explicit outcome (`None`, `Hangs`, `Diverges`) instead of a non-terminating function.
- Parser.SSCParser.Parse: the reader is opened again at the start of the text, while the push-back stack and the line counter carry over from earlier calls, as in the source.
- `Main.java` and `SMFile.java` are not part of this model. SMFile's fields appear as `Charts.SongMeta` and the chart list.
- The commented-out code in SSCParser.java and in `redrawArrows` is not modelled, and neither is `buttonPressed`, which does nothing.
- Playback.ColorAt: as in the source, a note whose rhythmic position is past the five colours fails with an index error, which makes `Tick` stop the timer. Every chart whose notes fall on a 32nd or finer tick hits this.
- Notes.NoteSymbolTable: as in the source, any character up to `4` is accepted, and a character below `0` gives a negative code.
- Charts.GetOffset: as in the source, a chart's offset is never read from the file, so every chart reports its song's offset.
