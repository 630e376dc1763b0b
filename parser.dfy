/** The `.ssc` parser (SSCParser): the file is read as `#KEY:VALUE;` pairs;
    the pairs up to `#ATTACKS` describe the song, and every following run of
    pairs up to `#NOTES` describes one chart. */
module Parser {
  import opened Base
  import opened Numbers
  import opened TimeCourses
  import opened Notes
  import opened Charts
  import opened Reader

  // ---------------------------------------------------------------------------
  // The key-value map

  /** The parser's HashMap: a key maps to None when its value was empty. */
  type Entries = map<string, Option<string>>

  /** map.put(key.toLowerCase(), value.equals("") ? null : value). */
  function Put(m: Entries, key: string, value: string): (r: Entries)
    ensures Lower(key) in r && r[Lower(key)] == (if value == "" then None else Some(value))
    ensures forall k :: k in m && k != Lower(key) ==> k in r && r[k] == m[k]
    ensures r.Keys == m.Keys + {Lower(key)}
  {
    m[Lower(key) := if value == "" then None else Some(value)]
  }

  /** map.get(key): None for a missing key as for a null value. */
  function Get(m: Entries, key: string): Option<string> {
    if key in m then m[key] else None
  }

  datatype Block = Block(entries: Entries, after: ReaderState) | Endless

  /** The pair loop of parse(): puts pairs into `m` until no pair follows or
      the pair just put has the key `stopKey` (compared as written). */
  function ReadBlock(text: string, st: ReaderState, m: Entries, stopKey: string): (r: Block)
    requires Inside(text, st)
    ensures r.Block? ==> Inside(text, r.after) && Measure(text, r.after) <= Measure(text, st)
    ensures r.Block? && r.entries != m ==> Measure(text, r.after) < Measure(text, st)
    decreases Measure(text, st)
  {
    match NextPair(text, st)
    case Hangs => Endless
    case NoPair(st') => Block(m, st')
    case Pair(key, value, st') =>
      var m' := Put(m, key, value);
      if key == stopKey then Block(m', st') else ReadBlock(text, st', m', stopKey)
  }

  // ---------------------------------------------------------------------------
  // Values

  /** Double.parseDouble on a looked-up value: null raises
      NullPointerException. */
  function DoubleOf(m: Entries, key: string): (r: Result<real, Fault>)
    ensures Get(m, key).None? ==> r == Failure(NullPointer(key))
  {
    match Get(m, key)
    case None => Failure(NullPointer(key))
    case Some(s) => ParseDouble(s)
  }

  /** new File(path) on a looked-up value: null raises NullPointerException. */
  function PathOf(m: Entries, key: string): (r: Result<string, Fault>)
    ensures r.Success? <==> Get(m, key).Some?
  {
    match Get(m, key)
    case None => Failure(NullPointer(key))
    case Some(s) => Success(s)
  }

  /** One entry of `#BPMS`, `beat=bpm`: the beat is rounded to a long and
      cast to int. The tokens are used in order, so a missing beat, a bad
      beat, a missing bpm and a bad bpm are reported in that order. */
  function Change(entry: string): (r: Result<(int, real), Fault>)
    ensures r.Success? ==> IntMin <= r.value.0 <= IntMax
    ensures r.Failure? ==> r.error.IndexOutOfBounds? || r.error.NumberFormat?
  {
    var tokens := JavaSplit(entry, '=', false);
    if |tokens| == 0 then Failure(IndexOutOfBounds(0))
    else
      match ParseDouble(tokens[0])
      case Failure(f) => Failure(f)
      case Success(beat) =>
        if |tokens| < 2 then Failure(IndexOutOfBounds(1))
        else
          match ParseDouble(tokens[1])
          case Failure(f) => Failure(f)
          case Success(bpm) => Success((Wrap32(Round(beat)), bpm))
  }

  /** The entries of `#BPMS` read in order: every change, or the fault of
      the first entry that is malformed. */
  function ParsedChanges(entries: seq<string>): (r: Result<seq<(int, real)>, Fault>)
    ensures r.Success? ==> |r.value| == |entries|
    ensures r.Failure? ==> r.error.IndexOutOfBounds? || r.error.NumberFormat?
  {
    if entries == [] then Success([])
    else
      match Change(entries[0])
      case Failure(f) => Failure(f)
      case Success(c) =>
        match ParsedChanges(entries[1..])
        case Failure(f) => Failure(f)
        case Success(cs) => Success([c] + cs)
  }

  /** The loop of generateTimeCourse: the changes applied in order. */
  function Fold(t: TempoList, changes: seq<(int, real)>): (r: TempoList)
    requires WellFormed(t)
    ensures WellFormed(r)
    decreases |changes|
  {
    if changes == [] then t
    else
      SetChangeWellFormed(t, changes[0].0, changes[0].1);
      Fold(SetChange(t, changes[0].0, changes[0].1), changes[1..])
  }

  /** The tempo a fresh TimeCourse(0) starts from. */
  const InitialTempo: TempoList := TempoList([0], [0.0])

  /** generateTimeCourse: `#BPMS` split at ",\s*", applied to TimeCourse(0). */
  function TempoOf(m: Entries): (r: Result<TempoList, Fault>)
    ensures r.Success? ==> WellFormed(r.value) && Get(m, "bpms").Some?
    ensures r.Failure? && r.error.NullPointer? ==> r.error.key == "bpms" && Get(m, "bpms").None?
  {
    match Get(m, "bpms")
    case None => Failure(NullPointer("bpms"))
    case Some(s) =>
      match ParsedChanges(JavaSplit(s, ',', true))
      case Failure(f) => Failure(f)
      case Success(changes) => Success(Fold(InitialTempo, changes))
  }

  /** insertGlobalMetadata, with the exceptions in the order the statements
      would raise them. */
  function GlobalMetadata(m: Entries): (r: Result<SongMeta, Fault>)
    ensures r.Success? ==>
              WellFormed(r.value.timeCourse) && Success(r.value.timeCourse) == TempoOf(m) &&
              Success(r.value.offset) == DoubleOf(m, "offset") && Some(r.value.music) == Get(m, "music")
    ensures r.Failure? && r.error.NullPointer? ==>
              r.error.key in {"offset", "samplestart", "samplelength", "banner", "background", "music", "bpms"} &&
              Get(m, r.error.key).None?
  {
    var offset := DoubleOf(m, "offset");
    if offset.Failure? then Failure(offset.error) else
    var sampleStart := DoubleOf(m, "samplestart");
    if sampleStart.Failure? then Failure(sampleStart.error) else
    var sampleLength := DoubleOf(m, "samplelength");
    if sampleLength.Failure? then Failure(sampleLength.error) else
    match Get(m, "banner")
    case None => Failure(NullPointer("banner"))
    case Some(banner) =>
      match Get(m, "background")
      case None => Failure(NullPointer("background"))
      case Some(background) =>
        match Get(m, "music")
        case None => Failure(NullPointer("music"))
        case Some(music) =>
          match TempoOf(m)
          case Failure(f) => Failure(f)
          case Success(t) =>
            Success(SongMeta(Get(m, "version"), Get(m, "title"), Get(m, "subtitle"), Get(m, "artist"), Get(m, "credit"),
                             offset.value, sampleStart.value, sampleLength.value, banner, background, music, t))
  }

  datatype Insertion = Added(chart: Chart) | Skipped | Crash(fault: Fault)

  /** insertChart: the chart of one block, or Skipped when the second part of
      `#STEPSTYPE` names no known steps type (the one exception the source
      catches), or the exception that escapes. `line` is the line counter
      when the notes are parsed. */
  function ChartOf(song: SongMeta, m: Entries, line: int): (r: Insertion)
    ensures r.Added? ==>
              r.chart.song == song && r.chart.offset == NoOffset &&
              Get(m, "notes").Some? && Success(r.chart.notes) == NotesFromText(Get(m, "notes").value, line) &&
              (r.chart.timeCourse.Some? <==> "bpms" in m) &&
              (r.chart.timeCourse.Some? ==> Success(r.chart.timeCourse.value) == TempoOf(m))
  {
    match Get(m, "stepstype")
    case None => Crash(NullPointer("stepstype"))
    case Some(stepsType) =>
      var tokens := JavaSplit(stepsType, '-', false);
      if |tokens| == 0 then Crash(IndexOutOfBounds(0))
      else
        match GameModeOf(Upper(tokens[0]))
        case None => Crash(IllegalArgument(Upper(tokens[0])))
        case Some(gameMode) =>
          if |tokens| < 2 then Crash(IndexOutOfBounds(1))
          else
            match StepsTypeOf(Upper(ReplaceThree(tokens[1])))
            case None => Skipped
            case Some(steps) =>
              match ParseInt(Get(m, "meter"))
              case Failure(f) => Crash(f)
              case Success(meter) =>
                match Get(m, "difficulty")
                case None => Crash(NullPointer("difficulty"))
                case Some(d) =>
                  match DifficultyOf(Upper(d))
                  case None => Crash(IllegalArgument(Upper(d)))
                  case Some(difficulty) =>
                    var tempo := if "bpms" in m then TempoOf(m) else Success(InitialTempo);
                    if tempo.Failure? then Crash(tempo.error)
                    else
                      match Get(m, "notes")
                      case None => Crash(NullPointer("notes"))
                      case Some(noteData) =>
                        match NotesFromText(noteData, line)
                        case Failure(f) => Crash(f)
                        case Success(notes) =>
                          Added(Chart(song, meter, difficulty, Get(m, "description"), gameMode, steps, notes,
                                      NoOffset, if "bpms" in m then Some(tempo.value) else None))
  }

  datatype ParseOutcome =
    | Parsed(song: SongMeta, charts: seq<Chart>)
    | Crashed(fault: Fault)     // an exception escapes parse()
    | Diverges                  // parse() never returns

  /** parse(), from the reader state it starts in. */
  function ParseFrom(text: string, st: ReaderState): (r: ParseOutcome)
    requires Inside(text, st)
    ensures r.Parsed? ==>
              ReadBlock(text, st, map[], "ATTACKS").Block? &&
              GlobalMetadata(ReadBlock(text, st, map[], "ATTACKS").entries) == Success(r.song) &&
              WellFormed(r.song.timeCourse)
  {
    match ReadBlock(text, st, map[], "ATTACKS")
    case Endless => Diverges
    case Block(m, st') =>
      match GlobalMetadata(m)
      case Failure(f) => Crashed(f)
      case Success(song) => ChartLoop(text, st', song, [])
  }

  /** The chart loop of parse(): a block of pairs up to `#NOTES` per chart,
      until a block comes out empty. */
  function ChartLoop(text: string, st: ReaderState, song: SongMeta, charts: seq<Chart>): (r: ParseOutcome)
    requires Inside(text, st)
    ensures r.Parsed? ==> r.song == song && charts <= r.charts
    decreases Measure(text, st)
  {
    match ReadBlock(text, st, map[], "NOTES")
    case Endless => Diverges
    case Block(m, st') =>
      if m == map[] then Parsed(song, charts)
      else
        match ChartOf(song, m, st'.line)
        case Crash(f) => Crashed(f)
        case Skipped => ChartLoop(text, st', song, charts)
        case Added(c) => ChartLoop(text, st', song, charts + [c])
  }

  // ---------------------------------------------------------------------------
  // The parser object

  class SSCParser {
    /** The file's characters, read through `pos`. */
    const text: string
    var pos: nat
    var readingStack: seq<char>
    var currentLine: int
    /** The song data, once insertGlobalMetadata has run. */
    var song: Option<SongMeta>
    var charts: seq<Chart>

    function State(): ReaderState
      reads this
    {
      ReaderState(pos, readingStack, currentLine)
    }

    ghost predicate Valid()
      reads this
    {
      Inside(text, State())
    }

    constructor (text: string)
      ensures Valid() && this.text == text
      ensures State() == ReaderState(0, [], 0) && song == None && charts == []
    {
      this.text := text;
      pos := 0;
      readingStack := [];
      currentLine := 0;
      song := None;
      charts := [];
    }

    /** One `(char) reader.read()`. */
    method ReadRaw() returns (c: char)
      requires pos <= |text|
      modifies this`pos
      ensures c == Raw(text, old(pos)) && pos == Advance(text, old(pos))
    {
      c := if pos < |text| then text[pos] else EOF;
      if pos < |text| {
        pos := pos + 1;
      }
    }

    /** The do-while of read() that skips line breaks, counting line feeds:
        ends with the first other character read. */
    method SkipLineBreaks() returns (ch: char)
      requires pos <= |text|
      modifies this`pos, this`currentLine
      ensures var (p, line) := SkipBreaks(text, old(pos), old(currentLine));
              ch == Raw(text, p) && pos == Advance(text, p) && currentLine == line
    {
      ghost var skipped := SkipBreaks(text, pos, currentLine);
      ch := ReadRaw();
      if ch == '\n' {
        currentLine := currentLine + 1;
      }
      while ch == '\r' || ch == '\n'
        invariant pos <= |text|
        invariant ch == '\r' || ch == '\n' ==> 0 < pos && SkipBreaks(text, pos, currentLine) == skipped
        invariant !(ch == '\r' || ch == '\n') ==>
                    ch == Raw(text, skipped.0) && pos == Advance(text, skipped.0) && currentLine == skipped.1
        decreases |text| - pos + if ch == '\r' || ch == '\n' then 1 else 0
      {
        ch := ReadRaw();
        if ch == '\n' {
          currentLine := currentLine + 1;
        }
      }
    }

    /** `while (reader.read() != '\n');`: false where it would never end. */
    method SkipComment() returns (ended: bool)
      requires pos <= |text|
      modifies this`pos
      ensures ended <==> LineEnd(text, old(pos)).Some?
      ensures ended ==> pos == LineEnd(text, old(pos)).value
      ensures pos <= |text|
    {
      ghost var start := pos;
      while true
        invariant start <= pos <= |text|
        invariant LineEnd(text, start) == LineEnd(text, pos)
        decreases |text| - pos
      {
        if pos == |text| {
          return false;
        }
        ghost var before := pos;
        var x := ReadRaw();
        if x == '\n' {
          assert LineEnd(text, start) == Some(pos) by {
            assert LineEnd(text, before) == Some(before + 1);
          }
          return true;
        }
      }
    }

    /** read(). None: the reader would loop for ever in a comment that has
        no line feed after it. */
    method Read() returns (c: Option<char>)
      requires Valid()
      modifies this`pos, this`readingStack, this`currentLine
      ensures match Next(text, old(State()))
              case None => c.None?
              case Some((ch, st)) => c == Some(ch) && State() == st
      ensures Valid()
      decreases |text| - pos
    {
      if |readingStack| > 0 {
        c := Some(readingStack[0]);
        readingStack := readingStack[1..];
        return;
      }
      var ch := SkipLineBreaks();
      if ch != '/' {
        return Some(ch);
      }
      var c2 := ReadRaw();
      if c2 != '/' {
        readingStack := [c2];
        return Some('/');
      }
      var ended := SkipComment();
      if !ended {
        return None;
      }
      c := Read();
    }

    /** A helper for the two collecting loops of parseKeyValuePair: appends
        what it reads up to `delim`. None: the reader never yields `delim`. */
    method Collect(delim: char) returns (s: Option<string>)
      requires Valid() && delim != EOF
      modifies this`pos, this`readingStack, this`currentLine
      ensures match ReadUntil(text, old(State()), delim)
              case None => s.None?
              case Some((value, st)) => s == Some(value) && State() == st && Valid()
    {
      var builder: string := [];
      PrependedNothing(ReadUntil(text, State(), delim));
      while true
        invariant Valid()
        invariant ReadUntil(text, old(State()), delim) == Prepended(builder, ReadUntil(text, State(), delim))
        decreases Measure(text, State())
      {
        if Exhausted(text, State()) {
          return None;
        }
        var c := Read();
        if c.None? {
          return None;
        }
        if c.value == delim {
          assert builder + [] == builder;
          return Some(builder);
        }
        assert forall x :: (builder + [c.value]) + x == builder + ([c.value] + x);
        builder := builder + [c.value];
      }
    }

    /** parseKeyValuePair. */
    method ParseKeyValuePair() returns (r: PairOutcome)
      requires Valid()
      modifies this`pos, this`readingStack, this`currentLine
      ensures r == NextPair(text, old(State()))
      ensures !r.Hangs? ==> Valid() && State() == r.after
    {
      while true
        invariant Valid()
        invariant PairStart(text, old(State())) == PairStart(text, State())
        decreases Measure(text, State())
      {
        var c := Read();
        if c.None? {
          return Hangs;
        }
        if !IsWhitespace(c.value) {
          if c.value == '#' {
            break;
          } else {
            return NoPair(State());
          }
        }
      }
      var key := Collect(':');
      if key.None? {
        return Hangs;
      }
      var value := Collect(';');
      if value.None? {
        return Hangs;
      }
      return Pair(key.value, value.value, State());
    }

    /** The pair loop of parse(), reading into an emptied map. */
    method ReadEntries(stopKey: string) returns (b: Block)
      requires Valid()
      modifies this`pos, this`readingStack, this`currentLine
      ensures b == ReadBlock(text, old(State()), map[], stopKey)
      ensures b.Block? ==> Valid() && State() == b.after
    {
      var m: Entries := map[];
      while true
        invariant Valid()
        invariant ReadBlock(text, old(State()), map[], stopKey) == ReadBlock(text, State(), m, stopKey)
        decreases Measure(text, State())
      {
        var pair := ParseKeyValuePair();
        if pair.Hangs? {
          return Endless;
        }
        if pair.NoPair? {
          return Block(m, State());
        }
        m := Put(m, pair.key, pair.value);
        if pair.key == stopKey {
          return Block(m, State());
        }
      }
    }

    /** parse(): the file is opened anew (the pushed-back characters and the
        line counter are the parser's own and carry over). */
    method Parse() returns (r: ParseOutcome)
      requires Valid()
      modifies this
      ensures r == ParseFrom(text, ReaderState(0, old(readingStack), old(currentLine)))
      ensures r.Parsed? ==> song == Some(r.song) && charts == r.charts
      ensures !r.Diverges? ==> Valid()
    {
      song := None;
      charts := [];
      pos := 0;
      ghost var start := State();
      var global := ReadEntries("ATTACKS");
      if global.Endless? {
        return Diverges;
      }
      var fault := InsertGlobalMetadata(global.entries);
      if fault.Some? {
        return Crashed(fault.value);
      }
      while true
        invariant Valid() && song.Some?
        invariant ParseFrom(text, start) == ChartLoop(text, State(), song.value, charts)
        decreases Measure(text, State())
      {
        var block := ReadEntries("NOTES");
        if block.Endless? {
          return Diverges;
        }
        if block.entries == map[] {
          return Parsed(song.value, charts);
        }
        fault := InsertChart(block.entries);
        if fault.Some? {
          return Crashed(fault.value);
        }
      }
    }

    /** insertGlobalMetadata. */
    method InsertGlobalMetadata(m: Entries) returns (fault: Option<Fault>)
      modifies this`song
      ensures match GlobalMetadata(m)
              case Failure(f) => fault == Some(f)
              case Success(s) => fault.None? && song == Some(s)
    {
      var offset := DoubleOf(m, "offset");
      if offset.Failure? {
        return Some(offset.error);
      }
      var sampleStart := DoubleOf(m, "samplestart");
      if sampleStart.Failure? {
        return Some(sampleStart.error);
      }
      var sampleLength := DoubleOf(m, "samplelength");
      if sampleLength.Failure? {
        return Some(sampleLength.error);
      }
      var banner := PathOf(m, "banner");
      if banner.Failure? {
        return Some(banner.error);
      }
      var background := PathOf(m, "background");
      if background.Failure? {
        return Some(background.error);
      }
      var music := PathOf(m, "music");
      if music.Failure? {
        return Some(music.error);
      }
      var timeCourse := GenerateTimeCourse(m);
      if timeCourse.Failure? {
        return Some(timeCourse.error);
      }
      song := Some(SongMeta(Get(m, "version"), Get(m, "title"), Get(m, "subtitle"), Get(m, "artist"), Get(m, "credit"),
                            offset.value, sampleStart.value, sampleLength.value,
                            banner.value, background.value, music.value, timeCourse.value));
      return None;
    }

    /** insertChart: the chart is appended, or skipped, or an exception
        escapes. */
    method InsertChart(m: Entries) returns (fault: Option<Fault>)
      requires song.Some?
      modifies this`charts
      ensures match ChartOf(song.value, m, currentLine)
              case Added(c) => fault.None? && charts == old(charts) + [c]
              case Skipped => fault.None? && charts == old(charts)
              case Crash(f) => fault == Some(f) && charts == old(charts)
    {
      var stepsType := Get(m, "stepstype");
      if stepsType.None? {
        return Some(NullPointer("stepstype"));
      }
      var stepsTypeTokens := JavaSplit(stepsType.value, '-', false);
      if |stepsTypeTokens| == 0 {
        return Some(IndexOutOfBounds(0));
      }
      var gameMode := GameModeOf(Upper(stepsTypeTokens[0]));
      if gameMode.None? {
        return Some(IllegalArgument(Upper(stepsTypeTokens[0])));
      }
      if |stepsTypeTokens| < 2 {
        return Some(IndexOutOfBounds(1));
      }
      var steps := StepsTypeOf(Upper(ReplaceThree(stepsTypeTokens[1])));
      if steps.None? {
        // The warning printed here is left out.
        return None;
      }
      var meter := ParseInt(Get(m, "meter"));
      if meter.Failure? {
        return Some(meter.error);
      }
      var difficultyName := Get(m, "difficulty");
      if difficultyName.None? {
        return Some(NullPointer("difficulty"));
      }
      var difficulty := DifficultyOf(Upper(difficultyName.value));
      if difficulty.None? {
        return Some(IllegalArgument(Upper(difficultyName.value)));
      }
      var timeCourse: Option<TempoList> := None;
      if "bpms" in m {
        var tempo := GenerateTimeCourse(m);
        if tempo.Failure? {
          return Some(tempo.error);
        }
        timeCourse := Some(tempo.value);
      }
      var noteData := Get(m, "notes");
      if noteData.None? {
        return Some(NullPointer("notes"));
      }
      var notes := ParseNotes(noteData.value, currentLine);
      if notes.Failure? {
        return Some(notes.error);
      }
      charts := charts + [Chart(song.value, meter.value, difficulty.value, Get(m, "description"),
                                gameMode.value, steps.value, notes.value, NoOffset, timeCourse)];
      return None;
    }
  }

  /** generateTimeCourse: a TimeCourse(0) receives every change in turn. */
  method GenerateTimeCourse(m: Entries) returns (r: Result<TempoList, Fault>)
    ensures r == TempoOf(m)
  {
    var bpms := Get(m, "bpms");
    if bpms.None? {
      return Failure(NullPointer("bpms"));
    }
    var timeCourse := new TimeCourse(0.0);
    var changes := JavaSplit(bpms.value, ',', true);
    var i := 0;
    while i < |changes|
      invariant 0 <= i <= |changes| && timeCourse.Valid()
      invariant TempoOf(m) == match ParsedChanges(changes[i..])
                              case Failure(f) => Failure(f)
                              case Success(rest) => Success(Fold(timeCourse.Value(), rest))
    {
      assert changes[i..][1..] == changes[i + 1..];
      var change := Change(changes[i]);
      if change.Failure? {
        return Failure(change.error);
      }
      timeCourse.SetBpmChange(change.value.0, change.value.1);
      i := i + 1;
    }
    assert changes[i..] == [];
    return Success(timeCourse.Value());
  }

  function Prepended(b: string, o: Option<(string, ReaderState)>): Option<(string, ReaderState)> {
    match o
    case None => None
    case Some((s, st)) => Some((b + s, st))
  }

  lemma PrependedNothing(o: Option<(string, ReaderState)>)
    ensures Prepended([], o) == o
  {
    if o.Some? {
      assert [] + o.value.0 == o.value.0;
    }
  }
}

/** What the parser promises about the song and the charts it produces. */
module ParserProperties {
  import opened Base
  import opened TimeCourses
  import opened Notes
  import opened Charts
  import opened Reader
  import opened Parser

  // ---------------------------------------------------------------------------
  // The map

  lemma LowerIdempotent(s: string)
    ensures Lower(Lower(s)) == Lower(s)
  {
  }

  /** Every key the parser stores is lower case, and a block only adds to
      the map it starts from. */
  lemma {:induction false} BlockKeys(text: string, st: ReaderState, m: Entries, stopKey: string)
    requires Inside(text, st)
    requires forall k :: k in m ==> Lower(k) == k
    ensures ReadBlock(text, st, m, stopKey).Block? ==>
              var e := ReadBlock(text, st, m, stopKey).entries;
              m.Keys <= e.Keys && forall k :: k in e ==> Lower(k) == k
    decreases Measure(text, st)
  {
    match NextPair(text, st)
    case Hangs =>
    case NoPair(_) =>
    case Pair(key, value, st') =>
      LowerIdempotent(key);
      if key != stopKey {
        BlockKeys(text, st', Put(m, key, value), stopKey);
      }
  }

  // ---------------------------------------------------------------------------
  // Where a block ends

  /** `#KEY:VALUE;` pairs written out one after the other. */
  function PairsText(ps: seq<(string, string)>): string {
    if ps == [] then [] else "#" + ps[0].0 + ":" + ps[0].1 + ";" + PairsText(ps[1..])
  }

  /** A pair the reader reads back as written. */
  predicate PlainPair(p: (string, string)) {
    ':' !in p.0 && ';' !in p.1 && Plain(p.0) && Plain(p.1)
  }

  /** The map after putting the pairs in order. */
  function PutAll(m: Entries, ps: seq<(string, string)>): Entries
    decreases |ps|
  {
    if ps == [] then m else PutAll(Put(m, ps[0].0, ps[0].1), ps[1..])
  }

  /** The last pair whose key lower-cases to a given key decides its value. */
  lemma {:induction false} PutAllLast(m: Entries, ps: seq<(string, string)>, i: int)
    requires 0 <= i < |ps|
    requires forall j :: i < j < |ps| ==> Lower(ps[j].0) != Lower(ps[i].0)
    ensures Lower(ps[i].0) in PutAll(m, ps)
    ensures PutAll(m, ps)[Lower(ps[i].0)] == if ps[i].1 == "" then None else Some(ps[i].1)
    decreases |ps|
  {
    if i == 0 {
      PutAllKeeps(Put(m, ps[0].0, ps[0].1), ps[1..], Lower(ps[0].0));
    } else {
      PutAllLast(Put(m, ps[0].0, ps[0].1), ps[1..], i - 1);
    }
  }

  /** A key no later pair writes keeps its value. */
  lemma {:induction false} PutAllKeeps(m: Entries, ps: seq<(string, string)>, k: string)
    requires k in m && forall j :: 0 <= j < |ps| ==> Lower(ps[j].0) != k
    ensures k in PutAll(m, ps) && PutAll(m, ps)[k] == m[k]
    decreases |ps|
  {
    if ps != [] {
      PutAllKeeps(Put(m, ps[0].0, ps[0].1), ps[1..], k);
    }
  }

  /** The text of the first pair, and where the text of the others starts. */
  lemma PairsSplit(text: string, pos: nat, ps: seq<(string, string)>, rest: string)
    requires |ps| > 0 && pos <= |text| && text[pos..] == PairsText(ps) + rest
    ensures var next := pos + |ps[0].0| + |ps[0].1| + 3;
            text[pos..] == "#" + ps[0].0 + ":" + ps[0].1 + ";" + (PairsText(ps[1..]) + rest) &&
            next <= |text| && text[next..] == PairsText(ps[1..]) + rest &&
            |PairsText(ps)| == |ps[0].0| + |ps[0].1| + 3 + |PairsText(ps[1..])|
  {
    var head := "#" + ps[0].0 + ":" + ps[0].1 + ";";
    var tail := PairsText(ps[1..]) + rest;
    assert PairsText(ps) == head + PairsText(ps[1..]);
    assert PairsText(ps) + rest == head + tail;
    assert text[pos + |head|..] == text[pos..][|head|..];
  }

  /** The reader takes the first of the pairs whole and stands where the
      others start. */
  lemma FirstPair(text: string, pos: nat, ps: seq<(string, string)>, rest: string, line: int)
    requires |ps| > 0 && PlainPair(ps[0]) && pos <= |text| && text[pos..] == PairsText(ps) + rest
    ensures var next := pos + |ps[0].0| + |ps[0].1| + 3;
            NextPair(text, ReaderState(pos, [], line)) == Pair(ps[0].0, ps[0].1, ReaderState(next, [], line)) &&
            next <= |text| && text[next..] == PairsText(ps[1..]) + rest &&
            next + |PairsText(ps[1..])| == pos + |PairsText(ps)|
  {
    PairsSplit(text, pos, ps, rest);
    PairRoundTrip(text, pos, ps[0].0, ps[0].1, PairsText(ps[1..]) + rest, line);
  }

  /** Pairs the reader reads back as written, of which only the last has the
      stop key as written. */
  predicate EndsAtLast(ps: seq<(string, string)>, stopKey: string)
    decreases |ps|
  {
    |ps| > 0 && PlainPair(ps[0]) &&
    if |ps| == 1 then ps[0].0 == stopKey else ps[0].0 != stopKey && EndsAtLast(ps[1..], stopKey)
  }

  /** Pairs the reader reads back as written, none with the stop key. */
  predicate NoneStops(ps: seq<(string, string)>, stopKey: string)
    decreases |ps|
  {
    ps == [] || (PlainPair(ps[0]) && ps[0].0 != stopKey && NoneStops(ps[1..], stopKey))
  }

  /** The conditions of BlockOfPairs, pair by pair. */
  lemma {:induction false} EndsAtLastOf(ps: seq<(string, string)>, stopKey: string)
    requires |ps| > 0 && forall i :: 0 <= i < |ps| ==> PlainPair(ps[i])
    requires forall i :: 0 <= i < |ps| - 1 ==> ps[i].0 != stopKey
    requires ps[|ps| - 1].0 == stopKey
    ensures EndsAtLast(ps, stopKey)
    decreases |ps|
  {
    if |ps| > 1 {
      assert ps[1..][|ps| - 2] == ps[|ps| - 1];
      EndsAtLastOf(ps[1..], stopKey);
    }
  }

  /** The conditions of BlockUntilNoPair, pair by pair. */
  lemma {:induction false} NoneStopsOf(ps: seq<(string, string)>, stopKey: string)
    requires forall i :: 0 <= i < |ps| ==> PlainPair(ps[i]) && ps[i].0 != stopKey
    ensures NoneStops(ps, stopKey)
    decreases |ps|
  {
    if ps != [] {
      NoneStopsOf(ps[1..], stopKey);
    }
  }

  /** One step of the pair loop: a pair whose key is not the stop key is
      put and the loop goes on. */
  lemma BlockStep(text: string, st: ReaderState, key: string, value: string, st': ReaderState, m: Entries, stopKey: string)
    requires Inside(text, st) && NextPair(text, st) == Pair(key, value, st') && key != stopKey
    ensures ReadBlock(text, st, m, stopKey) == ReadBlock(text, st', Put(m, key, value), stopKey)
  {
  }

  /** The last step: the pair with the stop key is put and the loop stops. */
  lemma BlockStop(text: string, st: ReaderState, key: string, value: string, st': ReaderState, m: Entries, stopKey: string)
    requires Inside(text, st) && NextPair(text, st) == Pair(key, value, st') && key == stopKey
    ensures ReadBlock(text, st, m, stopKey) == Block(Put(m, key, value), st')
  {
  }

  /** From `st` the reader reads exactly the pairs `ps`, one after the other,
      and then stands at `last`. */
  predicate ReadsPairs(text: string, st: ReaderState, ps: seq<(string, string)>, last: ReaderState)
    decreases |ps|
  {
    Inside(text, st) &&
    if ps == [] then st == last
    else
      var o := NextPair(text, st);
      o.Pair? && o.key == ps[0].0 && o.value == ps[0].1 && ReadsPairs(text, o.after, ps[1..], last)
  }

  /** Pairs written out plainly are read back as written. */
  lemma {:induction false} PairsTextReads(text: string, pos: nat, ps: seq<(string, string)>, rest: string,
                                          line: int, last: ReaderState)
    requires forall i :: 0 <= i < |ps| ==> PlainPair(ps[i])
    requires pos <= |text| && text[pos..] == PairsText(ps) + rest
    requires last == ReaderState(pos + |PairsText(ps)|, [], line)
    ensures ReadsPairs(text, ReaderState(pos, [], line), ps, last)
    decreases |ps|
  {
    if ps != [] {
      var next := ReaderState(pos + |ps[0].0| + |ps[0].1| + 3, [], line);
      FirstPair(text, pos, ps, rest, line);
      PairsTextReads(text, next.pos, ps[1..], rest, line, last);
      ReadsPairsCons(text, ReaderState(pos, [], line), ps, next, last);
    }
  }

  /** A pair read at `st`, then the rest from where it leaves the reader. */
  lemma ReadsPairsCons(text: string, st: ReaderState, ps: seq<(string, string)>, next: ReaderState, last: ReaderState)
    requires |ps| > 0 && Inside(text, st) && NextPair(text, st) == Pair(ps[0].0, ps[0].1, next)
    requires ReadsPairs(text, next, ps[1..], last)
    ensures ReadsPairs(text, st, ps, last)
  {
  }

  /** Pairs read one after the other, only the last with the stop key, make
      one block. */
  lemma {:induction false} ReadsUntilStop(text: string, st: ReaderState, ps: seq<(string, string)>,
                                          m: Entries, stopKey: string, last: ReaderState)
    requires ReadsPairs(text, st, ps, last) && EndsAtLast(ps, stopKey)
    ensures ReadBlock(text, st, m, stopKey) == Block(PutAll(m, ps), last)
    decreases |ps|
  {
    var o := NextPair(text, st);
    if |ps| == 1 {
      BlockStop(text, st, o.key, o.value, o.after, m, stopKey);
      assert PutAll(m, ps) == PutAll(Put(m, ps[0].0, ps[0].1), []);
    } else {
      BlockStep(text, st, o.key, o.value, o.after, m, stopKey);
      ReadsUntilStop(text, o.after, ps[1..], Put(m, ps[0].0, ps[0].1), stopKey, last);
    }
  }

  /** Pairs read one after the other, none with the stop key, and then no
      pair, make one block. */
  lemma {:induction false} ReadsUntilNoPair(text: string, st: ReaderState, ps: seq<(string, string)>,
                                            m: Entries, stopKey: string, last: ReaderState, st': ReaderState)
    requires ReadsPairs(text, st, ps, last) && NoneStops(ps, stopKey)
    requires Inside(text, last) && NextPair(text, last) == NoPair(st')
    ensures ReadBlock(text, st, m, stopKey) == Block(PutAll(m, ps), st')
    decreases |ps|
  {
    if ps == [] {
      BlockEnd(text, st, st', m, stopKey);
    } else {
      var o := NextPair(text, st);
      BlockStep(text, st, o.key, o.value, o.after, m, stopKey);
      ReadsUntilNoPair(text, o.after, ps[1..], Put(m, ps[0].0, ps[0].1), stopKey, last, st');
    }
  }

  /** Pairs written out plainly, none but the last with the stop key as
      written, make one block: all of them are put, and the reader stops
      just past the last `;`. A key that only lower-cases to the stop key
      does not end the block. */
  lemma BlockOfPairs(text: string, pos: nat, ps: seq<(string, string)>, rest: string,
                     m: Entries, stopKey: string, line: int)
    requires |ps| > 0 && forall i :: 0 <= i < |ps| ==> PlainPair(ps[i])
    requires forall i :: 0 <= i < |ps| - 1 ==> ps[i].0 != stopKey
    requires ps[|ps| - 1].0 == stopKey
    requires pos <= |text| && text[pos..] == PairsText(ps) + rest
    ensures ReadBlock(text, ReaderState(pos, [], line), m, stopKey) ==
              Block(PutAll(m, ps), ReaderState(pos + |PairsText(ps)|, [], line))
  {
    var last := ReaderState(pos + |PairsText(ps)|, [], line);
    EndsAtLastOf(ps, stopKey);
    PairsTextReads(text, pos, ps, rest, line, last);
    ReadsUntilStop(text, ReaderState(pos, [], line), ps, m, stopKey, last);
  }

  /** `#attacks:` lower-cases to the song's stop key but is not it as
      written: the song block takes it and goes on to `#ATTACKS:;`. */
  lemma LowerStopKeyGoesOn(text: string, pos: nat, rest: string, m: Entries, line: int)
    requires pos <= |text| && text[pos..] == "#attacks:x;#ATTACKS:;" + rest
    ensures ReadBlock(text, ReaderState(pos, [], line), m, "ATTACKS") ==
              Block(Put(Put(m, "attacks", "x"), "ATTACKS", ""), ReaderState(pos + 21, [], line))
  {
    var ps := [("attacks", "x"), ("ATTACKS", "")];
    assert PairsText(ps[1..][1..]) == [];
    assert PairsText(ps) == "#attacks:x;#ATTACKS:;";
    assert PutAll(m, ps) == Put(Put(m, "attacks", "x"), "ATTACKS", "");
    BlockOfPairs(text, pos, ps, rest, m, "ATTACKS", line);
  }

  /** Pairs none of which has the stop key, followed by something that is
      not a pair, make one block that ends where parseKeyValuePair gives up. */
  lemma BlockUntilNoPair(text: string, pos: nat, ps: seq<(string, string)>, rest: string,
                         m: Entries, stopKey: string, line: int, st': ReaderState)
    requires forall i :: 0 <= i < |ps| ==> PlainPair(ps[i]) && ps[i].0 != stopKey
    requires pos <= |text| && text[pos..] == PairsText(ps) + rest
    requires NextPair(text, ReaderState(pos + |PairsText(ps)|, [], line)) == NoPair(st')
    ensures ReadBlock(text, ReaderState(pos, [], line), m, stopKey) == Block(PutAll(m, ps), st')
  {
    var last := ReaderState(pos + |PairsText(ps)|, [], line);
    NoneStopsOf(ps, stopKey);
    PairsTextReads(text, pos, ps, rest, line, last);
    ReadsUntilNoPair(text, ReaderState(pos, [], line), ps, m, stopKey, last, st');
  }

  /** No pair: the block is what has been put so far. */
  lemma BlockEnd(text: string, st: ReaderState, st': ReaderState, m: Entries, stopKey: string)
    requires Inside(text, st) && NextPair(text, st) == NoPair(st')
    ensures ReadBlock(text, st, m, stopKey) == Block(m, st')
  {
  }

  /** The chart loop ends exactly at a block that comes out empty, and that
      happens exactly when no pair follows. */
  lemma EmptyBlockEndsCharts(text: string, st: ReaderState, song: SongMeta, charts: seq<Chart>)
    requires Inside(text, st)
    ensures (ReadBlock(text, st, map[], "NOTES").Block? && ReadBlock(text, st, map[], "NOTES").entries == map[])
              <==> NextPair(text, st).NoPair?
    ensures NextPair(text, st).NoPair? ==> ChartLoop(text, st, song, charts) == Parsed(song, charts)
  {
    match NextPair(text, st)
    case Hangs =>
    case NoPair(_) =>
    case Pair(key, value, st') =>
      var m' := Put(map[], key, value);
      LowerIdempotent(key);
      assert Lower(key) in m';
      if key != "NOTES" {
        BlockKeys(text, st', m', "NOTES");
      }
  }

  // ---------------------------------------------------------------------------
  // #BPMS

  /** The entries are read in order: when they are all read, the i-th
      change is the i-th entry's. */
  lemma {:induction false} ParsedChangesRead(entries: seq<string>)
    requires ParsedChanges(entries).Success?
    ensures forall i :: 0 <= i < |entries| ==> Change(entries[i]) == Success(ParsedChanges(entries).value[i])
    decreases |entries|
  {
    if entries != [] {
      var rest := entries[1..];
      ParsedChangesRead(rest);
      var cs := ParsedChanges(entries).value;
      assert cs[1..] == ParsedChanges(rest).value;
      forall i | 1 <= i < |entries|
        ensures Change(entries[i]) == Success(cs[i])
      {
        assert rest[i - 1] == entries[i];
      }
    }
  }

  /** They are all read whenever no entry is malformed. */
  lemma {:induction false} ParsedChangesAll(entries: seq<string>)
    requires forall i :: 0 <= i < |entries| ==> Change(entries[i]).Success?
    ensures ParsedChanges(entries).Success?
    decreases |entries|
  {
    if entries != [] {
      var rest := entries[1..];
      assert forall i :: 0 <= i < |rest| ==> rest[i] == entries[i + 1];
      ParsedChangesAll(rest);
    }
  }

  /** A malformed entry fails the whole list with the fault of the first
      malformed entry. */
  lemma ParsedChangesFault(entries: seq<string>, i: int)
    requires 0 <= i < |entries| && Change(entries[i]).Failure?
    requires forall j :: 0 <= j < i ==> Change(entries[j]).Success?
    ensures ParsedChanges(entries) == Failure(Change(entries[i]).error)
  {
    var rs := Changes(entries);
    ParsedGathers(entries);
    GatherFault(rs, i);
  }

  /** Every entry read on its own. */
  function Changes(entries: seq<string>): (rs: seq<Result<(int, real), Fault>>)
    ensures |rs| == |entries| && forall k :: 0 <= k < |entries| ==> rs[k] == Change(entries[k])
  {
    if entries == [] then [] else [Change(entries[0])] + Changes(entries[1..])
  }

  /** The values of results read in order, or the first failure. */
  function Gather(rs: seq<Result<(int, real), Fault>>): Result<seq<(int, real)>, Fault> {
    if rs == [] then Success([])
    else
      match rs[0]
      case Failure(f) => Failure(f)
      case Success(c) =>
        match Gather(rs[1..])
        case Failure(f) => Failure(f)
        case Success(cs) => Success([c] + cs)
  }

  lemma {:induction false} ParsedGathers(entries: seq<string>)
    ensures ParsedChanges(entries) == Gather(Changes(entries))
  {
    if entries != [] {
      ParsedGathers(entries[1..]);
      assert Changes(entries)[1..] == Changes(entries[1..]);
    }
  }

  lemma {:induction false} GatherFault(rs: seq<Result<(int, real), Fault>>, i: int)
    requires 0 <= i < |rs| && rs[i].Failure? && forall j :: 0 <= j < i ==> rs[j].Success?
    ensures Gather(rs) == Failure(rs[i].error)
    decreases i
  {
    if i > 0 {
      GatherFault(rs[1..], i - 1);
    }
  }

  /** A pair that no later change touches survives the changes. */
  lemma {:induction false} FoldKeeps(t: TempoList, changes: seq<(int, real)>, e: (int, real))
    requires WellFormed(t) && e in Pairs(t)
    requires forall i :: 0 <= i < |changes| ==> changes[i].0 != e.0
    ensures WellFormed(Fold(t, changes)) && e in Pairs(Fold(t, changes))
    decreases |changes|
  {
    if changes != [] {
      var (p, v) := changes[0];
      SetChangeWellFormed(t, p, v);
      SetChangePairs(t, p, v);
      assert forall i :: 1 <= i < |changes| ==> changes[1..][i - 1] == changes[i];
      FoldKeeps(SetChange(t, p, v), changes[1..], e);
    }
  }

  /** The last change given for a beat is the pair stored for that beat. */
  lemma {:induction false} FoldLastWins(t: TempoList, changes: seq<(int, real)>, i: int)
    requires WellFormed(t) && 0 <= i < |changes|
    requires forall j :: i < j < |changes| ==> changes[j].0 != changes[i].0
    ensures changes[i] in Pairs(Fold(t, changes))
    decreases |changes|
  {
    var (p, v) := changes[0];
    SetChangeWellFormed(t, p, v);
    var rest := changes[1..];
    assert forall j :: 1 <= j < |changes| ==> rest[j - 1] == changes[j];
    if i == 0 {
      SetChangePairs(t, p, v);
      FoldKeeps(SetChange(t, p, v), rest, (p, v));
    } else {
      FoldLastWins(SetChange(t, p, v), rest, i - 1);
    }
  }

  /** So a lookup at a beat that `#BPMS` names answers the tempo last given
      for it. */
  lemma LastChangeDecides(t: TempoList, changes: seq<(int, real)>, i: int)
    requires WellFormed(t) && 0 <= i < |changes|
    requires forall j :: i < j < |changes| ==> changes[j].0 != changes[i].0
    ensures BpmAt(Fold(t, changes), changes[i].0) == Success(changes[i].1)
  {
    FoldLastWins(t, changes, i);
    PairLookup(Fold(t, changes), changes[i]);
  }

  /** In a well-formed list, a stored pair is what a lookup at its position
      answers. */
  lemma PairLookup(t: TempoList, e: (int, real))
    requires WellFormed(t) && e in Pairs(t)
    ensures BpmAt(t, e.0) == Success(e.1)
  {
    var k :| 0 <= k < |t.positions| && (t.positions[k], t.values[k]) == e;
    StepFunction(t, k, e.0);
  }

  // ---------------------------------------------------------------------------
  // Song and charts

  /** The song data is read exactly when the three numbers parse, the three
      paths are present and `#BPMS` is well formed. */
  lemma GlobalMetadataReads(m: Entries)
    ensures GlobalMetadata(m).Success? <==>
              DoubleOf(m, "offset").Success? && DoubleOf(m, "samplestart").Success? &&
              DoubleOf(m, "samplelength").Success? && Get(m, "banner").Some? &&
              Get(m, "background").Some? && Get(m, "music").Some? && TempoOf(m).Success?
  {
  }

  /** A chart is skipped exactly when its `#STEPSTYPE` has a known game mode
      but names no known steps type. */
  lemma ChartSkipped(song: SongMeta, m: Entries, line: int)
    ensures ChartOf(song, m, line).Skipped? <==>
              Get(m, "stepstype").Some? &&
              var tokens := JavaSplit(Get(m, "stepstype").value, '-', false);
              |tokens| >= 2 && GameModeOf(Upper(tokens[0])).Some? &&
              StepsTypeOf(Upper(ReplaceThree(tokens[1]))).None?
  {
    match Get(m, "stepstype")
    case None =>
    case Some(stepsType) =>
      var tokens := JavaSplit(stepsType, '-', false);
      if |tokens| >= 2 && GameModeOf(Upper(tokens[0])).Some? {
      }
  }

  /** A chart that is well formed, belongs to `song` and reports its offset. */
  predicate OfSong(c: Chart, song: SongMeta)
  {
    ChartValid(c) && c.song == song && GetOffset(c) == song.offset
  }

  /** A chart that is added is well formed, belongs to the song it was read
      for and reports that song's offset. */
  lemma ChartAdded(song: SongMeta, m: Entries, line: int)
    requires WellFormed(song.timeCourse)
    ensures ChartOf(song, m, line).Added? ==> OfSong(ChartOf(song, m, line).chart, song)
  {
    var r := ChartOf(song, m, line);
    if r.Added? {
      var c := r.chart;
      var noteData := Get(m, "notes").value;
      NotesShape(noteData, line);
      WholeBars(|JavaSplit(noteData, ',', true)|, |c.notes|);
      assert c.timeCourse.Some? ==> WellFormed(c.timeCourse.value);
    }
  }

  lemma WholeBars(bars: nat, ticks: nat)
    requires ticks == 192 * bars
    ensures ticks % 192 == 0
  {
  }

  /** What parse() returns: a song with a well-formed time course, and
      charts that are all well formed, all refer to that song and all report
      its offset. */
  lemma ParsedSong(text: string, st: ReaderState)
    requires Inside(text, st)
    ensures ParseFrom(text, st).Parsed? ==>
              var r := ParseFrom(text, st);
              WellFormed(r.song.timeCourse) &&
              forall c :: c in r.charts ==> ChartValid(c) && c.song == r.song && GetOffset(c) == r.song.offset
  {
    match ReadBlock(text, st, map[], "ATTACKS")
    case Endless =>
    case Block(m, st') =>
      if GlobalMetadata(m).Success? {
        ParsedCharts(text, st', GlobalMetadata(m).value, []);
      }
  }

  lemma {:induction false} ParsedCharts(text: string, st: ReaderState, song: SongMeta, charts: seq<Chart>)
    requires Inside(text, st) && WellFormed(song.timeCourse)
    requires forall c :: c in charts ==> OfSong(c, song)
    ensures ChartLoop(text, st, song, charts).Parsed? ==>
              var r := ChartLoop(text, st, song, charts);
              r.song == song && charts <= r.charts && forall c :: c in r.charts ==> OfSong(c, song)
    decreases Measure(text, st)
  {
    match ReadBlock(text, st, map[], "NOTES")
    case Endless =>
    case Block(m, st') =>
      if m != map[] {
        match ChartOf(song, m, st'.line)
        case Crash(_) =>
        case Skipped => ParsedCharts(text, st', song, charts);
        case Added(c) =>
          ChartAdded(song, m, st'.line);
          ParsedCharts(text, st', song, charts + [c]);
      }
  }
}
