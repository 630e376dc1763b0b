/** The song and its charts as the parser leaves them (SMFile and Chart).
    Both are read-only once parsing is over, so they are modelled as values;
    a chart carries a copy of the song data it refers back to. */
module Charts {
  import opened Base
  import opened TimeCourses
  import opened Notes

  datatype GameMode = Dance | Pump | Kb7 | Para | Beat | Techno | Lights | Kickbox
  datatype StepsType = Single | Double | Couple | Solo | Routine | ThreePanel
  datatype Difficulty = Beginner | Easy | Medium | Hard | Challenge | Edit

  // ---------------------------------------------------------------------------
  // Enum.valueOf and Enum.name

  function GameModeName(m: GameMode): string {
    match m
    case Dance => "DANCE"
    case Pump => "PUMP"
    case Kb7 => "KB7"
    case Para => "PARA"
    case Beat => "BEAT"
    case Techno => "TECHNO"
    case Lights => "LIGHTS"
    case Kickbox => "KICKBOX"
  }

  /** GameMode.valueOf: None stands for IllegalArgumentException. */
  function GameModeOf(name: string): (r: Option<GameMode>)
    ensures r.Some? ==> GameModeName(r.value) == name
  {
    if name == "DANCE" then Some(Dance)
    else if name == "PUMP" then Some(Pump)
    else if name == "KB7" then Some(Kb7)
    else if name == "PARA" then Some(Para)
    else if name == "BEAT" then Some(Beat)
    else if name == "TECHNO" then Some(Techno)
    else if name == "LIGHTS" then Some(Lights)
    else if name == "KICKBOX" then Some(Kickbox)
    else None
  }

  function StepsTypeName(s: StepsType): string {
    match s
    case Single => "SINGLE"
    case Double => "DOUBLE"
    case Couple => "COUPLE"
    case Solo => "SOLO"
    case Routine => "ROUTINE"
    case ThreePanel => "THREE_PANEL"
  }

  /** StepsType.valueOf: None stands for IllegalArgumentException. */
  function StepsTypeOf(name: string): (r: Option<StepsType>)
    ensures r.Some? ==> StepsTypeName(r.value) == name
  {
    if name == "SINGLE" then Some(Single)
    else if name == "DOUBLE" then Some(Double)
    else if name == "COUPLE" then Some(Couple)
    else if name == "SOLO" then Some(Solo)
    else if name == "ROUTINE" then Some(Routine)
    else if name == "THREE_PANEL" then Some(ThreePanel)
    else None
  }

  function DifficultyName(d: Difficulty): string {
    match d
    case Beginner => "BEGINNER"
    case Easy => "EASY"
    case Medium => "MEDIUM"
    case Hard => "HARD"
    case Challenge => "CHALLENGE"
    case Edit => "EDIT"
  }

  /** Difficulty.valueOf: None stands for IllegalArgumentException. */
  function DifficultyOf(name: string): (r: Option<Difficulty>)
    ensures r.Some? ==> DifficultyName(r.value) == name
  {
    if name == "BEGINNER" then Some(Beginner)
    else if name == "EASY" then Some(Easy)
    else if name == "MEDIUM" then Some(Medium)
    else if name == "HARD" then Some(Hard)
    else if name == "CHALLENGE" then Some(Challenge)
    else if name == "EDIT" then Some(Edit)
    else None
  }

  /** valueOf accepts exactly the constant names, each for its constant. */
  lemma EnumNamesRoundTrip(m: GameMode, s: StepsType, d: Difficulty)
    ensures GameModeOf(GameModeName(m)) == Some(m)
    ensures StepsTypeOf(StepsTypeName(s)) == Some(s)
    ensures DifficultyOf(DifficultyName(d)) == Some(d)
  {
  }

  // ---------------------------------------------------------------------------
  // SMFile and Chart

  /** The song-wide data of an SMFile; the files are kept as their paths. */
  datatype SongMeta = SongMeta(
    version: Option<string>, title: Option<string>, subtitle: Option<string>,
    artist: Option<string>, credit: Option<string>,
    offset: real, sampleStart: real, sampleLength: real,
    banner: string, background: string, music: string,
    timeCourse: TempoList)

  /** The offset value that means "use the song's offset". */
  const NoOffset: real := -1.0

  datatype Chart = Chart(
    song: SongMeta,
    difficultyValue: int,
    difficultyType: Difficulty,
    difficultyDescription: Option<string>,
    gameMode: GameMode,
    stepsType: StepsType,
    notes: Grid,
    offset: real,
    timeCourse: Option<TempoList>)

  /** A chart as the parser builds it: a 4-lane grid of whole bars, its own
      time course well-formed if it has one, and the song's as well. */
  predicate ChartValid(c: Chart) {
    IsGrid(c.notes) && |c.notes| % 192 == 0 &&
    WellFormed(c.song.timeCourse) &&
    (c.timeCourse.Some? ==> WellFormed(c.timeCourse.value))
  }

  /** length(): the chart's length in bars, a fraction when the grid does
      not end on a bar line. */
  function Length(c: Chart): (r: real)
    ensures r * 192.0 == |c.notes| as real && r >= 0.0
    ensures |c.notes| % 192 == 0 ==> r == (|c.notes| / 192) as real
  {
    |c.notes| as real / 192.0
  }

  /** getState(position, arrow): the cell code, or the index that is out of
      bounds (the tick is checked before the lane). */
  function GetState(c: Chart, position: int, arrow: int): (r: Result<Byte, Fault>)
    requires IsGrid(c.notes)
    ensures r.Success? <==> 0 <= position < |c.notes| && 0 <= arrow < 4
    ensures r.Failure? ==> r.error == IndexOutOfBounds(if 0 <= position < |c.notes| then arrow else position)
  {
    if !(0 <= position < |c.notes|) then Failure(IndexOutOfBounds(position))
    else if !(0 <= arrow < 4) then Failure(IndexOutOfBounds(arrow))
    else Success(c.notes[position][arrow])
  }

  /** The time course that governs the chart: its own, else the song's. */
  function EffectiveTempo(c: Chart): TempoList {
    if c.timeCourse.None? then c.song.timeCourse else c.timeCourse.value
  }

  /** getBPM(position): asks the chart's own time course, and falls back on
      the song's when the chart has none. */
  function GetBPM(c: Chart, position: int): (r: Result<real, Fault>)
    requires ChartValid(c)
    ensures r == BpmAt(EffectiveTempo(c), position)
  {
    if c.timeCourse.None? then BpmAt(c.song.timeCourse, position)
    else BpmAt(c.timeCourse.value, position)
  }

  /** getOffset(): the chart's offset, unless it is the -1 sentinel, in
      which case the song's. */
  function GetOffset(c: Chart): (r: real)
    ensures r == c.offset || r == c.song.offset
    ensures c.offset != NoOffset ==> r == c.offset
  {
    if c.offset == NoOffset then c.song.offset else c.offset
  }

  /** getBPM never fails from the song start on, and what it answers is the
      value of a change at or before the position, with no other change in
      between. */
  lemma ChartBpm(c: Chart, position: int)
    requires ChartValid(c)
    ensures 0 <= position ==> GetBPM(c, position).Success?
    ensures GetBPM(c, position).Success? ==>
              var t := EffectiveTempo(c);
              exists i :: 0 <= i < |t.positions| && t.positions[i] <= position &&
                          (i + 1 < |t.positions| ==> position < t.positions[i + 1]) &&
                          GetBPM(c, position).value == t.values[i]
  {
    var t := EffectiveTempo(c);
    BpmDefinedFrom(t, position);
    if GetBPM(c, position).Success? {
      var i := LastAtOrBelow(t.positions, position);
      LastAtOrBelowCharacterized(t.positions, position, i);
      StepFunction(t, i, position);
    }
  }

  /** A chart with its own time course never looks at the song's, and the
      offset a chart reports is the song's exactly when it holds the
      sentinel. */
  lemma ChartFallbacks(c: Chart, song: SongMeta, position: int)
    requires ChartValid(c) && c.timeCourse.Some? && WellFormed(song.timeCourse)
    ensures GetBPM(c, position) == GetBPM(c.(song := song), position)
    ensures GetOffset(c.(offset := NoOffset)) == c.song.offset
  {
  }
}
