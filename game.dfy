/** Game.java: plays a chart on an 8 x 4 button grid. Notes scroll one row
    per step (every 12 ticks); the top row is painted with the colours of the
    ticks seven steps ahead. The device, the audio clip, the sleeps and the
    timer thread are outside the model: the device is its grid of colours,
    and the start-up is the ordered list of what init() triggers. */
module Playback {
  import opened Base
  import opened TimeCourses
  import opened Notes
  import opened Charts

  /** The device colours the game uses (Blank is the device's EMPTY); their
      byte values are the device's own and play no part. */
  datatype Color = Blank | StrongRed | StrongGreen | Lime1 | StrongYellow | WeakRed

  /** 192 / resolution: the ticks between two grid rows. */
  const StepTicks: int := 12

  /** The note kinds, coarsest first: quarter notes, eighths, and so on. */
  const ColorTypes: seq<int> := [4, 8, 12, 16, 24, 32, 48, 64, 192]

  /** One colour per note kind, but only for the first five kinds. */
  const Colors: seq<Color> := [StrongRed, StrongGreen, Lime1, StrongYellow, Lime1]

  const TailColor: Color := WeakRed

  /** `tick % (192 / colorTypes[i]) == 0`: Java's truncating remainder is
      zero exactly when Dafny's is, so the test is the same for negative
      ticks. */
  predicate Aligned(t: int, i: int)
    requires 0 <= i < |ColorTypes|
  {
    t % (192 / ColorTypes[i]) == 0
  }

  /** The search of getRhythmPosition from index `i` on. */
  function RhythmFrom(t: int, i: nat): (r: nat)
    requires i < |ColorTypes|
    ensures i <= r < |ColorTypes| && Aligned(t, r)
    ensures forall j :: i <= j < r ==> !Aligned(t, j)
    decreases |ColorTypes| - i
  {
    if Aligned(t, i) then i
    else if i + 1 < |ColorTypes| then RhythmFrom(t, i + 1)
    else |ColorTypes| - 1
  }

  /** getRhythmPosition(tick): the coarsest note kind the tick lies on. */
  function RhythmIndex(t: int): (r: nat)
    ensures r < |ColorTypes| && Aligned(t, r)
    ensures forall j :: 0 <= j < r ==> !Aligned(t, j)
  {
    RhythmFrom(t, 0)
  }

  /** getRhythmPosition, as the loop the source runs. */
  method GetRhythmPosition(t: int) returns (i: int)
    ensures i == RhythmIndex(t)
  {
    i := 0;
    assert Aligned(t, |ColorTypes| - 1);
    while i < |ColorTypes|
      invariant i <= |ColorTypes|
      invariant forall j :: 0 <= j < i ==> !Aligned(t, j)
    {
      if t % (192 / ColorTypes[i]) == 0 {
        RhythmFirst(t, i);
        return;
      }
      i := i + 1;
    }
    assert false;
    i := |ColorTypes| - 1;
  }

  /** The first aligned index is the rhythm index. */
  lemma RhythmFirst(t: int, i: nat)
    requires i < |ColorTypes| && Aligned(t, i)
    requires forall j :: 0 <= j < i ==> !Aligned(t, j)
    ensures RhythmIndex(t) == i
  {
  }

  /** Ticks on a quarter note are of the first kind, and a tick is of the
      sixth kind or finer (past the colours there are) exactly when it is on
      neither the sixteenth-note grid (every 12 ticks) nor the
      twenty-fourth-note grid (every 8 ticks). */
  lemma RhythmKinds(t: int)
    ensures t % 48 == 0 ==> RhythmIndex(t) == 0
    ensures RhythmIndex(t) >= |Colors| <==> t % 8 != 0 && t % 12 != 0
  {
    var r := RhythmIndex(t);
    if t % 48 == 0 {
      RhythmFirst(t, 0);
    }
    if r >= 5 {
      assert !Aligned(t, 3) && !Aligned(t, 4);
    } else {
      assert Aligned(t, r);
      if r < 3 {
        DividesDown(t, 192 / ColorTypes[r], 192 / ColorTypes[r] / 8);
      } else if r == 3 {
      } else {
      }
    }
  }

  lemma DividesDown(t: int, d: int, k: int)
    requires d > 0 && k > 0 && d == 8 * k && t % d == 0
    ensures t % 8 == 0
  {
    var q := t / d;
    assert t == d * q;
    assert t == 8 * (k * q);
  }

  /** getColor(tick, col): the colour of a cell, or the index out of bounds
      that getState or the colour table raises. Taps, hold heads and roll
      heads (1, 2, 4) take the colour of their note kind, hold bodies and
      tails (3) and code 5 the tail colour, everything else none. */
  function ColorAt(c: Chart, t: int, lane: int): (r: Result<Color, Fault>)
    requires IsGrid(c.notes)
    ensures GetState(c, t, lane).Failure? ==> r == Failure(GetState(c, t, lane).error)
    ensures GetState(c, t, lane).Success? ==>
              var code := GetState(c, t, lane).value;
              if code == 1 || code == 2 || code == 4 then
                if RhythmIndex(t) < |Colors| then r == Success(Colors[RhythmIndex(t)])
                else r == Failure(IndexOutOfBounds(RhythmIndex(t)))
              else if code == 3 || code == 5 then r == Success(TailColor)
              else r == Success(Blank)
  {
    match GetState(c, t, lane)
    case Failure(f) => Failure(f)
    case Success(arrow) =>
      if arrow == 1 || arrow == 2 || arrow == 4 then
        var i := RhythmIndex(t);
        if i < |Colors| then Success(Colors[i]) else Failure(IndexOutOfBounds(i))
      else if arrow == 3 || arrow == 5 then Success(TailColor)
      else Success(Blank)
  }

  /** A note is coloured by its kind alone (quarter notes red, eighths green,
      and so on), a hold body or tail never fails, and a note off the
      colour table fails with the rhythm index. */
  lemma ColorKinds(c: Chart, t: int, lane: int)
    requires IsGrid(c.notes) && 0 <= t < |c.notes| && 0 <= lane < 4
    ensures c.notes[t][lane] == Tail ==> ColorAt(c, t, lane) == Success(WeakRed)
    ensures c.notes[t][lane] == Tap && t % 48 == 0 ==> ColorAt(c, t, lane) == Success(StrongRed)
    ensures c.notes[t][lane] in {Tap, HoldHead, RollHead} && t % 8 != 0 && t % 12 != 0 ==>
              ColorAt(c, t, lane) == Failure(IndexOutOfBounds(RhythmIndex(t)))
    ensures c.notes[t][lane] in {Empty, Mine, KeySound, Lift, Fake} ==> ColorAt(c, t, lane) == Success(Blank)
  {
    RhythmKinds(t);
  }

  // ---------------------------------------------------------------------------
  // The grid

  type Rows = seq<seq<Color>>

  predicate IsRows(rows: Rows) {
    |rows| == 8 && forall r :: 0 <= r < 8 ==> |rows[r]| == 4
  }

  /** The top row from lane `lane` on painted with the colours of tick `t`;
      painting stops at the first lane whose colour raises, and that fault
      comes out with the row as far as it got. */
  function PaintFrom(c: Chart, t: int, row: seq<Color>, lane: nat): (r: (seq<Color>, Option<Fault>))
    requires IsGrid(c.notes) && |row| == 4 && lane <= 4
    ensures |r.0| == 4
    decreases 4 - lane
  {
    if lane == 4 then (row, None)
    else
      match ColorAt(c, t, lane)
      case Failure(f) => (row, Some(f))
      case Success(color) => PaintFrom(c, t, row[lane := color], lane + 1)
  }

  /** What redrawArrows leaves: every row moved one down (the bottom row
      dropped) and the top row painted for tick `t`, or the fault that
      interrupted the painting. */
  function Redrawn(c: Chart, t: int, rows: Rows): (r: (Rows, Option<Fault>))
    requires IsGrid(c.notes) && IsRows(rows)
    ensures IsRows(r.0)
  {
    var (top, fault) := PaintFrom(c, t, rows[0], 0);
    ([top] + rows[..7], fault)
  }

  /** Painting either colours all four lanes, or colours the lanes before the
      first failing one and leaves the others as they were. */
  lemma {:induction false} PaintLanes(c: Chart, t: int, row: seq<Color>, lane: nat)
    requires IsGrid(c.notes) && |row| == 4 && lane <= 4
    ensures var (painted, fault) := PaintFrom(c, t, row, lane);
      (forall l :: 0 <= l < lane ==> painted[l] == row[l]) &&
      match fault
      case None => forall l :: lane <= l < 4 ==> ColorAt(c, t, l) == Success(painted[l])
      case Some(f) =>
        exists k :: lane <= k < 4 && ColorAt(c, t, k) == Failure(f) &&
          (forall l :: lane <= l < k ==> ColorAt(c, t, l) == Success(painted[l])) &&
          (forall l :: k <= l < 4 ==> painted[l] == row[l])
    decreases 4 - lane
  {
    if lane < 4 {
      match ColorAt(c, t, lane)
      case Failure(f) =>
      case Success(color) =>
        PaintLanes(c, t, row[lane := color], lane + 1);
    }
  }

  /** A chart cell past the end of the chart stops the painting at lane 0, so
      after a redraw there the top row keeps what it showed. */
  lemma PastTheEnd(c: Chart, t: int, rows: Rows)
    requires IsGrid(c.notes) && IsRows(rows) && t >= |c.notes|
    ensures Redrawn(c, t, rows) == ([rows[0]] + rows[..7], Some(IndexOutOfBounds(t)))
  {
  }

  /** `n` redraws at game ticks `g`, `g + 12`, ..., each painting the tick
      seven steps (84 ticks) ahead, up to the first fault. */
  function RedrawRun(c: Chart, g: int, rows: Rows, n: nat): (r: (Rows, Option<Fault>))
    requires IsGrid(c.notes) && IsRows(rows)
    ensures IsRows(r.0)
    decreases n
  {
    if n == 0 then (rows, None)
    else
      var (next, fault) := Redrawn(c, g + 84, rows);
      if fault.Some? then (next, fault) else RedrawRun(c, g + 12, next, n - 1)
  }

  /** Rows below the ones repainted in a run of redraws hold what was
      further up before it. */
  lemma {:induction false} RunKeepsOld(c: Chart, g: int, rows: Rows, n: nat, j: nat)
    requires IsGrid(c.notes) && IsRows(rows) && RedrawRun(c, g, rows, n).1.None?
    requires n <= j < 8
    ensures RedrawRun(c, g, rows, n).0[j] == rows[j - n]
    decreases n
  {
    if n > 0 {
      var next := Redrawn(c, g + 84, rows).0;
      RunKeepsOld(c, g + 12, next, n - 1, j);
    }
  }

  /** After a run of `n` redraws without a fault, ending at game tick `g'`,
      row `j` (for `j < n`) shows exactly the colours of tick
      `g' + 84 - 12 j`: the grid is a window on the chart that moves one row
      per step, with the bottom row at the tick of the current step. */
  lemma {:induction false} RunShowsTicks(c: Chart, g: int, rows: Rows, n: nat, j: nat, lane: nat)
    requires IsGrid(c.notes) && IsRows(rows) && RedrawRun(c, g, rows, n).1.None?
    requires j < n && j < 8 && lane < 4
    ensures ColorAt(c, g + 12 * (n - 1) + 84 - 12 * j, lane) == Success(RedrawRun(c, g, rows, n).0[j][lane])
    decreases n
  {
    var (next, fault) := Redrawn(c, g + 84, rows);
    if j < n - 1 {
      RunShowsTicks(c, g + 12, next, n - 1, j, lane);
    } else {
      RunKeepsOld(c, g + 12, next, n - 1, j);
      PaintLanes(c, g + 84, rows[0], 0);
    }
  }

  /** A run of `n + 1` redraws is a run of `n` followed, when that met no
      fault, by one more redraw 12 ticks after its last. */
  lemma {:induction false} RunSnoc(c: Chart, g: int, rows: Rows, n: nat)
    requires IsGrid(c.notes) && IsRows(rows)
    ensures var (before, fault) := RedrawRun(c, g, rows, n);
            RedrawRun(c, g, rows, n + 1) ==
              if fault.Some? then (before, fault) else Redrawn(c, g + 12 * n + 84, before)
    decreases n
  {
    if n > 0 {
      var (next, fault) := Redrawn(c, g + 84, rows);
      if fault.None? {
        RunSnoc(c, g + 12, next, n - 1);
      }
    }
  }

  /** A run that met a fault is not continued by asking for more redraws. */
  lemma {:induction false} RunStops(c: Chart, g: int, rows: Rows, m: nat, n: nat)
    requires IsGrid(c.notes) && IsRows(rows) && m <= n && RedrawRun(c, g, rows, m).1.Some?
    ensures RedrawRun(c, g, rows, n) == RedrawRun(c, g, rows, m)
    decreases m
  {
    var (next, fault) := Redrawn(c, g + 84, rows);
    if fault.None? {
      RunStops(c, g + 12, next, m - 1, n - 1);
    }
  }

  /** Counted from a step boundary `t0`, tick `t0 + k` starts a step exactly
      when the `done` steps begun before it are all over. */
  lemma StepPhase(t0: int, k: int, done: int)
    requires t0 % StepTicks == 0 && StepTicks * done - StepTicks < k <= StepTicks * done
    ensures (t0 + k) % StepTicks == 0 <==> k == StepTicks * done
  {
  }

  // ---------------------------------------------------------------------------
  // The game

  /** What init() triggers, in order. */
  datatype Event =
    | OpenClip                   // initMusic
    | StartNotes(bpm: real)      // initNotes: the timer, at the tempo of tick 0
    | StartClip                  // clip.start()
    | Wait(seconds: real)        // wait(time)

  function Abs(x: real): real {
    if x < 0.0 then -x else x
  }

  /** Whether `e` starts the clip (`clip`) or the notes (not `clip`). */
  predicate Starts(e: Event, clip: bool) {
    if clip then e.StartClip? else e.StartNotes?
  }

  /** The seconds that pass in `trace` before the clip (`clip`) or the notes
      (not `clip`) start. */
  function StartTime(trace: seq<Event>, clip: bool): real {
    if trace == [] || Starts(trace[0], clip) then 0.0
    else (if trace[0].Wait? then trace[0].seconds else 0.0) + StartTime(trace[1..], clip)
  }

  class Game {
    const chart: Chart
    /** The cell each button shows. */
    const display: array2<Color>
    var tick: int
    /** The timer that calls Tick; stopTimer cancels it. */
    var running: bool
    /** The device flag that redrawArrows raises while it redraws. */
    var preparing: bool
    /** What init() has triggered so far. */
    var events: seq<Event>

    ghost predicate Valid() {
      ChartValid(chart) && display.Length0 == 8 && display.Length1 == 4
    }

    /** The grid as rows of colours, row 0 at the top. */
    ghost function Grid(): (rows: Rows)
      reads display
      requires Valid()
      ensures IsRows(rows)
    {
      seq(8, r requires 0 <= r < 8 reads display => seq(4, l requires 0 <= l < 4 reads display => display[r, l]))
    }

    /** The grid starts dark; `tick` starts one step before the chart. */
    constructor (chart: Chart)
      requires ChartValid(chart)
      ensures Valid() && this.chart == chart && fresh(display)
      ensures tick == -StepTicks && !running && !preparing && events == []
      ensures forall r, l :: 0 <= r < 8 && 0 <= l < 4 ==> display[r, l] == Blank
    {
      this.chart := chart;
      display := new Color[8, 4]((r, l) => Blank);
      tick := -StepTicks;
      running := false;
      preparing := false;
      events := [];
    }

    /** getColor(tick, col). */
    method GetColor(t: int, lane: int) returns (r: Result<Color, Fault>)
      requires Valid()
      ensures r == ColorAt(chart, t, lane)
    {
      if !(0 <= t < |chart.notes|) {
        return Failure(IndexOutOfBounds(t));
      }
      if !(0 <= lane < 4) {
        return Failure(IndexOutOfBounds(lane));
      }
      var arrow := chart.notes[t][lane];
      if arrow == 1 || arrow == 2 || arrow == 4 {
        var i := GetRhythmPosition(t);
        if i >= |Colors| {
          return Failure(IndexOutOfBounds(i));
        }
        r := Success(Colors[i]);
      } else if arrow == 3 || arrow == 5 {
        r := Success(TailColor);
      } else {
        r := Success(Blank);
      }
    }

    /** redrawArrows: rows 7 down to 1 take the row above them, then row 0 is
        painted for the tick seven steps ahead. A fault leaves the device
        preparing. */
    method RedrawArrows() returns (fault: Option<Fault>)
      requires Valid()
      modifies this`preparing, display
      ensures (Grid(), fault) == Redrawn(chart, tick + 7 * StepTicks, old(Grid()))
      ensures preparing == fault.Some?
    {
      ghost var before := Grid();
      preparing := true;
      ShiftRows();
      assert Grid() == [before[0]] + before[..7];
      fault := PaintTop(tick + 7 * StepTicks, 0);
      assert Grid() == ([before[0]] + before[..7])[0 := Grid()[0]];
      assert ([before[0]] + before[..7])[0 := Grid()[0]] == [Grid()[0]] + before[..7];
      if fault.None? {
        preparing := false;
      }
    }

    /** The loop of redrawArrows that moves every row one down. */
    method ShiftRows()
      requires Valid()
      modifies display
      ensures Grid() == [old(Grid())[0]] + old(Grid())[..7]
    {
      ghost var before := Grid();
      var row := 7;
      while row > 0
        invariant 0 <= row <= 7
        invariant forall r, l :: 0 <= r <= row && 0 <= l < 4 ==> display[r, l] == before[r][l]
        invariant forall r, l :: row < r < 8 && 0 <= l < 4 ==> display[r, l] == before[r - 1][l]
      {
        var i := 0;
        while i < 4
          invariant 0 <= i <= 4
          invariant forall r, l :: 0 <= r < row && 0 <= l < 4 ==> display[r, l] == before[r][l]
          invariant forall l :: 0 <= l < i ==> display[row, l] == before[row - 1][l]
          invariant forall l :: i <= l < 4 ==> display[row, l] == before[row][l]
          invariant forall r, l :: row < r < 8 && 0 <= l < 4 ==> display[r, l] == before[r - 1][l]
        {
          display[row, i] := display[row - 1, i];
          i := i + 1;
        }
        row := row - 1;
      }
      assert forall r :: 0 <= r < 8 ==> Grid()[r] == ([before[0]] + before[..7])[r];
    }

    /** The loop of redrawArrows that paints row 0 from lane `lane` on. */
    method PaintTop(t: int, lane: nat) returns (fault: Option<Fault>)
      requires Valid() && lane <= 4
      modifies display
      ensures var (top, f) := PaintFrom(chart, t, old(Grid())[0], lane);
              Grid() == old(Grid())[0 := top] && fault == f
      decreases 4 - lane
    {
      if lane == 4 {
        assert Grid() == old(Grid())[0 := old(Grid())[0]];
        return None;
      }
      var color := GetColor(t, lane);
      if color.Failure? {
        assert Grid() == old(Grid())[0 := old(Grid())[0]];
        return Some(color.error);
      }
      ghost var before := Grid();
      display[0, lane] := color.value;
      assert forall r :: 0 <= r < 8 ==> Grid()[r] == before[0 := before[0][lane := color.value]][r];
      fault := PaintTop(t, lane + 1);
    }

    /** tick(): a redraw on every twelfth tick, which stops the timer when an
        index is out of bounds; then the tick advances. */
    method Tick()
      requires Valid()
      modifies this`tick, this`running, this`preparing, display
      ensures tick == old(tick) + 1
      ensures old(tick) % StepTicks != 0 ==>
                Grid() == old(Grid()) && running == old(running) && preparing == old(preparing)
      ensures old(tick) % StepTicks == 0 ==>
                var (rows, fault) := Redrawn(chart, old(tick) + 7 * StepTicks, old(Grid()));
                Grid() == rows && preparing == fault.Some? && running == (old(running) && fault.None?)
    {
      if tick % StepTicks == 0 {
        var fault := RedrawArrows();
        if fault.Some? {
          running := false;
        }
      }
      tick := tick + 1;
    }

    /** The timer that startTimer schedules, calling tick() from a step
        boundary for `n` steps of 12 ticks: the grid goes through the run of
        redraws that RedrawRun describes, and the timer is cancelled at the
        first fault. */
    method RunTimer(n: nat)
      requires Valid() && running && tick % StepTicks == 0
      modifies this`tick, this`running, this`preparing, display
      ensures var (rows, fault) := RedrawRun(chart, old(tick), old(Grid()), n);
              Grid() == rows && (running <==> fault.None?) &&
              (n > 0 ==> preparing == fault.Some?) &&
              (fault.None? ==> tick == old(tick) + StepTicks * n)
      ensures !running ==>
                var d := (tick - old(tick) - 1) / StepTicks;
                0 <= d < n && tick == old(tick) + StepTicks * d + 1 &&
                RedrawRun(chart, old(tick), old(Grid()), d).1.None? &&
                RedrawRun(chart, old(tick), old(Grid()), d + 1) == RedrawRun(chart, old(tick), old(Grid()), n)
    {
      ghost var t0, g0 := tick, Grid();
      ghost var done: nat := 0;
      var k := 0;
      while k < StepTicks * n && running
        invariant 0 <= k <= StepTicks * n && tick == t0 + k
        invariant done <= n && StepTicks * done - StepTicks < k <= StepTicks * done
        invariant var (rows, fault) := RedrawRun(chart, t0, g0, done);
                  Grid() == rows && (running <==> fault.None?) && (done > 0 ==> preparing == fault.Some?)
        invariant !running ==>
                    done > 0 && tick == t0 + StepTicks * (done - 1) + 1 &&
                    RedrawRun(chart, t0, g0, done - 1).1.None?
        decreases StepTicks * n - k
      {
        StepPhase(t0, k, done);
        if tick % StepTicks == 0 {
          RunSnoc(chart, t0, g0, done);
          assert t0 + 12 * done + 84 == tick + 7 * StepTicks;
          Tick();
          done := done + 1;
        } else {
          Tick();
        }
        k := k + 1;
      }
      if !running {
        RunStops(chart, t0, g0, done, n);
        assert (tick - t0 - 1) / StepTicks == done - 1;
      }
    }

    /** init(): the clip is opened, then the notes and the clip start
        |offset| seconds apart, the notes first when the offset is not
        negative. */
    method Init()
      requires Valid()
      modifies this`events, this`running
      ensures running
      ensures events == old(events) + InitTrace(chart)
    {
      var offset := GetOffset(chart);
      events := events + [OpenClip];
      if offset >= 0.0 {
        InitNotes();
      } else {
        events := events + [StartClip];
      }
      events := events + [Wait(Abs(offset))];
      if offset >= 0.0 {
        events := events + [StartClip];
      } else {
        InitNotes();
      }
    }

    /** initNotes: the timer starts at the tempo of tick 0. */
    method InitNotes()
      requires Valid()
      modifies this`events, this`running
      ensures running && events == old(events) + [StartNotes(StartBpm(chart))]
    {
      var bpm := GetBPM(chart, 0);
      ChartBpm(chart, 0);
      events := events + [StartNotes(bpm.value)];
      running := true;
    }
  }

  /** The tempo of tick 0, which every valid chart has. */
  function StartBpm(c: Chart): (r: real)
    requires ChartValid(c)
    ensures Success(r) == GetBPM(c, 0)
  {
    ChartBpm(c, 0);
    GetBPM(c, 0).value
  }

  /** What init() triggers: the clip is opened, then the notes and the clip
      start with a wait of |offset| between them, the notes first exactly
      when the offset is not negative. */
  function InitTrace(c: Chart): (r: seq<Event>)
    requires ChartValid(c)
    ensures |r| == 4 && r[0] == OpenClip && r[2] == Wait(Abs(GetOffset(c)))
    ensures if GetOffset(c) >= 0.0 then r[1] == StartNotes(StartBpm(c)) && r[3] == StartClip
            else r[1] == StartClip && r[3] == StartNotes(StartBpm(c))
  {
    var offset := GetOffset(c);
    if offset >= 0.0 then [OpenClip, StartNotes(StartBpm(c)), Wait(offset), StartClip]
    else [OpenClip, StartClip, Wait(-offset), StartNotes(StartBpm(c))]
  }

  /** The recorded waits put the music `offset` seconds after the notes
      (before them for a negative offset), each starts once, and the clip is
      opened before either. */
  lemma InitLag(c: Chart)
    requires ChartValid(c)
    ensures var trace := InitTrace(c);
      StartTime(trace, true) - StartTime(trace, false) == GetOffset(c) &&
      trace[0] == OpenClip &&
      (exists i :: 0 <= i < |trace| && trace[i].StartClip? && forall j :: 0 <= j < |trace| && j != i ==> !trace[j].StartClip?) &&
      (exists i :: 0 <= i < |trace| && trace[i].StartNotes? && forall j :: 0 <= j < |trace| && j != i ==> !trace[j].StartNotes?)
  {
    var trace, offset := InitTrace(c), GetOffset(c);
    assert trace[1..] == [trace[1], trace[2], trace[3]];
    assert trace[2..] == [trace[2], trace[3]];
    assert trace[3..] == [trace[3]];
    if offset >= 0.0 {
      assert StartTime(trace[2..], true) == offset + StartTime(trace[3..], true);
      assert StartTime(trace, true) == offset;
      assert StartTime(trace, false) == 0.0;
      assert trace[3].StartClip? && trace[1].StartNotes?;
    } else {
      assert StartTime(trace[2..], false) == -offset + StartTime(trace[3..], false);
      assert StartTime(trace, false) == -offset;
      assert StartTime(trace, true) == 0.0;
      assert trace[1].StartClip? && trace[3].StartNotes?;
    }
  }

  /** The first call of tick() redraws, and then every twelfth. */
  lemma RedrawSchedule(calls: nat)
    ensures (-StepTicks + calls) % StepTicks == 0 <==> calls % StepTicks == 0
  {
  }
}
