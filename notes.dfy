/** The note grid of a chart (SSCParser.parseNotes and noteCharToByte): the
    `#NOTES` value is split into bars, the rows of every bar are spread over
    the bar's 192 ticks, each of the 4 lanes gets the code of its symbol, and
    every hold or roll head is then stretched, in place, into a body that
    runs up to the next tail. */
module Notes {
  import opened Base

  // A bar always spans 192 ticks and a row always has 4 lanes; the numbers
  // are written out, as in the player, so that products stay linear.

  /** Cell codes. */
  const Empty: Byte := 0
  const Tap: Byte := 1
  const HoldHead: Byte := 2
  const Tail: Byte := 3
  const RollHead: Byte := 4
  const Mine: Byte := 6
  const KeySound: Byte := 7
  const Lift: Byte := 8
  const Fake: Byte := 9

  /** A grid indexed [tick][lane]. */
  type Grid = seq<seq<Byte>>

  predicate IsGrid(g: Grid) {
    forall t :: 0 <= t < |g| ==> |g[t]| == 4
  }

  predicate IsHead(b: Byte) {
    b == HoldHead || b == RollHead
  }

  // ---------------------------------------------------------------------------
  // Symbols

  /** noteCharToByte: a character up to '4' gives its distance from '0' (so
      characters below '0' are let through as negative codes), M K L F give
      6 7 8 9, and anything else is rejected with the current line. */
  function NoteCharToByte(c: char, line: int): (r: Result<Byte, Fault>)
    ensures r.Failure? ==> r.error == InvalidNoteCharacter(c, line)
  {
    if c <= '4' then Success((c as int - '0' as int) as Byte)
    else if c == 'M' then Success(Mine)
    else if c == 'K' then Success(KeySound)
    else if c == 'L' then Success(Lift)
    else if c == 'F' then Success(Fake)
    else Failure(InvalidNoteCharacter(c, line))
  }

  predicate IsNoteChar(c: char) {
    NoteCharToByte(c, 0).Success?
  }

  /** The code of an accepted symbol. */
  function CodeOf(c: char): Byte {
    match NoteCharToByte(c, 0)
    case Success(b) => b
    case Failure(_) => Empty
  }

  /** The symbol table of the chart format, in code order. */
  const Symbols: string := "01234MKLF"
  const Codes: seq<Byte> := [Empty, Tap, HoldHead, Tail, RollHead, Mine, KeySound, Lift, Fake]

  // ---------------------------------------------------------------------------
  // Placement of rows on ticks

  /** Rows in a bar: its length divided by the row width (a trailing partial
      row is ignored). */
  function Resolution(bar: string): nat {
    |bar| / 4
  }

  /** Of the rows 0..n-1, spaced `spacing` ticks apart, the last one that
      lands at offset `off` (the one whose symbols stay there). */
  function LastRowAt(spacing: nat, off: int, n: nat): (r: Option<nat>)
    ensures r.Some? ==> r.value < n && spacing * r.value == off
  {
    if n == 0 then None
    else if spacing * (n - 1) == off then Some(n - 1)
    else LastRowAt(spacing, off, n - 1)
  }

  /** The cell at offset `off`, lane `lane` of a placed bar. */
  function BarCell(bar: string, off: int, lane: nat): Byte
    requires lane < 4
  {
    var res := Resolution(bar);
    if res == 0 then Empty
    else
      match LastRowAt(192 / res, off, res)
      case None => Empty
      case Some(r) => CodeOf(bar[r * 4 + lane])
  }

  /** The cell at tick `t` of the grid before holds are expanded. */
  function PlacedCell(bars: seq<string>, t: nat, lane: nat): Byte
    requires t < |bars| * 192 && lane < 4
  {
    BarCell(bars[t / 192], t % 192, lane)
  }

  function PlacedGrid(bars: seq<string>): (g: Grid)
    ensures |g| == |bars| * 192 && IsGrid(g)
  {
    seq(|bars| * 192, t requires 0 <= t < |bars| * 192 =>
      seq(4, lane requires 0 <= lane < 4 => PlacedCell(bars, t, lane)))
  }

  /** The characters the placement loop reads, bar after bar: the first
      Resolution * 4 characters of every bar. */
  function Scanned(bars: seq<string>): string {
    if bars == [] then [] else bars[0][..Resolution(bars[0]) * 4] + Scanned(bars[1..])
  }

  /** The first character of `s` that is not a note symbol. */
  function FirstBad(s: string): (r: Option<char>)
    ensures r.None? <==> forall k :: 0 <= k < |s| ==> IsNoteChar(s[k])
    ensures r.Some? ==> !IsNoteChar(r.value) && r.value in s
  {
    if s == [] then None else if !IsNoteChar(s[0]) then Some(s[0]) else FirstBad(s[1..])
  }

  // ---------------------------------------------------------------------------
  // Hold and roll expansion

  /** The first index from `k` on whose cell is a tail. */
  function TailIndex(c: seq<Byte>, k: nat): (r: Option<nat>)
    ensures r.Some? ==> k <= r.value < |c| && c[r.value] == Tail
    ensures r.Some? ==> forall x :: k <= x < r.value ==> c[x] != Tail
    ensures r.None? ==> forall x :: k <= x < |c| ==> c[x] != Tail
    decreases |c| - k
  {
    if k >= |c| then None else if c[k] == Tail then Some(k) else TailIndex(c, k + 1)
  }

  function Repeat(b: Byte, n: nat): (r: seq<Byte>)
    ensures |r| == n && forall x :: 0 <= x < n ==> r[x] == b
  {
    if n == 0 then [] else [b] + Repeat(b, n - 1)
  }

  function Prefix(p: seq<Byte>, o: Option<seq<Byte>>): Option<seq<Byte>> {
    match o
    case None => None
    case Some(s) => Some(p + s)
  }

  /** One lane after expansion, read segment by segment: a head is followed
      by its body code (head + 1) up to the first tail after it, which stays;
      a head with no tail after it makes the scan run off the grid (None). */
  function ExpandLane(c: seq<Byte>): (r: Option<seq<Byte>>)
    ensures r.Some? ==> |r.value| == |c|
    decreases |c|
  {
    if c == [] then Some([])
    else if IsHead(c[0]) then
      match TailIndex(c, 1)
      case None => None
      case Some(e) => Prefix([c[0]] + Repeat(c[0] + 1, e - 1), ExpandLane(c[e..]))
    else Prefix([c[0]], ExpandLane(c[1..]))
  }

  /** Expansion keeps every tail where it is, and writes nothing but the
      original cell or a body code (3 for a hold, 5 for a roll). */
  lemma {:induction false} ExpandKeepsTails(c: seq<Byte>)
    ensures ExpandLane(c).Some? ==> forall x :: 0 <= x < |c| && c[x] == Tail ==> ExpandLane(c).value[x] == Tail
    ensures ExpandLane(c).Some? ==>
              forall x :: 0 <= x < |c| ==> ExpandLane(c).value[x] in {c[x], Tail, RollHead + 1}
    decreases |c|
  {
    if c != [] && ExpandLane(c).Some? {
      var r := ExpandLane(c).value;
      if IsHead(c[0]) {
        var e := TailIndex(c, 1).value;
        var rest := ExpandLane(c[e..]).value;
        ExpandKeepsTails(c[e..]);
        assert r == [c[0]] + Repeat(c[0] + 1, e - 1) + rest;
        forall x | 0 <= x < |c|
          ensures c[x] == Tail ==> r[x] == Tail
          ensures r[x] in {c[x], Tail, RollHead + 1}
        {
          if x >= e {
            assert r[x] == rest[x - e] && c[e..][x - e] == c[x];
          } else if x > 0 {
            assert c[x] != Tail;
          }
        }
      } else {
        var rest := ExpandLane(c[1..]).value;
        ExpandKeepsTails(c[1..]);
        assert r == [c[0]] + rest;
        forall x | 0 <= x < |c|
          ensures c[x] == Tail ==> r[x] == Tail
          ensures r[x] in {c[x], Tail, RollHead + 1}
        {
          if x >= 1 {
            assert r[x] == rest[x - 1] && c[1..][x - 1] == c[x];
          }
        }
      }
    }
  }

  function GridColumn(g: Grid, lane: nat): (c: seq<Byte>)
    requires IsGrid(g) && lane < 4
    ensures |c| == |g|
  {
    seq(|g|, t requires 0 <= t < |g| => g[t][lane])
  }

  /** The grid with every lane expanded; None when some lane runs off. */
  function ExpandGrid(g: Grid): (r: Option<Grid>)
    requires IsGrid(g)
    ensures r.Some? ==> |r.value| == |g| && IsGrid(r.value)
  {
    var e0, e1, e2, e3 := ExpandLane(GridColumn(g, 0)), ExpandLane(GridColumn(g, 1)),
                          ExpandLane(GridColumn(g, 2)), ExpandLane(GridColumn(g, 3));
    if e0.None? || e1.None? || e2.None? || e3.None? then None
    else Some(seq(|g|, t requires 0 <= t < |g| => [e0.value[t], e1.value[t], e2.value[t], e3.value[t]]))
  }

  /** parseNotes as a function of its input: the first bad symbol read is
      reported with the line; otherwise the placed grid is expanded, and a
      head without a tail ends in an index one past the last tick. */
  function NotesFromText(noteData: string, line: int): (r: Result<Grid, Fault>)
    ensures r.Success? ==> |r.value| == 192 * |JavaSplit(noteData, ',', true)| && IsGrid(r.value)
    ensures r.Failure? ==>
              (r.error.InvalidNoteCharacter? && !IsNoteChar(r.error.c) && r.error.line == line) ||
              r.error == IndexOutOfBounds(192 * |JavaSplit(noteData, ',', true)|)
  {
    var bars := JavaSplit(noteData, ',', true);
    match FirstBad(Scanned(bars))
    case Some(c) => Failure(InvalidNoteCharacter(c, line))
    case None =>
      match ExpandGrid(PlacedGrid(bars))
      case None => Failure(IndexOutOfBounds(|bars| * 192))
      case Some(g) => Success(g)
  }

  // ---------------------------------------------------------------------------
  // Properties

  /** noteCharToByte agrees with the symbol table, accepts exactly the
      symbols up to '4' and M K L F, and gives a negative code exactly for
      the characters below '0'. */
  lemma NoteSymbolTable(c: char, line: int)
    ensures forall k :: 0 <= k < |Symbols| ==> NoteCharToByte(Symbols[k], line) == Success(Codes[k])
    ensures NoteCharToByte(c, line).Success? <==> c <= '4' || c in "MKLF"
    ensures NoteCharToByte(c, line).Success? ==> (NoteCharToByte(c, line).value < 0 <==> c < '0')
    ensures '0' <= c ==> (NoteCharToByte(c, line).Success? <==> c in Symbols)
  {
  }

  /** With a spacing of at least one tick, no later row lands on row i. */
  lemma {:induction false} RowLandsAlone(spacing: nat, i: nat, n: nat)
    requires spacing > 0 && i < n
    ensures LastRowAt(spacing, spacing * i, n) == Some(i)
  {
    if n - 1 != i {
      MulLe(spacing, i + 1, n - 1);
      assert spacing * (i + 1) == spacing * i + spacing;
      RowLandsAlone(spacing, i, n - 1);
    }
  }

  /** An offset no row is spaced to stays empty. */
  lemma {:induction false} NoRowLands(spacing: nat, off: int, n: nat)
    requires forall i :: 0 <= i < n ==> spacing * i != off
    ensures LastRowAt(spacing, off, n) == None
  {
    if n > 0 {
      NoRowLands(spacing, off, n - 1);
    }
  }

  /** A bar of up to 192 rows puts row i, lane by lane, at offset
      (192 / resolution) * i, inside the bar ... */
  lemma BarRowsPlaced(bar: string, i: nat, lane: nat)
    requires 0 < Resolution(bar) <= 192 && i < Resolution(bar) && lane < 4
    ensures 0 <= (192 / Resolution(bar)) * i < 192
    ensures BarCell(bar, (192 / Resolution(bar)) * i, lane) == CodeOf(bar[i * 4 + lane])
  {
    var res := Resolution(bar);
    SpacingBound(res, i);
    assert 192 / res > 0;
    RowLandsAlone(192 / res, i, res);
  }

  /** ... and leaves every other offset empty. */
  lemma BarGapsEmpty(bar: string, off: int, lane: nat)
    requires lane < 4
    requires forall r :: 0 <= r < Resolution(bar) ==> off != (192 / Resolution(bar)) * r
    ensures BarCell(bar, off, lane) == Empty
  {
    if Resolution(bar) > 0 {
      NoRowLands(192 / Resolution(bar), off, Resolution(bar));
    }
  }

  /** A bar of more than 192 rows stacks them all on its first tick, where
      the last row wins. */
  lemma OverfullBar(bar: string, off: int, lane: nat)
    requires Resolution(bar) > 192 && lane < 4
    ensures BarCell(bar, 0, lane) == CodeOf(bar[(Resolution(bar) - 1) * 4 + lane])
    ensures off != 0 ==> BarCell(bar, off, lane) == Empty
  {
    assert 192 / Resolution(bar) == 0;
    if off != 0 {
      NoRowLands(0, off, Resolution(bar));
    }
  }

  /** Some head has no tail anywhere below it. */
  predicate HasOpenHead(c: seq<Byte>) {
    exists s :: 0 <= s < |c| && IsHead(c[s]) && forall y :: s < y < |c| ==> c[y] != Tail
  }

  /** Expansion fails exactly when a head has no tail below it. */
  lemma {:induction false} ExpandFailsIff(c: seq<Byte>)
    ensures ExpandLane(c).None? <==> HasOpenHead(c)
    decreases |c|
  {
    if c == [] {
    } else if IsHead(c[0]) {
      match TailIndex(c, 1)
      case None =>
        assert IsHead(c[0]) && forall y :: 0 < y < |c| ==> c[y] != Tail;
      case Some(e) =>
        ExpandFailsIff(c[e..]);
        OpenHeadFrom(c, e);
    } else {
      ExpandFailsIff(c[1..]);
      OpenHeadFrom(c, 1);
    }
  }

  /** Past a cell that ends or precedes every run starting before it, the
      open heads are those of the rest. */
  lemma OpenHeadFrom(c: seq<Byte>, e: nat)
    requires 0 < e <= |c|
    requires (e < |c| && c[e] == Tail) || (e == 1 && !IsHead(c[0]))
    ensures HasOpenHead(c) <==> HasOpenHead(c[e..])
  {
    var d := c[e..];
    if HasOpenHead(d) {
      var s :| 0 <= s < |d| && IsHead(d[s]) && forall y :: s < y < |d| ==> d[y] != Tail;
      assert IsHead(c[s + e]) && forall y :: s + e < y < |c| ==> c[y] != Tail by {
        forall y | s + e < y < |c| ensures c[y] != Tail {
          assert c[y] == d[y - e];
        }
      }
    }
    if HasOpenHead(c) {
      var s :| 0 <= s < |c| && IsHead(c[s]) && forall y :: s < y < |c| ==> c[y] != Tail;
      assert s >= e;
      assert IsHead(d[s - e]) && forall y :: s - e < y < |d| ==> d[y] != Tail by {
        forall y | s - e < y < |d| ensures d[y] != Tail {
          assert d[y] == c[y + e];
        }
      }
    }
  }

  /** Expanding an expanded lane changes nothing: the player may rescan its
      grid without effect. */
  lemma {:induction false} ExpandIdempotent(c: seq<Byte>)
    requires ExpandLane(c).Some?
    ensures ExpandLane(ExpandLane(c).value) == ExpandLane(c)
    decreases |c|
  {
    if c == [] {
    } else if IsHead(c[0]) {
      var e := TailIndex(c, 1).value;
      ExpandIdempotent(c[e..]);
      IdempotentAtHead(c, e);
    } else {
      ExpandIdempotent(c[1..]);
      var r := ExpandLane(c).value;
      assert r == [c[0]] + ExpandLane(c[1..]).value;
      assert r[1..] == ExpandLane(c[1..]).value;
    }
  }

  lemma IdempotentAtHead(c: seq<Byte>, e: nat)
    requires 0 < e < |c| && IsHead(c[0]) && TailIndex(c, 1) == Some(e)
    requires ExpandLane(c[e..]).Some? && ExpandLane(ExpandLane(c[e..]).value) == ExpandLane(c[e..])
    ensures ExpandLane(c).Some? && ExpandLane(ExpandLane(c).value) == ExpandLane(c)
  {
    var body := Repeat(c[0] + 1, e - 1);
    var rest := ExpandLane(c[e..]).value;
    var r := [c[0]] + body + rest;
    assert ExpandLane(c) == Some(r);
    StartsWithTail(c[e..]);
    if c[0] == HoldHead {
      IdempotentHold(c[0], body, rest);
    } else {
      assert r[e] == Tail;
      HeadRun(r, e);
      assert r[e..] == rest;
      assert [r[0]] + Repeat(r[0] + 1, e - 1) + rest == r;
    }
  }

  /** The body code of a hold is the tail code: once expanded, its run is
      empty. */
  lemma IdempotentHold(h: Byte, body: seq<Byte>, rest: seq<Byte>)
    requires h == HoldHead && (forall x :: 0 <= x < |body| ==> body[x] == Tail)
    requires |rest| > 0 && rest[0] == Tail && ExpandLane(rest) == Some(rest)
    ensures ExpandLane([h] + body + rest) == Some([h] + body + rest)
  {
    var tail := body + rest;
    var r := [h] + tail;
    assert r[1..] == tail;
    assert r[1] == Tail by {
      if body == [] { assert tail == rest; } else { assert tail[0] == body[0]; }
    }
    EmptyRun(r);
    assert forall x :: 0 <= x < |body| ==> !IsHead(body[x]);
    PassThrough(body, rest);
    assert [h] + body + rest == r;
  }

  lemma EmptyRun(r: seq<Byte>)
    requires |r| > 1 && IsHead(r[0]) && r[1] == Tail
    ensures ExpandLane(r) == Prefix([r[0]], ExpandLane(r[1..]))
  {
    assert TailIndex(r, 1) == Some(1);
    assert [r[0]] + Repeat(r[0] + 1, 0) == [r[0]];
  }

  lemma StartsWithTail(d: seq<Byte>)
    requires |d| > 0 && d[0] == Tail && ExpandLane(d).Some?
    ensures ExpandLane(d).value[0] == Tail
  {
  }

  /** The head at `s` reaches cell `x` below it: no tail lies between them,
      and none at `x` either. */
  predicate InRun(c: seq<Byte>, s: nat, x: nat) {
    s < x < |c| && IsHead(c[s]) && forall y :: s < y <= x ==> c[y] != Tail
  }

  /** The first head from `from` on that reaches cell `x`. */
  function Opener(c: seq<Byte>, x: nat, from: nat): (r: Option<nat>)
    ensures r.Some? ==> from <= r.value < x && InRun(c, r.value, x)
    ensures r.Some? ==> forall s :: from <= s < r.value ==> !InRun(c, s, x)
    ensures r.None? ==> forall s :: from <= s < x ==> !InRun(c, s, x)
    decreases x - from
  {
    if from >= x then None else if InRun(c, from, x) then Some(from) else Opener(c, x, from + 1)
  }

  /** What cell `x` of an expanded lane holds, read off the lane itself: the
      body code (head + 1) of the first head above it that reaches it, and
      the cell as it was when no head reaches it (tails included). */
  function ExpectedCell(c: seq<Byte>, x: nat): Byte
    requires x < |c|
  {
    match Opener(c, x, 0)
    case Some(s) => c[s] + 1
    case None => c[x]
  }

  /** Every cell of an expanded lane is the one ExpectedCell names. */
  lemma {:induction false} ExpandCells(c: seq<Byte>)
    requires ExpandLane(c).Some?
    ensures forall x :: 0 <= x < |c| ==> ExpandLane(c).value[x] == ExpectedCell(c, x)
    decreases |c|
  {
    if c == [] {
    } else if IsHead(c[0]) {
      var e := TailIndex(c, 1).value;
      var rest := ExpandLane(c[e..]).value;
      ExpandCells(c[e..]);
      var r := ExpandLane(c).value;
      assert r == [c[0]] + Repeat(c[0] + 1, e - 1) + rest;
      forall x | 0 <= x < |c|
        ensures r[x] == ExpectedCell(c, x)
      {
        if x == 0 {
        } else if x < e {
          assert InRun(c, 0, x);
        } else {
          assert r[x] == rest[x - e];
          forall s | 0 <= s < e
            ensures !InRun(c, s, x)
          {
            assert c[e] == Tail;
          }
          ShiftExpected(c, e, x);
        }
      }
    } else {
      var rest := ExpandLane(c[1..]).value;
      ExpandCells(c[1..]);
      var r := ExpandLane(c).value;
      assert r == [c[0]] + rest;
      forall x | 0 < x < |c|
        ensures r[x] == ExpectedCell(c, x)
      {
        assert r[x] == rest[x - 1];
        assert !InRun(c, 0, x);
        ShiftExpected(c, 1, x);
      }
    }
  }

  /** When no head above `e` reaches `x`, the cell is read off the rest of
      the lane from `e` on. */
  lemma ShiftExpected(c: seq<Byte>, e: nat, x: nat)
    requires 0 < e <= x < |c|
    requires forall s :: 0 <= s < e ==> !InRun(c, s, x)
    ensures ExpectedCell(c, x) == ExpectedCell(c[e..], x - e)
  {
    var d := c[e..];
    assert c[x] == d[x - e];
    forall s | e <= s < x
      ensures InRun(c, s, x) <==> InRun(d, s - e, x - e)
    {
      InRunShift(c, e, s, x);
    }
    match Opener(d, x - e, 0)
    case Some(t) =>
      assert InRun(c, t + e, x);
      assert c[t + e] == d[t];
    case None =>
  }

  lemma InRunShift(c: seq<Byte>, e: nat, s: nat, x: nat)
    requires e <= s < x < |c|
    ensures InRun(c, s, x) <==> InRun(c[e..], s - e, x - e)
  {
    var d := c[e..];
    assert c[s] == d[s - e];
    if InRun(c, s, x) {
      forall y | s - e < y <= x - e
        ensures d[y] != Tail
      {
        assert d[y] == c[y + e];
      }
    }
    if InRun(d, s - e, x - e) {
      forall y | s < y <= x
        ensures c[y] != Tail
      {
        assert c[y] == d[y - e];
      }
    }
  }

  /** An expanded grid expands to itself. */
  lemma ExpandGridIdempotent(g: Grid)
    requires IsGrid(g) && ExpandGrid(g).Some?
    ensures ExpandGrid(ExpandGrid(g).value) == ExpandGrid(g)
  {
    var h := ExpandGrid(g).value;
    forall lane | 0 <= lane < 4
      ensures ExpandLane(GridColumn(h, lane)) == Some(GridColumn(h, lane))
    {
      assert GridColumn(h, lane) == ExpandLane(GridColumn(g, lane)).value;
      ExpandIdempotent(GridColumn(g, lane));
    }
    ExpandGridOf(h, seq(4, lane requires 0 <= lane < 4 => GridColumn(h, lane)));
    assert ExpandGrid(h).value == h;
  }

  /** A parsed grid has 192 ticks per bar and 4 lanes, and is already
      expanded; a rejected one names a character that is not a symbol, or a
      lane whose last head has no tail below it. */
  lemma NotesShape(noteData: string, line: int)
    ensures NotesFromText(noteData, line).Success? ==>
              var g := NotesFromText(noteData, line).value;
              |g| == 192 * |JavaSplit(noteData, ',', true)| && IsGrid(g) && ExpandGrid(g) == Some(g)
    ensures NotesFromText(noteData, line).Failure? ==>
              match NotesFromText(noteData, line).error
              case InvalidNoteCharacter(c, l) => !IsNoteChar(c) && l == line
              case IndexOutOfBounds(k) =>
                k == 192 * |JavaSplit(noteData, ',', true)| &&
                exists lane :: 0 <= lane < 4 && HasOpenHead(GridColumn(PlacedGrid(JavaSplit(noteData, ',', true)), lane))
              case _ => false
  {
    var bars := JavaSplit(noteData, ',', true);
    var placed := PlacedGrid(bars);
    if FirstBad(Scanned(bars)).None? {
      if ExpandGrid(placed).Some? {
        ExpandGridIdempotent(placed);
      } else {
        var lane :| 0 <= lane < 4 && ExpandLane(GridColumn(placed, lane)).None?;
        ExpandFailsIff(GridColumn(placed, lane));
      }
    }
  }

  // ---------------------------------------------------------------------------
  // parseNotes

  method ParseNotes(noteData: string, line: int) returns (r: Result<Grid, Fault>)
    ensures r == NotesFromText(noteData, line)
  {
    var bars := JavaSplit(noteData, ',', true);
    var notes := new Byte[|bars| * 192, 4];
    forall t, lane | 0 <= t < notes.Length0 && 0 <= lane < 4 {
      notes[t, lane] := Empty;
    }
    var bad := PlaceBars(notes, bars, line);
    if bad.Some? {
      return Failure(InvalidNoteCharacter(bad.value, line));
    }
    ghost var placed := PlacedGrid(bars);
    var ok := ExpandHolds(notes, placed);
    if !ok {
      return Failure(IndexOutOfBounds(notes.Length0));
    }
    var rows := seq(notes.Length0, t requires 0 <= t < notes.Length0 reads notes =>
                      seq(4, lane requires 0 <= lane < 4 reads notes => notes[t, lane]));
    forall t | 0 <= t < notes.Length0
      ensures rows[t] == ExpandGrid(placed).value[t]
    {
      assert forall lane :: 0 <= lane < 4 ==> rows[t][lane] == ExpandGrid(placed).value[t][lane];
    }
    assert rows == ExpandGrid(placed).value;
    r := Success(rows);
  }

  /** The first loop of parseNotes: every row of every bar is written at
      tick 192 * bar + (192 / resolution) * row. Answers the bad symbol that
      stops it, if any. */
  method PlaceBars(notes: array2<Byte>, bars: seq<string>, line: int) returns (bad: Option<char>)
    requires notes.Length0 == |bars| * 192 && notes.Length1 == 4
    requires forall t, lane :: 0 <= t < notes.Length0 && 0 <= lane < 4 ==> notes[t, lane] == Empty
    modifies notes
    ensures bad == FirstBad(Scanned(bars))
    ensures bad.None? ==> forall t, lane :: 0 <= t < notes.Length0 && 0 <= lane < 4 ==>
                            notes[t, lane] == PlacedCell(bars, t, lane)
  {
    var currentTick := 0;
    var m := 0;
    while m < |bars|
      invariant 0 <= m <= |bars| && currentTick == m * 192
      invariant FirstBad(Scanned(bars[..m])) == None
      invariant forall t, lane :: 0 <= t < currentTick && 0 <= lane < 4 ==>
                  notes[t, lane] == PlacedCell(bars, t, lane)
      invariant forall t, lane :: currentTick <= t < notes.Length0 && 0 <= lane < 4 ==>
                  notes[t, lane] == Empty
    {
      var bar := bars[m];
      bad := PlaceBar(notes, bar, currentTick, line);
      FirstBadBars(bars, m);
      if bad.Some? {
        return;
      }
      forall t, lane | currentTick <= t < currentTick + 192 && 0 <= lane < 4
        ensures notes[t, lane] == PlacedCell(bars, t, lane)
      {
        PlacedCellInBar(bars, m, t, lane);
      }
      currentTick := currentTick + 192;
      m := m + 1;
    }
    assert bars[..m] == bars;
    bad := None;
  }

  /** One bar of the first loop, placed from tick `base`: answers the first
      rejected symbol of the bar, if any. */
  method PlaceBar(notes: array2<Byte>, bar: string, base: nat, line: int) returns (bad: Option<char>)
    requires notes.Length1 == 4 && base + 192 <= notes.Length0
    requires forall t, lane :: base <= t < base + 192 && 0 <= lane < 4 ==> notes[t, lane] == Empty
    modifies notes
    ensures bad == FirstBad(bar[..Resolution(bar) * 4])
    ensures forall t, lane :: 0 <= t < notes.Length0 && 0 <= lane < 4 && !(base <= t < base + 192) ==>
              notes[t, lane] == old(notes[t, lane])
    ensures bad.None? ==> forall t, lane :: base <= t < base + 192 && 0 <= lane < 4 ==>
              notes[t, lane] == BarCell(bar, t - base, lane)
  {
    var resolution := |bar| / 4;
    if resolution == 0 {
      return None;
    }
    var spacing := 192 / resolution;
    var i := 0;
    while i < resolution
      invariant 0 <= i <= resolution
      invariant FirstBad(bar[..i * 4]) == None
      invariant forall t, lane :: 0 <= t < notes.Length0 && 0 <= lane < 4 && !(base <= t < base + 192) ==>
                  notes[t, lane] == old(notes[t, lane])
      invariant forall t, lane :: base <= t < base + 192 && 0 <= lane < 4 ==>
                  notes[t, lane] == RowsCell(bar, spacing, t - base, lane, i)
    {
      SpacingBound(resolution, i);
      var tick := base + spacing * i;
      bad := PlaceRow(notes, bar, tick, i, line);
      FirstBadRows(bar, i, resolution);
      if bad.Some? {
        return;
      }
      forall t, lane | base <= t < base + 192 && 0 <= lane < 4
        ensures notes[t, lane] == RowsCell(bar, spacing, t - base, lane, i + 1)
      {
        RowsCellStep(bar, spacing, t - base, lane, i);
        assert t - base == spacing * i <==> t == tick;
      }
      i := i + 1;
    }
    forall t, lane | base <= t < base + 192 && 0 <= lane < 4
      ensures notes[t, lane] == BarCell(bar, t - base, lane)
    {
    }
    return None;
  }

  /** The first bad symbol of the bars 0..m, and of all bars once bar m
      holds one. */
  lemma FirstBadBars(bars: seq<string>, m: nat)
    requires m < |bars|
    ensures FirstBad(Scanned(bars[..m + 1])) ==
            if FirstBad(Scanned(bars[..m])).Some? then FirstBad(Scanned(bars[..m]))
            else FirstBad(bars[m][..Resolution(bars[m]) * 4])
    ensures FirstBad(Scanned(bars[..m + 1])).Some? ==> FirstBad(Scanned(bars)) == FirstBad(Scanned(bars[..m + 1]))
  {
    ScannedSnoc(bars, m);
    FirstBadConcat(Scanned(bars[..m]), bars[m][..Resolution(bars[m]) * 4]);
    FirstBadOfPrefix(bars, m + 1);
  }

  lemma FirstBadOfPrefix(bars: seq<string>, m: nat)
    requires m <= |bars|
    ensures FirstBad(Scanned(bars[..m])).Some? ==> FirstBad(Scanned(bars)) == FirstBad(Scanned(bars[..m]))
  {
    ScannedConcat(bars[..m], bars[m..]);
    assert bars == bars[..m] + bars[m..];
    FirstBadConcat(Scanned(bars[..m]), Scanned(bars[m..]));
  }

  lemma ScannedSnoc(bars: seq<string>, m: nat)
    requires m < |bars|
    ensures Scanned(bars[..m + 1]) == Scanned(bars[..m]) + bars[m][..Resolution(bars[m]) * 4]
  {
    var bar := bars[m];
    ScannedConcat(bars[..m], [bar]);
    assert bars[..m + 1] == bars[..m] + [bar];
    assert Scanned([bar]) == bar[..Resolution(bar) * 4] + Scanned([]) by {
      assert [bar][1..] == [];
    }
  }

  lemma PlacedCellInBar(bars: seq<string>, m: nat, t: nat, lane: nat)
    requires m < |bars| && m * 192 <= t < m * 192 + 192 && lane < 4
    ensures PlacedCell(bars, t, lane) == BarCell(bars[m], t - m * 192, lane)
  {
    BarOfTick(t, m);
  }

  /** The first bad symbol of the rows 0..i, and of all rows once row i
      holds one. */
  lemma FirstBadRows(bar: string, i: nat, resolution: nat)
    requires i < resolution && resolution * 4 <= |bar|
    ensures FirstBad(bar[..(i + 1) * 4]) ==
            if FirstBad(bar[..i * 4]).Some? then FirstBad(bar[..i * 4]) else FirstBad(bar[i * 4..i * 4 + 4])
    ensures FirstBad(bar[..(i + 1) * 4]).Some? ==> FirstBad(bar[..resolution * 4]) == FirstBad(bar[..(i + 1) * 4])
  {
    assert bar[..(i + 1) * 4] == bar[..i * 4] + bar[i * 4..i * 4 + 4];
    FirstBadConcat(bar[..i * 4], bar[i * 4..i * 4 + 4]);
    assert bar[..resolution * 4] == bar[..(i + 1) * 4] + bar[(i + 1) * 4..resolution * 4];
    FirstBadConcat(bar[..(i + 1) * 4], bar[(i + 1) * 4..resolution * 4]);
  }

  lemma RowsCellStep(bar: string, spacing: nat, off: int, lane: nat, i: nat)
    requires lane < 4 && i < Resolution(bar)
    ensures RowsCell(bar, spacing, off, lane, i + 1) ==
            if off == spacing * i then CodeOf(bar[i * 4 + lane]) else RowsCell(bar, spacing, off, lane, i)
  {
  }

  /** Scanning a row one symbol further. */
  lemma FirstBadStep(row: string, j: nat)
    requires j < |row| && FirstBad(row[..j]).None?
    ensures FirstBad(row[..j + 1]).None? <==> IsNoteChar(row[j])
    ensures !IsNoteChar(row[j]) ==> FirstBad(row) == Some(row[j])
  {
    assert forall k :: 0 <= k < j ==> row[..j][k] == row[k] && row[..j + 1][k] == row[k];
    assert row[..j + 1][j] == row[j];
    if !IsNoteChar(row[j]) {
      FirstBadAt(row, j);
    }
  }

  /** The first symbol that is not a note character is the one reported. */
  lemma {:induction false} FirstBadAt(s: string, j: nat)
    requires j < |s| && !IsNoteChar(s[j]) && forall k :: 0 <= k < j ==> IsNoteChar(s[k])
    ensures FirstBad(s) == Some(s[j])
  {
    if j > 0 {
      assert forall k :: 0 <= k < j - 1 ==> s[1..][k] == s[k + 1];
      FirstBadAt(s[1..], j - 1);
    }
  }

  /** The innermost loop of the first pass: the symbols of row `i` of the
      bar go to the lanes of tick `tick`. */
  method PlaceRow(notes: array2<Byte>, bar: string, tick: nat, i: nat, line: int) returns (bad: Option<char>)
    requires notes.Length1 == 4 && tick < notes.Length0 && (i + 1) * 4 <= |bar|
    modifies notes
    ensures bad == FirstBad(bar[i * 4..i * 4 + 4])
    ensures forall t, lane :: 0 <= t < notes.Length0 && 0 <= lane < 4 && t != tick ==>
              notes[t, lane] == old(notes[t, lane])
    ensures bad.None? ==> forall lane :: 0 <= lane < 4 ==> notes[tick, lane] == CodeOf(bar[i * 4 + lane])
  {
    var row := bar[i * 4..i * 4 + 4];
    var j := 0;
    while j < 4
      invariant 0 <= j <= 4
      invariant FirstBad(row[..j]) == None
      invariant forall t, lane :: 0 <= t < notes.Length0 && 0 <= lane < 4 && t != tick ==>
                  notes[t, lane] == old(notes[t, lane])
      invariant forall lane :: 0 <= lane < j ==> notes[tick, lane] == CodeOf(row[lane])
    {
      var noteByte := NoteCharToByte(bar[i * 4 + j], line);
      assert row[j] == bar[i * 4 + j];
      FirstBadStep(row, j);
      if noteByte.Failure? {
        return Some(bar[i * 4 + j]);
      }
      notes[tick, j] := noteByte.value;
      j := j + 1;
    }
    assert row[..j] == row;
    return None;
  }

  /** The cell at offset `off` once rows 0..n-1 are written. */
  function RowsCell(bar: string, spacing: nat, off: int, lane: nat, n: nat): Byte
    requires lane < 4 && n <= Resolution(bar)
  {
    match LastRowAt(spacing, off, n)
    case None => Empty
    case Some(r) => CodeOf(bar[r * 4 + lane])
  }

  /** `cols` holds the lanes of `notes`, column by column. */
  ghost predicate Mirrors(notes: array2<Byte>, cols: seq<seq<Byte>>)
    reads notes
  {
    notes.Length1 == 4 && |cols| == 4 &&
    (forall lane :: 0 <= lane < 4 ==> |cols[lane]| == notes.Length0) &&
    forall t, lane :: 0 <= t < notes.Length0 && 0 <= lane < 4 ==> notes[t, lane] == cols[lane][t]
  }

  /** The scan of lane `col` has passed its first `d` cells: what is left
      to expand, behind what is final, gives the expansion of `orig`. */
  ghost predicate Scanning(orig: seq<Byte>, col: seq<Byte>, d: nat) {
    d <= |col| && ExpandLane(orig) == Prefix(col[..d], ExpandLane(col[d..]))
  }

  /** The second loop of parseNotes: scanning ticks in order, and lanes in
      order within a tick, every head overwrites the cells after it with its
      body code until a tail is met; an index past the grid makes it fail. */
  method ExpandHolds(notes: array2<Byte>, ghost g: Grid) returns (ok: bool)
    requires notes.Length1 == 4 && IsGrid(g) && |g| == notes.Length0
    requires forall t, lane :: 0 <= t < |g| && 0 <= lane < 4 ==> notes[t, lane] == g[t][lane]
    modifies notes
    ensures ok <==> ExpandGrid(g).Some?
    ensures ok ==> forall t, lane :: 0 <= t < |g| && 0 <= lane < 4 ==>
                     notes[t, lane] == ExpandGrid(g).value[t][lane]
  {
    var n := notes.Length0;
    ghost var cols := seq(4, lane requires 0 <= lane < 4 => GridColumn(g, lane));
    forall lane | 0 <= lane < 4
      ensures Scanning(GridColumn(g, lane), cols[lane], 0)
    {
      assert cols[lane][0..] == cols[lane] && cols[lane][..0] == [];
      match ExpandLane(cols[lane])
      case None =>
      case Some(e) => assert [] + e == e;
    }
    var currentTick := 0;
    while currentTick < n
      invariant 0 <= currentTick <= n
      invariant Mirrors(notes, cols)
      invariant forall lane :: 0 <= lane < 4 ==> Scanning(GridColumn(g, lane), cols[lane], currentTick)
    {
      ok, cols := ExpandTick(notes, currentTick, g, cols);
      if !ok {
        return;
      }
      currentTick := currentTick + 1;
    }
    forall lane | 0 <= lane < 4
      ensures ExpandLane(GridColumn(g, lane)) == Some(cols[lane])
    {
      ScanDone(GridColumn(g, lane), cols[lane]);
    }
    ExpandGridOf(g, cols);
    return true;
  }

  /** One tick of the second loop, lane by lane. */
  method ExpandTick(notes: array2<Byte>, currentTick: nat, ghost g: Grid, ghost cols: seq<seq<Byte>>)
    returns (ok: bool, ghost cols': seq<seq<Byte>>)
    requires Mirrors(notes, cols) && IsGrid(g) && |g| == notes.Length0 && currentTick < notes.Length0
    requires forall lane :: 0 <= lane < 4 ==> Scanning(GridColumn(g, lane), cols[lane], currentTick)
    modifies notes
    ensures !ok ==> ExpandGrid(g).None?
    ensures ok ==> Mirrors(notes, cols') &&
                   forall lane :: 0 <= lane < 4 ==> Scanning(GridColumn(g, lane), cols'[lane], currentTick + 1)
  {
    cols' := cols;
    var i := 0;
    while i < 4
      invariant 0 <= i <= 4
      invariant Mirrors(notes, cols')
      invariant forall lane :: 0 <= lane < i ==> Scanning(GridColumn(g, lane), cols'[lane], currentTick + 1)
      invariant forall lane :: i <= lane < 4 ==> Scanning(GridColumn(g, lane), cols'[lane], currentTick)
    {
      var noteByte := notes[currentTick, i];
      if noteByte == HoldHead || noteByte == RollHead {
        var filled;
        ghost var after;
        filled, after := FillHold(notes, currentTick, i, cols'[i]);
        if !filled {
          ExpandGridFails(g, i);
          return false, cols';
        }
        cols' := cols'[i := after];
      } else {
        StepAdvance(cols'[i], currentTick);
      }
      i := i + 1;
    }
    return true, cols';
  }

  lemma ScanDone(orig: seq<Byte>, col: seq<Byte>)
    requires Scanning(orig, col, |col|)
    ensures ExpandLane(orig) == Some(col)
  {
    assert col[..|col|] == col && col[|col|..] == [];
    assert col + [] == col;
  }

  lemma ExpandGridFails(g: Grid, i: nat)
    requires IsGrid(g) && i < 4 && ExpandLane(GridColumn(g, i)).None?
    ensures ExpandGrid(g).None?
  {
  }

  lemma ExpandGridOf(g: Grid, cols: seq<seq<Byte>>)
    requires IsGrid(g) && |cols| == 4
    requires forall lane :: 0 <= lane < 4 ==> ExpandLane(GridColumn(g, lane)) == Some(cols[lane])
    ensures ExpandGrid(g).Some?
    ensures forall t, lane :: 0 <= t < |g| && 0 <= lane < 4 ==> ExpandGrid(g).value[t][lane] == cols[lane][t]
  {
    assert ExpandLane(GridColumn(g, 0)) == Some(cols[0]);
    assert ExpandLane(GridColumn(g, 1)) == Some(cols[1]);
    assert ExpandLane(GridColumn(g, 2)) == Some(cols[2]);
    assert ExpandLane(GridColumn(g, 3)) == Some(cols[3]);
  }

  /** The innermost loop of the second pass: the head at tick `t` of lane
      `i` overwrites the cells below it with its body code up to the next
      tail; false when the scan runs past the last tick. */
  method FillHold(notes: array2<Byte>, t: nat, i: nat, ghost before: seq<Byte>) returns (ok: bool, ghost after: seq<Byte>)
    requires notes.Length1 == 4 && i < 4 && t < notes.Length0 && |before| == notes.Length0
    requires forall x :: 0 <= x < notes.Length0 ==> notes[x, i] == before[x]
    requires IsHead(before[t])
    modifies notes
    ensures forall x, lane :: 0 <= x < notes.Length0 && 0 <= lane < 4 && lane != i ==>
              notes[x, lane] == old(notes[x, lane])
    ensures |after| == notes.Length0 && forall x :: 0 <= x < notes.Length0 ==> notes[x, i] == after[x]
    ensures !ok ==> ExpandLane(before[t..]) == None
    ensures ok ==> Prefix(before[..t], ExpandLane(before[t..])) == Prefix(after[..t + 1], ExpandLane(after[t + 1..]))
  {
    var n := notes.Length0;
    var noteByte := notes[t, i];
    var k := 1;
    while true
      invariant 1 <= k && t + k <= n
      invariant forall x, lane :: 0 <= x < n && 0 <= lane < 4 && lane != i ==>
                  notes[x, lane] == old(notes[x, lane])
      invariant forall x :: t < x < t + k ==> before[x] != Tail
      invariant forall x :: 0 <= x < n ==> notes[x, i] == if t < x < t + k then noteByte + 1 else before[x]
      decreases n - k
    {
      if t + k >= n {
        HeadOpen(before[t..]);
        after := before[..t + 1] + Repeat(noteByte + 1, k - 1) + before[t + k..];
        RunLaid(before, after, t, k, noteByte + 1);
        return false, after;
      }
      if notes[t + k, i] == Tail {
        break;
      }
      notes[t + k, i] := noteByte + 1;
      k := k + 1;
    }
    after := before[..t + 1] + Repeat(noteByte + 1, k - 1) + before[t + k..];
    RunLaid(before, after, t, k, noteByte + 1);
    HeadAdvance(before, after, t, k);
    return true, after;
  }

  // ---------------------------------------------------------------------------
  // Lemmas used by the methods

  lemma RunLaid(before: seq<Byte>, after: seq<Byte>, t: nat, k: nat, b: Byte)
    requires 1 <= k && t + k <= |before|
    requires after == before[..t + 1] + Repeat(b, k - 1) + before[t + k..]
    ensures |after| == |before|
    ensures forall x :: 0 <= x < |before| ==> after[x] == if t < x < t + k then b else before[x]
  {
    forall x | 0 <= x < |before|
      ensures after[x] == if t < x < t + k then b else before[x]
    {
      if x <= t {
      } else if x < t + k {
        assert after[x] == Repeat(b, k - 1)[x - t - 1];
      } else {
        assert after[x] == before[t + k..][x - t - k];
      }
    }
  }

  lemma SpacingBound(resolution: nat, i: nat)
    requires 0 <= i < resolution
    ensures 0 <= (192 / resolution) * i < 192
  {
    var s := 192 / resolution;
    assert s * resolution + 192 % resolution == 192;
    MulLe(s, i, resolution - 1);
    assert s * (resolution - 1) + s == s * resolution;
  }

  lemma {:induction false} MulLe(s: nat, i: nat, r: nat)
    requires i <= r
    ensures s * i <= s * r
  {
    if i < r {
      MulLe(s, i, r - 1);
      assert s * (r - 1) + s == s * r;
    }
  }

  /** The bar a tick belongs to, and its offset in the bar. */
  lemma BarOfTick(t: int, m: int)
    requires m * 192 <= t < m * 192 + 192
    ensures t / 192 == m && t % 192 == t - m * 192
  {
  }

  lemma {:induction false} ScannedConcat(a: seq<string>, b: seq<string>)
    ensures Scanned(a + b) == Scanned(a) + Scanned(b)
  {
    if a != [] {
      assert (a + b)[0] == a[0] && (a + b)[1..] == a[1..] + b;
      ScannedConcat(a[1..], b);
      var head := a[0][..Resolution(a[0]) * 4];
      calc {
        Scanned(a + b);
        head + Scanned(a[1..] + b);
        head + (Scanned(a[1..]) + Scanned(b));
        (head + Scanned(a[1..])) + Scanned(b);
      }
    } else {
      assert a + b == b;
    }
  }

  lemma {:induction false} FirstBadConcat(a: string, b: string)
    ensures FirstBad(a + b) == if FirstBad(a).Some? then FirstBad(a) else FirstBad(b)
  {
    if a != [] {
      assert (a + b)[0] == a[0] && (a + b)[1..] == a[1..] + b;
      FirstBadConcat(a[1..], b);
    } else {
      assert a + b == b;
    }
  }

  /** A head with no tail below it never terminates its run. */
  lemma HeadOpen(c: seq<Byte>)
    requires |c| > 0 && IsHead(c[0]) && forall x :: 0 < x < |c| ==> c[x] != Tail
    ensures ExpandLane(c) == None
  {
  }

  /** Expanding a lane segment that starts with a head whose first tail is at
      offset `e`. */
  lemma HeadRun(c: seq<Byte>, e: nat)
    requires 0 < e < |c| && IsHead(c[0]) && c[e] == Tail && forall x :: 0 < x < e ==> c[x] != Tail
    ensures ExpandLane(c) == Prefix([c[0]] + Repeat(c[0] + 1, e - 1), ExpandLane(c[e..]))
  {
    assert TailIndex(c, 1) == Some(e);
  }

  /** Cells that are not heads are left as they are. */
  lemma {:induction false} PassThrough(run: seq<Byte>, rest: seq<Byte>)
    requires forall x :: 0 <= x < |run| ==> !IsHead(run[x])
    ensures ExpandLane(run + rest) == Prefix(run, ExpandLane(rest))
  {
    if run != [] {
      assert (run + rest)[0] == run[0] && (run + rest)[1..] == run[1..] + rest;
      PassThrough(run[1..], rest);
      match ExpandLane(rest)
      case None =>
      case Some(e) => assert [run[0]] + (run[1..] + e) == run + e;
    } else {
      assert run + rest == rest;
      match ExpandLane(rest)
      case None =>
      case Some(e) => assert run + e == e;
    }
  }

  /** The scan moves past a cell that is not a head. */
  lemma StepAdvance(c: seq<Byte>, t: nat)
    requires t < |c| && !IsHead(c[t])
    ensures Prefix(c[..t], ExpandLane(c[t..])) == Prefix(c[..t + 1], ExpandLane(c[t + 1..]))
  {
    assert c[t..][1..] == c[t + 1..];
    assert c[..t] + [c[t]] == c[..t + 1];
    match ExpandLane(c[t + 1..])
    case None =>
    case Some(e) => assert c[..t] + ([c[t]] + e) == c[..t + 1] + e;
  }

  /** The scan moves past a head whose body has been written up to the tail
      at t + k. */
  lemma HeadAdvance(before: seq<Byte>, after: seq<Byte>, t: nat, k: nat)
    requires 1 <= k && t + k < |before| && IsHead(before[t]) && before[t + k] == Tail
    requires forall x :: t < x < t + k ==> before[x] != Tail
    requires after == before[..t + 1] + Repeat(before[t] + 1, k - 1) + before[t + k..]
    ensures Prefix(before[..t], ExpandLane(before[t..])) == Prefix(after[..t + 1], ExpandLane(after[t + 1..]))
  {
    var body := Repeat(before[t] + 1, k - 1);
    var rest := before[t + k..];
    HeadRunAt(before, t, k);
    AfterSlices(before, after, t, body, rest);
    PassThrough(body, rest);
    match ExpandLane(rest)
    case None =>
    case Some(e) =>
      Regroup(before[..t], before[t], body, e, before[..t + 1]);
  }

  /** Moving the head from the expanded run onto the kept prefix. */
  lemma Regroup(front: seq<Byte>, h: Byte, body: seq<Byte>, e: seq<Byte>, front1: seq<Byte>)
    requires front1 == front + [h]
    ensures front + ([h] + body + e) == front1 + (body + e)
  {
  }

  /** The hold whose head sits at `t` of a lane runs up to the tail at `t + k`. */
  lemma HeadRunAt(before: seq<Byte>, t: nat, k: nat)
    requires 1 <= k && t + k < |before| && IsHead(before[t]) && before[t + k] == Tail
    requires forall x :: t < x < t + k ==> before[x] != Tail
    ensures ExpandLane(before[t..]) == Prefix([before[t]] + Repeat(before[t] + 1, k - 1), ExpandLane(before[t + k..]))
  {
    var c := before[t..];
    assert c[0] == before[t] && c[k] == Tail && c[k..] == before[t + k..];
    assert forall x :: 0 < x < k ==> c[x] != Tail by {
      forall x | 0 < x < k ensures c[x] != Tail { assert c[x] == before[t + x]; }
    }
    HeadRun(c, k);
  }

  lemma AfterSlices(before: seq<Byte>, after: seq<Byte>, t: nat, body: seq<Byte>, rest: seq<Byte>)
    requires t < |before| && after == before[..t + 1] + body + rest
    ensures after[t + 1..] == body + rest && after[..t + 1] == before[..t + 1]
    ensures before[..t] + [before[t]] == before[..t + 1]
  {
  }
}
