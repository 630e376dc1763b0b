/** TimeCourse.java: the tempo changes of a song or of one chart, kept as two
    parallel lists sorted by position (in ticks) and searched by binary
    search. A change at a position that is already present overwrites its
    tempo; any other change is inserted at its sorted place. A lookup answers
    the tempo of the last change at or before the position asked for. */
module TimeCourses {
  import opened Base

  /** The value of a TimeCourse: its two parallel lists. Tempi are only stored
      and handed back, never computed with. */
  datatype TempoList = TempoList(positions: seq<int>, values: seq<real>)

  predicate Sorted(s: seq<int>) {
    forall i, j :: 0 <= i < j < |s| ==> s[i] <= s[j]
  }

  predicate StrictlyIncreasing(s: seq<int>) {
    forall i, j :: 0 <= i < j < |s| ==> s[i] < s[j]
  }

  /** What every TimeCourse keeps: lists of equal length, strictly increasing
      positions, and a change at position 0 (put there by the constructor and
      never removed). */
  predicate WellFormed(t: TempoList) {
    |t.positions| == |t.values| && StrictlyIncreasing(t.positions) && 0 in t.positions
  }

  /** The (position, tempo) pairs of a list. */
  function Pairs(t: TempoList): set<(int, real)>
    requires |t.positions| == |t.values|
  {
    set i | 0 <= i < |t.positions| :: (t.positions[i], t.values[i])
  }

  // ---------------------------------------------------------------------------
  // Reference definitions of lookup and update

  /** Index of the last position that is at most `p`, or -1 if there is none. */
  function LastAtOrBelow(ps: seq<int>, p: int): (k: int)
    ensures -1 <= k < |ps|
  {
    if ps == [] then -1
    else if ps[|ps| - 1] <= p then |ps| - 1
    else LastAtOrBelow(ps[..|ps| - 1], p)
  }

  /** Number of leading positions below `p`: the sorted index of `p`. */
  function CountBelow(ps: seq<int>, p: int): (k: nat)
    ensures k <= |ps|
  {
    if ps == [] || p <= ps[0] then 0 else 1 + CountBelow(ps[1..], p)
  }

  /** getBPM(p): the tempo of the last change at or before `p`; with no such
      change the source reads index -1 of the list and fails. */
  function BpmAt(t: TempoList, p: int): (r: Result<real, Fault>)
    requires |t.positions| == |t.values|
    ensures r.Failure? <==> forall j :: 0 <= j < |t.positions| ==> p < t.positions[j]
    ensures r.Failure? ==> r.error == IndexOutOfBounds(-1)
    ensures r.Success? ==>
              exists i :: 0 <= i < |t.positions| && t.positions[i] <= p && r.value == t.values[i] &&
                          forall j :: i < j < |t.positions| ==> p < t.positions[j]
  {
    var k := LastAtOrBelow(t.positions, p);
    LastAtOrBelowCharacterized(t.positions, p, k);
    LastAtOrBelowCharacterized(t.positions, p, -1);
    if k < 0 then Failure(IndexOutOfBounds(k)) else Success(t.values[k])
  }

  /** setBpmChange(p, v): overwrite the tempo at `p` if `p` is a change
      position, otherwise insert (p, v) at the sorted index of `p`. */
  function SetChange(t: TempoList, p: int, v: real): (r: TempoList)
    requires |t.positions| == |t.values|
    ensures |r.positions| == |r.values| && p in r.positions
    ensures |t.positions| <= |r.positions| <= |t.positions| + 1
  {
    var k := CountBelow(t.positions, p);
    if k < |t.positions| && t.positions[k] == p then
      TempoList(t.positions, t.values[k := v])
    else
      var r := TempoList(t.positions[..k] + [p] + t.positions[k..], t.values[..k] + [v] + t.values[k..]);
      assert r.positions[k] == p;
      r
  }

  // ---------------------------------------------------------------------------
  // Arrays.binarySearch

  /** Arrays.binarySearch on a sorted list: the index of `key` if present,
      otherwise -(insertion point) - 1. */
  method BinarySearch(a: seq<int>, key: int) returns (r: int)
    requires Sorted(a)
    ensures 0 <= r ==> r < |a| && a[r] == key
    ensures r < 0 ==> -r - 1 <= |a|
    ensures r < 0 ==> forall i :: 0 <= i < -r - 1 ==> a[i] < key
    ensures r < 0 ==> forall i :: -r - 1 <= i < |a| ==> key < a[i]
  {
    var low, high := 0, |a| - 1;
    while low <= high
      invariant 0 <= low <= high + 1 <= |a|
      invariant forall i :: 0 <= i < low ==> a[i] < key
      invariant forall i :: high < i < |a| ==> key < a[i]
    {
      var mid := (low + high) / 2;
      if a[mid] < key {
        low := mid + 1;
      } else if a[mid] > key {
        high := mid - 1;
      } else {
        return mid;
      }
    }
    return -(low + 1);
  }

  // ---------------------------------------------------------------------------
  // The object

  class TimeCourse {
    var positions: seq<int>
    var values: seq<real>

    function Value(): TempoList
      reads this
    {
      TempoList(positions, values)
    }

    ghost predicate Valid()
      reads this
    {
      WellFormed(Value())
    }

    /** A single change: `initialBPM` from position 0 on. */
    constructor (initialBPM: real)
      ensures Valid()
      ensures Value() == TempoList([0], [initialBPM])
    {
      positions := [0];
      values := [initialBPM];
    }

    method SetBpmChange(position: int, bpm: real)
      requires Valid()
      modifies this
      ensures Valid()
      ensures Value() == SetChange(old(Value()), position, bpm)
    {
      ghost var before := Value();
      var index := BinarySearch(positions, position);
      if index < 0 {
        index := -index - 1;
        CountBelowCharacterized(positions, position, index);
        positions := positions[..index] + [position] + positions[index..];
        values := values[..index] + [bpm] + values[index..];
      } else {
        CountBelowCharacterized(positions, position, index);
        values := values[index := bpm];
      }
      SetChangeWellFormed(before, position, bpm);
    }

    method GetBPM(position: int) returns (r: Result<real, Fault>)
      requires Valid()
      ensures r == BpmAt(Value(), position)
    {
      var index := BinarySearch(positions, position);
      var i := if index < 0 then -index - 2 else index;
      LastAtOrBelowCharacterized(positions, position, i);
      if i < 0 {
        r := Failure(IndexOutOfBounds(i));
      } else {
        r := Success(values[i]);
      }
    }
  }

  // ---------------------------------------------------------------------------
  // Properties

  /** LastAtOrBelow(ps, p) is the one index whose position is at most `p`
      while every later position is above `p`. */
  lemma {:induction false} LastAtOrBelowCharacterized(ps: seq<int>, p: int, i: int)
    requires -1 <= i < |ps|
    ensures LastAtOrBelow(ps, p) == i <==>
              (i >= 0 ==> ps[i] <= p) && (forall j :: i < j < |ps| ==> p < ps[j])
  {
    if ps != [] && ps[|ps| - 1] > p && i < |ps| - 1 {
      var front := ps[..|ps| - 1];
      LastAtOrBelowCharacterized(front, p, i);
      assert forall j :: i < j < |front| ==> front[j] == ps[j];
    }
  }

  /** On a sorted list, CountBelow(ps, p) is the index that splits the
      positions below `p` from the others. */
  lemma {:induction false} CountBelowCharacterized(ps: seq<int>, p: int, i: int)
    requires 0 <= i <= |ps|
    requires forall j :: 0 <= j < i ==> ps[j] < p
    requires i < |ps| ==> p <= ps[i]
    ensures CountBelow(ps, p) == i
  {
    if i > 0 {
      CountBelowCharacterized(ps[1..], p, i - 1);
    }
  }

  /** Between two consecutive change points the tempo is the earlier one's;
      past the last change point it is the last one's (a step function). */
  lemma StepFunction(t: TempoList, i: int, p: int)
    requires WellFormed(t)
    requires 0 <= i < |t.positions| && t.positions[i] <= p
    requires i + 1 < |t.positions| ==> p < t.positions[i + 1]
    ensures BpmAt(t, p) == Success(t.values[i])
  {
    LastAtOrBelowCharacterized(t.positions, p, i);
  }

  /** A lookup fails exactly below the first change position; so every
      position >= 0 has a tempo, because position 0 is a change point. */
  lemma BpmDefinedFrom(t: TempoList, p: int)
    requires WellFormed(t)
    ensures BpmAt(t, p).Failure? <==> p < t.positions[0]
    ensures 0 <= p ==> BpmAt(t, p).Success?
  {
    LastAtOrBelowCharacterized(t.positions, p, -1);
    var z :| 0 <= z < |t.positions| && t.positions[z] == 0;
    assert t.positions[0] <= 0;
  }

  /** An update keeps the list well formed and makes `p` a change point. */
  lemma SetChangeWellFormed(t: TempoList, p: int, v: real)
    requires WellFormed(t)
    ensures WellFormed(SetChange(t, p, v))
    ensures p in SetChange(t, p, v).positions
  {
    var ps := t.positions;
    var k := CountBelow(ps, p);
    CountBelowSplits(ps, p);
    if k < |ps| && ps[k] == p {
      assert ps[k] in ps;
    } else {
      assert forall j :: k <= j < |ps| ==> p < ps[j] by {
        if k < |ps| { assert ps[k] != p; }
      }
      InsertSorted(ps, k, p);
    }
  }

  /** Inserting `p` between the positions below it and those above it keeps
      the positions strictly increasing, and keeps every old position. */
  lemma InsertSorted(ps: seq<int>, k: nat, p: int)
    requires StrictlyIncreasing(ps) && k <= |ps|
    requires forall j :: 0 <= j < k ==> ps[j] < p
    requires forall j :: k <= j < |ps| ==> p < ps[j]
    ensures StrictlyIncreasing(ps[..k] + [p] + ps[k..])
    ensures p in ps[..k] + [p] + ps[k..]
    ensures forall x :: x in ps ==> x in ps[..k] + [p] + ps[k..]
  {
    var ps' := ps[..k] + [p] + ps[k..];
    forall a, b | 0 <= a < b < |ps'|
      ensures ps'[a] < ps'[b]
    {
      if b < k {
      } else if a < k && b == k {
      } else if a < k {
        assert ps'[b] == ps[b - 1];
      } else if a == k {
        assert ps'[b] == ps[b - 1];
      } else {
        assert ps'[a] == ps[a - 1] && ps'[b] == ps[b - 1];
      }
    }
    assert ps'[k] == p;
    forall x | x in ps ensures x in ps' {
      var z :| 0 <= z < |ps| && ps[z] == x;
      if z < k { assert ps'[z] == x; } else { assert ps'[z + 1] == x; }
    }
  }

  /** CountBelow on a sorted list: everything before it is below `p`,
      everything from it on is at least `p`. */
  lemma {:induction false} CountBelowSplits(ps: seq<int>, p: int)
    requires StrictlyIncreasing(ps)
    ensures forall j :: 0 <= j < CountBelow(ps, p) ==> ps[j] < p
    ensures forall j :: CountBelow(ps, p) <= j < |ps| ==> p <= ps[j]
  {
    if ps != [] && p > ps[0] {
      CountBelowSplits(ps[1..], p);
      forall j | 1 <= j < |ps|
        ensures ps[1..][j - 1] == ps[j]
      {
      }
    }
  }

  /** How SetChange lays out the new lists, index by index. */
  lemma SetChangeLayout(t: TempoList, p: int, v: real)
    requires WellFormed(t)
    ensures var k, t' := CountBelow(t.positions, p), SetChange(t, p, v);
      if p in t.positions then
        k < |t.positions| && t.positions[k] == p &&
        t'.positions == t.positions && t'.values == t.values[k := v]
      else
        |t'.positions| == |t'.values| == |t.positions| + 1 &&
        t'.positions[k] == p && t'.values[k] == v &&
        (forall i :: 0 <= i < k ==> t'.positions[i] == t.positions[i] && t'.values[i] == t.values[i]) &&
        (forall i :: k < i < |t'.positions| ==> t'.positions[i] == t.positions[i - 1] && t'.values[i] == t.values[i - 1])
  {
    CountBelowSplits(t.positions, p);
  }

  /** setBpmChange is insert-or-overwrite: the pairs afterwards are the old
      pairs at other positions plus (p, v); the list grows by one entry
      exactly when `p` was not a change point. */
  lemma SetChangePairs(t: TempoList, p: int, v: real)
    requires WellFormed(t)
    ensures |SetChange(t, p, v).positions| == |t.positions| + (if p in t.positions then 0 else 1)
    ensures Pairs(SetChange(t, p, v)) == (set e | e in Pairs(t) && e.0 != p) + {(p, v)}
  {
    SetChangeLayout(t, p, v);
    SetChangeWellFormed(t, p, v);
    if p in t.positions {
      OverwritePairs(t, p, v);
    } else {
      InsertPairs(t, p, v);
    }
  }

  lemma OverwritePairs(t: TempoList, p: int, v: real)
    requires WellFormed(t) && p in t.positions
    ensures Pairs(SetChange(t, p, v)) == (set e | e in Pairs(t) && e.0 != p) + {(p, v)}
  {
    SetChangeLayout(t, p, v);
    var ps, vs, k := t.positions, t.values, CountBelow(t.positions, p);
    var t' := SetChange(t, p, v);
    forall e | e in Pairs(t') ensures (e in Pairs(t) && e.0 != p) || e == (p, v) {
      var i :| 0 <= i < |ps| && e == (ps[i], t'.values[i]);
      if i != k {
        assert ps[i] != ps[k];
        assert e == (ps[i], vs[i]);
      }
    }
    forall e | e in Pairs(t) && e.0 != p ensures e in Pairs(t') {
      var i :| 0 <= i < |ps| && e == (ps[i], vs[i]);
      assert e == (ps[i], t'.values[i]);
    }
    assert (p, v) == (ps[k], t'.values[k]);
  }

  lemma InsertPairs(t: TempoList, p: int, v: real)
    requires WellFormed(t) && p !in t.positions
    ensures Pairs(SetChange(t, p, v)) == (set e | e in Pairs(t) && e.0 != p) + {(p, v)}
  {
    SetChangeLayout(t, p, v);
    InsertedPairs(t, SetChange(t, p, v), CountBelow(t.positions, p), p, v);
  }

  /** The pairs of a list with (p, v) inserted at index k. */
  lemma InsertedPairs(t: TempoList, t': TempoList, k: nat, p: int, v: real)
    requires |t.positions| == |t.values| && k <= |t.positions| && p !in t.positions
    requires |t'.positions| == |t'.values| == |t.positions| + 1
    requires t'.positions[k] == p && t'.values[k] == v
    requires forall i :: 0 <= i < k ==> t'.positions[i] == t.positions[i] && t'.values[i] == t.values[i]
    requires forall i :: k < i < |t'.positions| ==> t'.positions[i] == t.positions[i - 1] && t'.values[i] == t.values[i - 1]
    ensures Pairs(t') == (set e | e in Pairs(t) && e.0 != p) + {(p, v)}
  {
    var ps, vs := t.positions, t.values;
    forall e | e in Pairs(t') ensures (e in Pairs(t) && e.0 != p) || e == (p, v) {
      var i :| 0 <= i < |t'.positions| && e == (t'.positions[i], t'.values[i]);
      if i < k {
        assert e == (ps[i], vs[i]);
      } else if i > k {
        assert e == (ps[i - 1], vs[i - 1]);
      }
    }
    forall e | e in Pairs(t) && e.0 != p ensures e in Pairs(t') {
      var i :| 0 <= i < |ps| && e == (ps[i], vs[i]);
      if i < k {
        assert e == (t'.positions[i], t'.values[i]);
      } else {
        assert e == (t'.positions[i + 1], t'.values[i + 1]);
      }
    }
    assert (p, v) == (t'.positions[k], t'.values[k]);
  }

  /** Reading after writing: after setBpmChange(p, v), a position `q` gets
      `v` when `p` is the last change point at or before `q`, and what it got
      before otherwise. */
  lemma SetThenGet(t: TempoList, p: int, v: real, q: int)
    requires WellFormed(t)
    ensures BpmAt(SetChange(t, p, v), q) ==
              if p <= q && (forall x :: x in t.positions && p < x ==> q < x) then Success(v)
              else BpmAt(t, q)
  {
    SetChangeLayout(t, p, v);
    SetChangeWellFormed(t, p, v);
    if p <= q && (forall x :: x in t.positions && p < x ==> q < x) {
      GetAtNewChange(t, p, v, q);
    } else if p in t.positions {
      GetAfterOverwrite(t, p, v, q);
    } else if q < p {
      GetBeforeInsert(t, p, v, q);
    } else {
      GetPastInsert(t, p, v, q);
    }
  }

  lemma GetAtNewChange(t: TempoList, p: int, v: real, q: int)
    requires WellFormed(t)
    requires p <= q && (forall x :: x in t.positions && p < x ==> q < x)
    ensures BpmAt(SetChange(t, p, v), q) == Success(v)
  {
    SetChangeLayout(t, p, v);
    SetChangeWellFormed(t, p, v);
    var k, t' := CountBelow(t.positions, p), SetChange(t, p, v);
    var ps' := t'.positions;
    forall i | k < i < |ps'| ensures q < ps'[i] {
      var j := if p in t.positions then i else i - 1;
      assert ps'[i] == t.positions[j] && t.positions[j] in t.positions;
      assert p == ps'[k] < ps'[i];
    }
    LastAtOrBelowCharacterized(ps', q, k);
  }

  /** With `p` a change point, the last change at or before `q` is `p` only
      when no other change point lies in (p, q]. */
  lemma OverwriteHit(t: TempoList, p: int, q: int)
    requires WellFormed(t) && p in t.positions
    ensures LastAtOrBelow(t.positions, q) == CountBelow(t.positions, p) ==>
              p <= q && (forall x :: x in t.positions && p < x ==> q < x)
  {
    var ps, k := t.positions, CountBelow(t.positions, p);
    CountBelowSplits(ps, p);
    var m := LastAtOrBelow(ps, q);
    LastAtOrBelowCharacterized(ps, q, m);
    if m == k {
      forall x | x in ps && p < x ensures q < x {
        var j :| 0 <= j < |ps| && ps[j] == x;
        assert k < j;
      }
    }
  }

  lemma GetAfterOverwrite(t: TempoList, p: int, v: real, q: int)
    requires WellFormed(t) && p in t.positions
    requires !(p <= q && (forall x :: x in t.positions && p < x ==> q < x))
    ensures BpmAt(SetChange(t, p, v), q) == BpmAt(t, q)
  {
    SetChangeLayout(t, p, v);
    OverwriteHit(t, p, q);
  }

  lemma GetBeforeInsert(t: TempoList, p: int, v: real, q: int)
    requires WellFormed(t) && p !in t.positions && q < p
    ensures BpmAt(SetChange(t, p, v), q) == BpmAt(t, q)
  {
    SetChangeLayout(t, p, v);
    CountBelowSplits(t.positions, p);
    var ps, k, t' := t.positions, CountBelow(t.positions, p), SetChange(t, p, v);
    var m := LastAtOrBelow(ps, q);
    LastAtOrBelowCharacterized(ps, q, m);
    assert m < k;
    forall i | m < i < |t'.positions| ensures q < t'.positions[i] {
    }
    LastAtOrBelowCharacterized(t'.positions, q, m);
  }

  lemma GetPastInsert(t: TempoList, p: int, v: real, q: int)
    requires WellFormed(t) && p !in t.positions && p <= q
    requires !(forall x :: x in t.positions && p < x ==> q < x)
    ensures BpmAt(SetChange(t, p, v), q) == BpmAt(t, q)
  {
    SetChangeLayout(t, p, v);
    SetChangeWellFormed(t, p, v);
    CountBelowSplits(t.positions, p);
    var ps, k := t.positions, CountBelow(t.positions, p);
    var m := LastAtOrBelow(ps, q);
    LastAtOrBelowCharacterized(ps, q, m);
    var x :| x in ps && p < x && x <= q;
    var j :| 0 <= j < |ps| && ps[j] == x;
    assert k <= j <= m;
    LookupPastShift(t, SetChange(t, p, v), k, m, q);
  }

  /** A lookup that lands at or past an inserted entry finds the same pair
      one index further on. */
  lemma LookupPastShift(t: TempoList, t': TempoList, k: nat, m: nat, q: int)
    requires WellFormed(t) && WellFormed(t') && |t'.positions| == |t.positions| + 1
    requires k <= m < |t.positions| && t.positions[m] <= q
    requires m + 1 < |t.positions| ==> q < t.positions[m + 1]
    requires forall i :: k < i < |t'.positions| ==> t'.positions[i] == t.positions[i - 1] && t'.values[i] == t.values[i - 1]
    ensures BpmAt(t', q) == BpmAt(t, q)
  {
    StepFunction(t, m, q);
    StepFunction(t', m + 1, q);
  }
}
