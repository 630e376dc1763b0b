/** The character reader of the chart parser (SSCParser.read and
    parseKeyValuePair) as functions of the file text and the reader state.
    The file is a sequence of characters; reading past its end yields the
    character U+FFFF, which is what `(char) reader.read()` gives for -1.
    Wherever the parser would spin forever, the functions answer None (or
    Hangs) instead. */
module Reader {
  import opened Base

  const EOF: char := '\U{FFFF}'

  /** Where the underlying reader is, the pushed-back characters (top
      first) and the line counter. */
  datatype ReaderState = ReaderState(pos: nat, stack: seq<char>, line: int)

  /** A reachable state: inside the text, and at most one character pushed
      back (read() pushes only when nothing is pushed). */
  predicate Inside(text: string, st: ReaderState) {
    st.pos <= |text| && |st.stack| <= 1
  }

  /** The state from which every read yields U+FFFF and changes nothing. */
  predicate Exhausted(text: string, st: ReaderState) {
    st.pos == |text| && st.stack == []
  }

  /** What is left to read, counting a pushed-back character as one step. */
  function Measure(text: string, st: ReaderState): nat
    requires Inside(text, st)
  {
    2 * (|text| - st.pos) + |st.stack|
  }

  /** `(char) reader.read()` at `pos`. */
  function Raw(text: string, pos: nat): char {
    if pos < |text| then text[pos] else EOF
  }

  /** The position after that read (reading at the end stays there). */
  function Advance(text: string, pos: nat): (p: nat)
    requires pos <= |text|
    ensures p <= |text|
  {
    if pos < |text| then pos + 1 else pos
  }

  /** The do-while of read(): skips carriage returns and line feeds,
      counting the line feeds. */
  function SkipBreaks(text: string, pos: nat, line: int): (r: (nat, int))
    requires pos <= |text|
    ensures pos <= r.0 <= |text|
    ensures r.0 < |text| ==> text[r.0] != '\r' && text[r.0] != '\n'
    decreases |text| - pos
  {
    if pos < |text| && (text[pos] == '\r' || text[pos] == '\n') then
      SkipBreaks(text, pos + 1, line + if text[pos] == '\n' then 1 else 0)
    else (pos, line)
  }

  /** The position after the first line feed from `pos` on; None when there
      is none, where `while (reader.read() != '\n');` never ends. */
  function LineEnd(text: string, pos: nat): (r: Option<nat>)
    requires pos <= |text|
    ensures r.Some? ==> pos < r.value <= |text| && text[r.value - 1] == '\n'
    ensures r.Some? ==> forall k :: pos <= k < r.value - 1 ==> text[k] != '\n'
    ensures r.None? ==> forall k :: pos <= k < |text| ==> text[k] != '\n'
    decreases |text| - pos
  {
    if pos == |text| then None
    else if text[pos] == '\n' then Some(pos + 1)
    else LineEnd(text, pos + 1)
  }

  /** read(): a pushed-back character comes first; otherwise line breaks are
      skipped (and counted), a `//` comment is skipped up to and including
      its line feed (which is not counted) and reading starts over, and a
      `/` followed by anything else is answered with the other character
      pushed back. None: the comment never ends. */
  function Next(text: string, st: ReaderState): (r: Option<(char, ReaderState)>)
    requires Inside(text, st)
    ensures r.Some? ==> Inside(text, r.value.1)
    ensures Exhausted(text, st) ==> r == Some((EOF, st))
    ensures r.Some? && !Exhausted(text, st) ==> Measure(text, r.value.1) < Measure(text, st)
    decreases |text| - st.pos
  {
    if st.stack != [] then Some((st.stack[0], st.(stack := st.stack[1..])))
    else
      var (p, line) := SkipBreaks(text, st.pos, st.line);
      var c := Raw(text, p);
      var p1 := Advance(text, p);
      if c != '/' then Some((c, ReaderState(p1, [], line)))
      else
        var c2 := Raw(text, p1);
        var p2 := Advance(text, p1);
        if c2 == '/' then
          match LineEnd(text, p2)
          case None => None
          case Some(p3) => Next(text, ReaderState(p3, [], line))
        else Some(('/', ReaderState(p2, [c2], line)))
  }

  /** The first loop of parseKeyValuePair: skips whitespace; true when the
      first other character is '#'. */
  function PairStart(text: string, st: ReaderState): (r: Option<(bool, ReaderState)>)
    requires Inside(text, st)
    ensures r.Some? ==> Inside(text, r.value.1) && Measure(text, r.value.1) <= Measure(text, st)
    ensures r.Some? && r.value.0 ==> Measure(text, r.value.1) < Measure(text, st)
    decreases Measure(text, st)
  {
    match Next(text, st)
    case None => None
    case Some((c, st')) =>
      if IsWhitespace(c) then PairStart(text, st')
      else Some((c == '#', st'))
  }

  /** Collects characters up to `delim`, which is read but not kept. None
      when the reader is exhausted first (where the source reads U+FFFF for
      ever) or a comment never ends. */
  function ReadUntil(text: string, st: ReaderState, delim: char): (r: Option<(string, ReaderState)>)
    requires Inside(text, st) && delim != EOF
    ensures r.Some? ==> Inside(text, r.value.1) && Measure(text, r.value.1) < Measure(text, st)
    ensures r.Some? ==> delim !in r.value.0
    decreases Measure(text, st)
  {
    if Exhausted(text, st) then None
    else
      match Next(text, st)
      case None => None
      case Some((c, st')) =>
        if c == delim then Some(([], st'))
        else
          match ReadUntil(text, st', delim)
          case None => None
          case Some((s, st'')) => Some(([c] + s, st''))
  }

  datatype PairOutcome =
    | Pair(key: string, value: string, after: ReaderState)
    | NoPair(after: ReaderState)     // the first non-space character was not '#'
    | Hangs                          // the source never returns

  /** parseKeyValuePair. */
  function NextPair(text: string, st: ReaderState): (r: PairOutcome)
    requires Inside(text, st)
    ensures r.Pair? || r.NoPair? ==> Inside(text, r.after) && Measure(text, r.after) <= Measure(text, st)
    ensures r.Pair? ==> Measure(text, r.after) < Measure(text, st) && ':' !in r.key && ';' !in r.value
  {
    match PairStart(text, st)
    case None => Hangs
    case Some((isPair, st1)) =>
      if !isPair then NoPair(st1)
      else
        match ReadUntil(text, st1, ':')
        case None => Hangs
        case Some((key, st2)) =>
          match ReadUntil(text, st2, ';')
          case None => Hangs
          case Some((value, st3)) => Pair(key, value, st3)
  }

  // ---------------------------------------------------------------------------
  // Properties

  /** Characters of `text` from `pos` on, read through a suffix `u`. */
  lemma SuffixAt(text: string, pos: nat, u: string, a: nat, b: nat)
    requires pos <= |text| && text[pos..] == u && a <= b <= |u|
    ensures text[pos + a..pos + b] == u[a..b]
    ensures a < |u| ==> text[pos + a] == u[a]
  {
    assert text[pos + a..pos + b] == text[pos..][a..b];
    if a < |u| {
      assert text[pos + a] == text[pos..][a];
    }
  }

  /** A read with nothing pushed back never hands out a line break: line
      breaks are skipped, and so is a comment with its line feed. */
  lemma {:induction false} NoBreakFromStream(text: string, st: ReaderState)
    requires Inside(text, st) && st.stack == []
    ensures Next(text, st).Some? ==> Next(text, st).value.0 != '\r' && Next(text, st).value.0 != '\n'
    decreases |text| - st.pos
  {
    var (p, line) := SkipBreaks(text, st.pos, st.line);
    var p1 := Advance(text, p);
    if Raw(text, p) == '/' && Raw(text, p1) == '/' {
      match LineEnd(text, Advance(text, p1))
      case None =>
      case Some(p3) =>
        NoBreakFromStream(text, ReaderState(p3, [], line));
    }
  }

  /** A pair written out plainly wherever the reader stands reads back as
      that pair: `#KEY:VALUE;` with no line break, comment, slash or
      delimiter inside, and the reader stops just past the `;`. */
  lemma {:induction false} PairRoundTrip(text: string, pos: nat, key: string, value: string, rest: string, line: int)
    requires ':' !in key && ';' !in value && Plain(key) && Plain(value)
    requires pos <= |text| && text[pos..] == "#" + key + ":" + value + ";" + rest
    ensures NextPair(text, ReaderState(pos, [], line)) ==
              Pair(key, value, ReaderState(pos + |key| + |value| + 3, [], line))
  {
    PairText(text, pos, key, value, rest);
    PairAt(text, pos, key, value, line);
  }

  /** Where `#KEY:VALUE;` is written, each part sits at its own position. */
  lemma PairText(text: string, pos: nat, key: string, value: string, rest: string)
    requires pos <= |text| && text[pos..] == "#" + key + ":" + value + ";" + rest
    ensures pos + |key| + |value| + 2 < |text| && text[pos] == '#'
    ensures text[pos + 1..pos + 1 + |key|] == key && text[pos + 1 + |key|] == ':'
    ensures text[pos + |key| + 2..pos + |key| + 2 + |value|] == value && text[pos + |key| + 2 + |value|] == ';'
  {
    var u := "#" + key + ":" + value + ";" + rest;
    assert u[0] == '#';
    assert u[1..1 + |key|] == key && u[1 + |key|] == ':';
    assert u[|key| + 2..|key| + 2 + |value|] == value && u[|key| + 2 + |value|] == ';';
    SuffixAt(text, pos, u, 0, 0);
    SuffixAt(text, pos, u, 1, 1 + |key|);
    SuffixAt(text, pos, u, 1 + |key|, 1 + |key|);
    SuffixAt(text, pos, u, |key| + 2, |key| + 2 + |value|);
    SuffixAt(text, pos, u, |key| + 2 + |value|, |key| + 2 + |value|);
  }

  /** The same, stated on the positions of the text. */
  lemma PairAt(text: string, pos: nat, key: string, value: string, line: int)
    requires ':' !in key && ';' !in value && Plain(key) && Plain(value)
    requires pos + |key| + |value| + 2 < |text| && text[pos] == '#'
    requires text[pos + 1..pos + 1 + |key|] == key && text[pos + 1 + |key|] == ':'
    requires text[pos + |key| + 2..pos + |key| + 2 + |value|] == value && text[pos + |key| + 2 + |value|] == ';'
    ensures NextPair(text, ReaderState(pos, [], line)) == Pair(key, value, ReaderState(pos + |key| + |value| + 3, [], line))
  {
    KeyAt(text, pos, key, line);
    ValueAt(text, pos + |key| + 2, value, line);
    PairFrom(text, ReaderState(pos, [], line), ReaderState(pos + 1, [], line), key,
             ReaderState(pos + |key| + 2, [], line), value, ReaderState(pos + |key| + |value| + 3, [], line));
  }

  /** `PairStart` finds the `#` of a pair at `st` and moves past it to `st1`. */
  predicate Opens(text: string, st: ReaderState, st1: ReaderState)
  {
    Inside(text, st) && PairStart(text, st) == Some((true, st1))
  }

  /** Reading from `st` up to `stop` gives `s` and leaves the reader at `st1`. */
  predicate ReadsTo(text: string, st: ReaderState, stop: char, s: string, st1: ReaderState)
  {
    Inside(text, st) && stop != EOF && ReadUntil(text, st, stop) == Some((s, st1))
  }

  /** `#key:` where the reader stands opens a pair with that key. */
  lemma KeyAt(text: string, pos: nat, key: string, line: int)
    requires ':' !in key && Plain(key)
    requires pos + |key| + 1 < |text| && text[pos] == '#'
    requires text[pos + 1..pos + 1 + |key|] == key && text[pos + 1 + |key|] == ':'
    ensures Opens(text, ReaderState(pos, [], line), ReaderState(pos + 1, [], line))
    ensures ReadsTo(text, ReaderState(pos + 1, [], line), ':', key, ReaderState(pos + |key| + 2, [], line))
  {
    HashStarts(text, pos, line);
    ReadPlain(text, pos + 1, key, ':', line, pos + |key| + 2);
  }

  /** `value;` where the reader stands is read as that value. */
  lemma ValueAt(text: string, pos: nat, value: string, line: int)
    requires ';' !in value && Plain(value)
    requires pos + |value| < |text|
    requires text[pos..pos + |value|] == value && text[pos + |value|] == ';'
    ensures ReadsTo(text, ReaderState(pos, [], line), ';', value, ReaderState(pos + |value| + 1, [], line))
  {
    ReadPlain(text, pos, value, ';', line, pos + |value| + 1);
  }

  /** A pair is its `#`, its key up to `:` and its value up to `;`. */
  lemma PairFrom(text: string, st: ReaderState, st1: ReaderState, key: string, st2: ReaderState,
                 value: string, st3: ReaderState)
    requires Inside(text, st) && Opens(text, st, st1) && ReadsTo(text, st1, ':', key, st2) && ReadsTo(text, st2, ';', value, st3)
    ensures NextPair(text, st) == Pair(key, value, st3)
  {
  }

  /** A '#' where the reader stands opens a pair. */
  lemma HashStarts(text: string, pos: nat, line: int)
    requires pos < |text| && text[pos] == '#'
    ensures PairStart(text, ReaderState(pos, [], line)) == Some((true, ReaderState(pos + 1, [], line)))
  {
    assert Next(text, ReaderState(pos, [], line)) == Some(('#', ReaderState(pos + 1, [], line)));
  }

  /** No line break, no slash, no U+FFFF. */
  predicate Plain(s: string) {
    forall k :: 0 <= k < |s| ==> s[k] != '\n' && s[k] != '\r' && s[k] != '/' && s[k] != EOF
  }

  lemma {:induction false} ReadPlain(text: string, pos: nat, s: string, delim: char, line: int, after: nat)
    requires pos + |s| < |text| && text[pos..pos + |s|] == s && text[pos + |s|] == delim
    requires Plain(s) && delim !in s && delim != EOF && delim != '/' && delim != '\n' && delim != '\r'
    requires after == pos + |s| + 1
    ensures ReadUntil(text, ReaderState(pos, [], line), delim) == Some((s, ReaderState(after, [], line)))
    decreases |s|
  {
    var st := ReaderState(pos, [], line);
    if s == [] {
      assert Next(text, st) == Some((delim, ReaderState(pos + 1, [], line)));
    } else {
      assert text[pos] == s[0];
      assert Next(text, st) == Some((s[0], ReaderState(pos + 1, [], line)));
      assert text[pos + 1..pos + 1 + |s[1..]|] == s[1..];
      ReadPlain(text, pos + 1, s[1..], delim, line, after);
      assert [s[0]] + s[1..] == s;
    }
  }

  /** Line breaks where the reader stands are skipped, every line feed among
      them is counted, and the character after them is read. */
  lemma {:induction false} BreaksCounted(text: string, pos: nat, breaks: string, c: char, rest: string, line: int)
    requires forall k :: 0 <= k < |breaks| ==> breaks[k] == '\r' || breaks[k] == '\n'
    requires c != '\r' && c != '\n' && c != '/'
    requires pos <= |text| && text[pos..] == breaks + [c] + rest
    ensures Next(text, ReaderState(pos, [], line)) ==
              Some((c, ReaderState(pos + |breaks| + 1, [], line + LineFeeds(breaks))))
  {
    var u := breaks + [c] + rest;
    assert u[..|breaks|] == breaks && u[|breaks|] == c;
    SuffixAt(text, pos, u, 0, |breaks|);
    SuffixAt(text, pos, u, |breaks|, |breaks|);
    forall k | pos <= k < pos + |breaks|
      ensures text[k] == '\r' || text[k] == '\n'
    {
      SuffixAt(text, pos, u, k - pos, k - pos);
    }
    SkipBreaksFrom(text, pos, pos + |breaks|, line);
  }

  function LineFeeds(s: string): nat {
    if s == [] then 0 else (if s[0] == '\n' then 1 else 0) + LineFeeds(s[1..])
  }

  lemma {:induction false} SkipBreaksFrom(text: string, pos: nat, end: nat, line: int)
    requires pos <= end < |text| && text[end] != '\r' && text[end] != '\n'
    requires forall k :: pos <= k < end ==> text[k] == '\r' || text[k] == '\n'
    ensures SkipBreaks(text, pos, line) == (end, line + LineFeeds(text[pos..end]))
    decreases end - pos
  {
    if pos < end {
      SkipBreaksFrom(text, pos + 1, end, line + if text[pos] == '\n' then 1 else 0);
      assert text[pos..end][1..] == text[pos + 1..end];
    }
  }

  /** A comment where the reader stands is skipped up to its line feed,
      which is not counted, and reading goes on after it. */
  lemma CommentSkipped(text: string, pos: nat, comment: string, rest: string, line: int)
    requires '\n' !in comment
    requires pos <= |text| && text[pos..] == "//" + comment + "\n" + rest
    ensures Next(text, ReaderState(pos, [], line)) == Next(text, ReaderState(pos + |comment| + 3, [], line))
  {
    CommentShape(text, pos, comment, rest);
    CommentFrom(text, pos, pos + |comment| + 3, line);
  }

  lemma CommentShape(text: string, pos: nat, comment: string, rest: string)
    requires '\n' !in comment
    requires pos <= |text| && text[pos..] == "//" + comment + "\n" + rest
    ensures pos + |comment| + 2 < |text| && text[pos] == '/' && text[pos + 1] == '/'
    ensures LineEnd(text, pos + 2) == Some(pos + |comment| + 3)
  {
    var u := "//" + comment + "\n" + rest;
    var nl := pos + |comment| + 2;
    assert u[0] == '/' && u[1] == '/' && u[|comment| + 2] == '\n';
    assert u[2..|comment| + 2] == comment;
    SuffixAt(text, pos, u, 0, 0);
    SuffixAt(text, pos, u, 1, 1);
    SuffixAt(text, pos, u, |comment| + 2, |comment| + 2);
    SuffixAt(text, pos, u, 2, |comment| + 2);
    forall k | pos + 2 <= k < nl
      ensures text[k] != '\n'
    {
      assert text[k] == text[pos + 2..nl][k - pos - 2];
    }
    LineEndAt(text, pos + 2, nl);
  }

  lemma CommentFrom(text: string, pos: nat, after: nat, line: int)
    requires pos + 2 < |text| && text[pos] == '/' && text[pos + 1] == '/' && LineEnd(text, pos + 2) == Some(after)
    ensures Next(text, ReaderState(pos, [], line)) == Next(text, ReaderState(after, [], line))
  {
    assert SkipBreaks(text, pos, line) == (pos, line);
  }

  lemma {:induction false} LineEndAt(text: string, pos: nat, nl: nat)
    requires pos <= nl < |text| && text[nl] == '\n' && forall k :: pos <= k < nl ==> text[k] != '\n'
    ensures LineEnd(text, pos) == Some(nl + 1)
    decreases nl - pos
  {
    if pos < nl {
      LineEndAt(text, pos + 1, nl);
    }
  }

  /** A comment with no line feed after it makes the reader spin. */
  lemma OpenComment(text: string, pos: nat, comment: string, line: int)
    requires '\n' !in comment
    requires pos <= |text| && text[pos..] == "//" + comment
    ensures Next(text, ReaderState(pos, [], line)) == None
  {
    var u := "//" + comment;
    assert u[0] == '/' && u[1] == '/';
    SuffixAt(text, pos, u, 0, 0);
    SuffixAt(text, pos, u, 1, 1);
    forall k | pos + 2 <= k < |text|
      ensures text[k] != '\n'
    {
      SuffixAt(text, pos, u, k - pos, k - pos);
      assert u[k - pos] == comment[k - pos - 2];
    }
    LineEndNone(text, pos + 2);
  }

  lemma {:induction false} LineEndNone(text: string, pos: nat)
    requires pos <= |text| && forall k :: pos <= k < |text| ==> text[k] != '\n'
    ensures LineEnd(text, pos) == None
    decreases |text| - pos
  {
    if pos < |text| {
      LineEndNone(text, pos + 1);
    }
  }

  /** A lone slash is answered as itself and the next character, whatever
      it is (a line break included), is handed out next, as is. */
  lemma SlashPushback(text: string, pos: nat, c2: char, rest: string, line: int)
    requires c2 != '/'
    requires pos <= |text| && text[pos..] == "/" + [c2] + rest
    ensures var r := Next(text, ReaderState(pos, [], line));
            r == Some(('/', ReaderState(pos + 2, [c2], line))) &&
            Next(text, r.value.1) == Some((c2, ReaderState(pos + 2, [], line)))
  {
    var u := "/" + [c2] + rest;
    assert u[0] == '/' && u[1] == c2;
    SuffixAt(text, pos, u, 0, 0);
    SuffixAt(text, pos, u, 1, 1);
  }

  /** Once exhausted, the reader gives U+FFFF for ever: a key or value that
      is still open there is never finished. */
  lemma ExhaustedHangs(text: string, st: ReaderState, delim: char)
    requires Inside(text, st) && Exhausted(text, st) && delim != EOF
    ensures Next(text, st) == Some((EOF, st))
    ensures ReadUntil(text, st, delim) == None
    ensures NextPair(text, st) == NoPair(st)
  {
  }

  // ---------------------------------------------------------------------------
  // Where parseKeyValuePair gives up

  /** `n` successive reads: the characters handed out and the state after
      them; None when one of them never returns. */
  function Reads(text: string, st: ReaderState, n: nat): (r: Option<(string, ReaderState)>)
    requires Inside(text, st)
    ensures r.Some? ==> |r.value.0| == n && Inside(text, r.value.1)
    decreases n
  {
    if n == 0 then Some(([], st))
    else
      match Next(text, st)
      case None => None
      case Some((c, st1)) =>
        match Reads(text, st1, n - 1)
        case None => None
        case Some((cs, st2)) => Some(([c] + cs, st2))
  }

  /** The first `n` reads hand out whitespace, and read `n + 1` hands out
      `c`, which is not whitespace, leaving the reader in `st'`. */
  predicate SpacesThen(text: string, st: ReaderState, n: nat, c: char, st': ReaderState)
    requires Inside(text, st)
  {
    var r := Reads(text, st, n + 1);
    r.Some? && r.value.1 == st' && r.value.0[n] == c && !IsWhitespace(c) &&
    forall k :: 0 <= k < n ==> IsWhitespace(r.value.0[k])
  }

  /** The search for '#' reads past whitespace only, and answers whether the
      first other character read (U+FFFF included) is '#'. */
  lemma {:induction false} SkipToPair(text: string, st: ReaderState, n: nat, c: char, st': ReaderState)
    requires Inside(text, st) && SpacesThen(text, st, n, c, st')
    ensures PairStart(text, st) == Some((c == '#', st'))
    decreases n
  {
    var (c0, st1) := Next(text, st).value;
    var cs := Reads(text, st, n + 1).value.0;
    if n > 0 {
      var rest := Reads(text, st1, n).value.0;
      assert cs == [c0] + rest;
      assert IsWhitespace(c0) by { assert cs[0] == c0; }
      assert SpacesThen(text, st1, n - 1, c, st') by {
        forall k | 0 <= k < n - 1
          ensures IsWhitespace(rest[k])
        {
          assert rest[k] == cs[k + 1];
        }
        assert rest[n - 1] == cs[n];
      }
      SkipToPair(text, st1, n - 1, c, st');
    }
  }

  /** Conversely, whenever the search for '#' returns, it stopped at such a
      first non-whitespace character. */
  lemma {:induction false} PairStartFinds(text: string, st: ReaderState)
    requires Inside(text, st)
    ensures PairStart(text, st).Some? ==>
              exists n: nat, c :: SpacesThen(text, st, n, c, PairStart(text, st).value.1) &&
                                  PairStart(text, st).value.0 == (c == '#')
    decreases Measure(text, st)
  {
    match Next(text, st)
    case None =>
    case Some((c0, st1)) =>
      if IsWhitespace(c0) {
        PairStartFinds(text, st1);
        if PairStart(text, st1).Some? {
          var st' := PairStart(text, st1).value.1;
          var n: nat, c :| SpacesThen(text, st1, n, c, st') && PairStart(text, st1).value.0 == (c == '#');
          var rest := Reads(text, st1, n + 1).value.0;
          var cs := Reads(text, st, n + 2).value.0;
          assert cs == [c0] + rest;
          assert cs[n + 1] == rest[n];
          forall k | 0 <= k < n + 1
            ensures IsWhitespace(cs[k])
          {
            if k > 0 { assert cs[k] == rest[k - 1]; }
          }
          assert SpacesThen(text, st, n + 1, c, st');
        }
      } else {
        assert Reads(text, st1, 0) == Some(([], st1));
        assert [c0] + [] == [c0];
        assert SpacesThen(text, st, 0, c0, st1);
      }
  }

  /** parseKeyValuePair returns null exactly when the first character it
      reads that is not whitespace is something other than '#' (U+FFFF at
      the end included), and the reader then stands just past that
      character. */
  lemma NoPairIff(text: string, st: ReaderState)
    requires Inside(text, st)
    ensures NextPair(text, st).NoPair? <==> exists n: nat, c, st' :: SpacesThen(text, st, n, c, st') && c != '#'
    ensures forall n: nat, c, st' :: SpacesThen(text, st, n, c, st') && c != '#' ==> NextPair(text, st) == NoPair(st')
  {
    PairStartFinds(text, st);
    forall n: nat, c, st' | SpacesThen(text, st, n, c, st')
      ensures PairStart(text, st) == Some((c == '#', st'))
    {
      SkipToPair(text, st, n, c, st');
    }
  }
}
