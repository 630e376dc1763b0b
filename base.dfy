/** Values shared by the whole model: optional values, results, the Java
    exceptions the player can raise, Java's `byte`, and the parts of
    java.lang.String and java.lang.Character the parser relies on. */
module Base {

  datatype Option<T> = None | Some(value: T)

  datatype Result<T, E> = Success(value: T) | Failure(error: E)

  /** Java's signed 8-bit `byte`, the cell type of the note grid. */
  newtype Byte = b: int | -128 <= b < 128

  /** The unchecked Java exceptions that escape the parser or the player,
      by kind, with the detail that identifies where they came from. */
  datatype Fault =
    | NullPointer(key: string)                  // a value looked up under `key` was null
    | NumberFormat(text: Option<string>)        // parseDouble / parseInt refused `text` (None: null)
    | IllegalArgument(name: string)             // Enum.valueOf with an unknown constant name
    | IndexOutOfBounds(index: int)              // an array or list index outside its bounds
    | InvalidNoteCharacter(c: char, line: int)  // SSCParser.throwException for a note symbol

  // ---------------------------------------------------------------------------
  // java.lang.Character

  /** Character.isWhitespace: Unicode space, line and paragraph separators
      other than the non-breaking ones, plus U+0009..U+000D and U+001C..U+001F. */
  predicate IsWhitespace(c: char) {
    var n := c as int;
    (0x09 <= n <= 0x0D) || (0x1C <= n <= 0x20) || n == 0x1680 ||
    (0x2000 <= n <= 0x2006) || (0x2008 <= n <= 0x200A) ||
    n == 0x2028 || n == 0x2029 || n == 0x205F || n == 0x3000
  }

  /** The regular-expression class `\s`: [ \t\n\x0B\f\r]. */
  predicate IsRegexSpace(c: char) {
    c == ' ' || c == '\t' || c == '\n' || c as int == 0x0B || c as int == 0x0C || c == '\r'
  }

  function LowerChar(c: char): char {
    if 'A' <= c <= 'Z' then (c as int + 32) as char else c
  }

  function UpperChar(c: char): char {
    if 'a' <= c <= 'z' then (c as int - 32) as char else c
  }

  // ---------------------------------------------------------------------------
  // java.lang.String

  /** String.toLowerCase, for the ASCII letters. */
  function Lower(s: string): (r: string)
    ensures |r| == |s|
  {
    seq(|s|, i requires 0 <= i < |s| => LowerChar(s[i]))
  }

  /** String.toUpperCase, for the ASCII letters. */
  function Upper(s: string): (r: string)
    ensures |r| == |s|
  {
    seq(|s|, i requires 0 <= i < |s| => UpperChar(s[i]))
  }

  /** `s.replaceAll("3", "three_")`. */
  function ReplaceThree(s: string): string {
    if s == [] then []
    else (if s[0] == '3' then "three_" else [s[0]]) + ReplaceThree(s[1..])
  }

  /** Drops the `\s*` that follows a delimiter when `skipSpace` is set. */
  function DropSpace(s: string, skipSpace: bool): (r: string)
    ensures |r| <= |s|
  {
    if skipSpace && s != [] && IsRegexSpace(s[0]) then DropSpace(s[1..], skipSpace) else s
  }

  /** The pieces of `s` between occurrences of `d`, where the separator is
      `d` alone or, when `skipSpace` is set, `d` followed by `\s*`. */
  function Pieces(s: string, d: char, skipSpace: bool): (r: seq<string>)
    ensures |r| >= 1
    ensures forall i :: 0 <= i < |r| ==> d !in r[i]
    decreases |s|
  {
    if s == [] then [[]]
    else if s[0] == d then [[]] + Pieces(DropSpace(s[1..], skipSpace), d, skipSpace)
    else
      var rest := Pieces(s[1..], d, skipSpace);
      [[s[0]] + rest[0]] + rest[1..]
  }

  function DropTrailingEmpty(p: seq<string>): (r: seq<string>)
    ensures |r| <= |p| && r == p[..|r|]
    ensures r != [] ==> r[|r| - 1] != []
  {
    if p != [] && p[|p| - 1] == [] then DropTrailingEmpty(p[..|p| - 1]) else p
  }

  /** String.split with the regular expression "d" (or "d\\s*"): a string
      without a separator splits into itself; otherwise trailing empty
      pieces are discarded, so the result may be empty. */
  function JavaSplit(s: string, d: char, skipSpace: bool): (r: seq<string>)
    ensures forall i :: 0 <= i < |r| ==> d !in r[i]
    ensures d in s && r != [] ==> r[|r| - 1] != []
  {
    if d !in s then [s] else DropTrailingEmpty(Pieces(s, d, skipSpace))
  }
}
