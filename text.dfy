// Decimal text for node ids: what strconv.ParseUint(tok, 10, 32) accepts on
// the way in, what fmt's "%d " produces on the way out, and the line
// tokeniser that reads a result line back (split on " ", skip empty fields).

module Text {

  datatype Option<T> = None | Some(value: T)

  /** 2^32: node ids and counters are uint32 in the source. */
  const U32Limit: nat := 0x1_0000_0000

  predicate IsDigit(c: char) { '0' <= c <= '9' }

  predicate AllDigits(s: string) { forall k :: 0 <= k < |s| ==> IsDigit(s[k]) }

  function DigitValue(c: char): (d: nat)
    requires IsDigit(c)
    ensures d < 10
  {
    (c as int - '0' as int) as nat
  }

  function DigitChar(d: nat): (c: char)
    requires d < 10
    ensures IsDigit(c) && DigitValue(c) == d
  {
    ('0' as int + d) as char
  }

  /** The number a string of decimal digits denotes, most significant first. */
  function DecimalValue(s: string): nat
    requires AllDigits(s)
  {
    if s == [] then 0 else DecimalValue(s[..|s| - 1]) * 10 + DigitValue(s[|s| - 1])
  }

  /** strconv.ParseUint(s, 10, 32): digits only (no sign, no prefix, no
      underscore), at least one of them, and a value that fits in 32 bits. */
  function ParseU32(s: string): (r: Option<nat>)
    ensures r.Some? <==> |s| > 0 && AllDigits(s) && DecimalValue(s) < U32Limit
    ensures r.Some? ==> r.value < U32Limit
  {
    if |s| > 0 && AllDigits(s) && DecimalValue(s) < U32Limit then Some(DecimalValue(s)) else None
  }

  /** fmt's %d rendering of an unsigned number. */
  function Decimal(n: nat): (s: string)
    ensures |s| > 0 && AllDigits(s)
    ensures n == 0 ==> s == "0"
    ensures n > 0 ==> s[0] != '0'
  {
    if n < 10 then [DigitChar(n)] else Decimal(n / 10) + [DigitChar(n % 10)]
  }

  lemma {:induction false} DecimalValueOfDecimal(n: nat)
    ensures DecimalValue(Decimal(n)) == n
  {
    if n >= 10 {
      var s := Decimal(n);
      assert s[..|s| - 1] == Decimal(n / 10);
      DecimalValueOfDecimal(n / 10);
    }
  }

  /** Parsing what %d printed gives the number back. */
  lemma ParseDecimal(n: nat)
    requires n < U32Limit
    ensures ParseU32(Decimal(n)) == Some(n)
  {
    DecimalValueOfDecimal(n);
  }

  /** What writeRes prints for a sequence of ids: each id followed by a space. */
  function FormatIds(ids: seq<nat>): (s: string)
    ensures '\n' !in s
    ensures s == [] <==> ids == []
    ensures |s| >= 2 * |ids|
  {
    if ids == [] then [] else Decimal(ids[0]) + " " + FormatIds(ids[1..])
  }

  function IndexOf(s: string, c: char): (r: Option<nat>)
    ensures r.Some? ==> r.value < |s| && s[r.value] == c && c !in s[..r.value]
    ensures r.None? ==> c !in s
  {
    if s == [] then None
    else if s[0] == c then Some(0)
    else match IndexOf(s[1..], c)
      case None => None
      case Some(k) => assert s[..k + 1] == [s[0]] + s[1..][..k]; Some(k + 1)
  }

  lemma IndexOfAt(s: string, c: char, k: nat)
    requires k < |s| && s[k] == c && c !in s[..k]
    ensures IndexOf(s, c) == Some(k)
  {
  }

  /** strings.Join(parts, " "). */
  function JoinSpaces(parts: seq<string>): string
    requires |parts| > 0
  {
    if |parts| == 1 then parts[0] else parts[0] + " " + JoinSpaces(parts[1..])
  }

  /** strings.Split(s, " "): the pieces between single spaces, empty ones
      included. No piece holds a space. */
  function SplitSpaces(s: string): (parts: seq<string>)
    ensures |parts| > 0
    ensures forall k :: 0 <= k < |parts| ==> ' ' !in parts[k]
    decreases |s|
  {
    match IndexOf(s, ' ')
    case None => [s]
    case Some(k) => [s[..k]] + SplitSpaces(s[k + 1..])
  }

  /** Joining the pieces of strings.Split with single spaces gives the
      string back. */
  lemma {:induction false} SplitSpacesJoin(s: string)
    ensures JoinSpaces(SplitSpaces(s)) == s
    decreases |s|
  {
    match IndexOf(s, ' ')
    case None =>
    case Some(k) =>
      var parts := SplitSpaces(s);
      SplitSpacesJoin(s[k + 1..]);
      assert parts[1..] == SplitSpaces(s[k + 1..]);
      assert s == s[..k] + " " + s[k + 1..];
  }

  /** The ids of one result line: empty pieces are skipped, and the line
      is refused exactly when some other piece does not parse. */
  function ParseFields(parts: seq<string>): (r: Option<seq<nat>>)
    ensures r.Some? <==> forall k :: 0 <= k < |parts| && |parts[k]| > 0 ==> ParseU32(parts[k]).Some?
    ensures r.Some? ==> AllU32(r.value) && |r.value| <= |parts|
  {
    if parts == [] then Some([])
    else match ParseFields(parts[1..])
      case None => None
      case Some(rest) =>
        if |parts[0]| == 0 then Some(rest)
        else match ParseU32(parts[0])
          case None => None
          case Some(id) => Some([id] + rest)
  }

  /** The tokeniser of a result line: split on single spaces, skip empty
      pieces, parse the rest. */
  function ParseLine(line: string): (r: Option<seq<nat>>)
    ensures r.Some? ==> AllU32(r.value)
  {
    ParseFields(SplitSpaces(line))
  }

  /** A line without a space is a single id, or refused. */
  lemma ParseLineSingle(line: string)
    requires ' ' !in line && line != []
    ensures ParseLine(line) == (if ParseU32(line).Some? then Some([ParseU32(line).value]) else None)
  {
    assert SplitSpaces(line) == [line];
    assert [line][1..] == [];
    assert ParseFields([line][1..]) == Some([]);
    match ParseU32(line)
    case None =>
    case Some(id) => assert [id] + [] == [id];
  }

  predicate AllU32(ids: seq<nat>) { forall k :: 0 <= k < |ids| ==> ids[k] < U32Limit }

  lemma {:induction false} SplitAfterDecimal(n: nat, rest: string)
    ensures SplitSpaces(Decimal(n) + " " + rest) == [Decimal(n)] + SplitSpaces(rest)
  {
    var d := Decimal(n);
    var s := d + " " + rest;
    assert ' ' !in d by {
      forall k | 0 <= k < |d| ensures d[k] != ' ' { assert IsDigit(d[k]); }
    }
    assert s[..|d|] == d;
    IndexOfAt(s, ' ', |d|);
    assert s[|d| + 1..] == rest;
  }

  /** Reading a printed line back gives the same ids, in order. */
  lemma {:induction false} ParseFormattedLine(ids: seq<nat>)
    requires AllU32(ids)
    ensures ParseLine(FormatIds(ids)) == Some(ids)
  {
    if ids == [] {
      assert SplitSpaces([]) == [[]];
    } else {
      var d, rest := Decimal(ids[0]), FormatIds(ids[1..]);
      assert FormatIds(ids) == d + " " + rest;
      SplitAfterDecimal(ids[0], rest);
      var parts := [d] + SplitSpaces(rest);
      assert SplitSpaces(FormatIds(ids)) == parts;
      assert parts[1..] == SplitSpaces(rest);
      ParseFormattedLine(ids[1..]);
      assert ParseFields(parts[1..]) == Some(ids[1..]);
      ParseDecimal(ids[0]);
      assert |parts[0]| > 0 && ParseU32(parts[0]) == Some(ids[0]);
      assert [ids[0]] + ids[1..] == ids;
    }
  }

  /** One line per community: the ids, then a newline. */
  function FormatLines(lines: seq<seq<nat>>): string
  {
    if lines == [] then [] else FormatIds(lines[0]) + "\n" + FormatLines(lines[1..])
  }

  /** bufio.ScanLines: split at newlines, dropping a final empty line and
      one carriage return before each newline. */
  function ScanLines(s: string): seq<string>
    decreases |s|
  {
    if s == [] then []
    else match IndexOf(s, '\n')
      case None => [DropCR(s)]
      case Some(k) => [DropCR(s[..k])] + ScanLines(s[k + 1..])
  }

  function DropCR(line: string): string
  {
    if |line| > 0 && line[|line| - 1] == '\r' then line[..|line| - 1] else line
  }

  function ParseLines(lines: seq<string>): Option<seq<seq<nat>>>
  {
    if lines == [] then Some([])
    else match (ParseLine(lines[0]), ParseLines(lines[1..]))
      case (Some(ids), Some(rest)) => Some([ids] + rest)
      case _ => None
  }

  /** Scanning the printed text gives back exactly the printed lines. */
  lemma {:induction false} ScanFormattedLines(lines: seq<seq<nat>>)
    ensures ScanLines(FormatLines(lines)) == seq(|lines|, k requires 0 <= k < |lines| => FormatIds(lines[k]))
  {
    if lines != [] {
      var first, rest := FormatIds(lines[0]), lines[1..];
      if lines[0] != [] { FormatIdsEndsInSpace(lines[0]); }
      assert DropCR(first) == first;
      ScanLineAt(first, FormatLines(rest));
      ScanFormattedLines(rest);
      var got := seq(|rest|, k requires 0 <= k < |rest| => FormatIds(rest[k]));
      var want := seq(|lines|, k requires 0 <= k < |lines| => FormatIds(lines[k]));
      forall k | 0 <= k < |lines| ensures want[k] == ([first] + got)[k] {
        if k > 0 { assert rest[k - 1] == lines[k]; }
      }
      assert want == [first] + got;
    }
  }

  /** A line without newline, then a newline, scans as that line first. */
  lemma ScanLineAt(line: string, tail: string)
    requires '\n' !in line && DropCR(line) == line
    ensures ScanLines(line + "\n" + tail) == [line] + ScanLines(tail)
  {
    var s := line + "\n" + tail;
    assert s[..|line|] == line;
    IndexOfAt(s, '\n', |line|);
    assert s[|line| + 1..] == tail;
  }

  lemma {:induction false} ParseFormattedLines(lines: seq<seq<nat>>)
    requires forall k :: 0 <= k < |lines| ==> AllU32(lines[k])
    ensures ParseLines(seq(|lines|, k requires 0 <= k < |lines| => FormatIds(lines[k]))) == Some(lines)
  {
    if lines != [] {
      var printed := seq(|lines|, k requires 0 <= k < |lines| => FormatIds(lines[k]));
      assert printed[1..] == seq(|lines| - 1, k requires 0 <= k < |lines| - 1 => FormatIds(lines[1..][k]));
      ParseFormattedLine(lines[0]);
      ParseFormattedLines(lines[1..]);
      assert [lines[0]] + lines[1..] == lines;
    }
  }

  /** Reading the whole result text back line by line reproduces the
      communities, each with its ids in printed order. */
  lemma ReadFormattedLines(lines: seq<seq<nat>>)
    requires forall k :: 0 <= k < |lines| ==> AllU32(lines[k])
    ensures ParseLines(ScanLines(FormatLines(lines))) == Some(lines)
  {
    ScanFormattedLines(lines);
    ParseFormattedLines(lines);
  }

  lemma {:induction false} FormatIdsEndsInSpace(ids: seq<nat>)
    requires ids != []
    ensures var s := FormatIds(ids); |s| > 0 && s[|s| - 1] == ' '
  {
    if ids[1..] != [] { FormatIdsEndsInSpace(ids[1..]); }
  }
}
