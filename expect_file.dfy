/**
  The text expectation file, format version 1: the writer (`_raw_make_file`,
  `_make_file`) and the reader (`_parse_file`), over the bytes of the file.
 */
module ExpectFile {
  import opened Wrappers
  import opened Ids
  import opened Literals

  // ---------------------------------------------------------------- bytes and lines

  const NL: Byte := 0x0A
  const COLON: CodePoint := 0x3A
  const LPAREN: CodePoint := 0x28
  const RPAREN: CodePoint := 0x29

  /** The marker every version-1 file starts with: `pytest-expect file v`. */
  const MAGIC: seq<Byte> := ByteString("pytest-expect file v")

  /** `line.decode("ascii")`. */
  function AsciiDecode(line: seq<Byte>): Option<seq<CodePoint>>
  {
    if IsAscii(line) then Some(Latin1Decode(line)) else None
  }

  /** `line.encode("ascii")`. */
  function AsciiEncode(t: seq<CodePoint>): Option<seq<Byte>>
  {
    if IsAscii(t) then Some(seq(|t|, i requires 0 <= i < |t| => t[i] as Byte)) else None
  }

  lemma AsciiDecodeEncode(t: seq<CodePoint>)
    requires IsAscii(t)
    ensures AsciiEncode(t).Some? && AsciiDecode(AsciiEncode(t).value) == Some(t)
  {
    var b := AsciiEncode(t).value;
    assert IsAscii(b) by {
      forall i | 0 <= i < |b| ensures 0 <= b[i] < 0x80 {
        assert b[i] == t[i];
      }
    }
    assert AsciiDecode(b).value == t;
  }

  /** Length of the first line of `data`, its newline included. */
  function LineLength(data: seq<Byte>): (n: nat)
    requires data != []
    ensures 1 <= n <= |data|
    decreases |data|
  {
    if data[0] == NL || |data| == 1 then 1 else 1 + LineLength(data[1..])
  }

  /** `for line in fp` on a file opened in binary mode: each line keeps its newline; the last may lack one. */
  function SplitLines(data: seq<Byte>): seq<seq<Byte>>
    decreases |data|
  {
    if data == [] then [] else var n := LineLength(data); [data[..n]] + SplitLines(data[n..])
  }

  /** The bytes of consecutive `fp.write` calls. */
  function Concat(ls: seq<seq<Byte>>): seq<Byte>
    decreases |ls|
  {
    if ls == [] then [] else Concat(ls[..|ls| - 1]) + ls[|ls| - 1]
  }

  /** A complete line: one newline, at its end. */
  predicate IsLine(l: seq<Byte>)
  {
    |l| >= 1 && l[|l| - 1] == NL && forall i :: 0 <= i < |l| - 1 ==> l[i] != NL
  }

  predicate AllLines(ls: seq<seq<Byte>>)
  {
    forall i :: 0 <= i < |ls| ==> IsLine(ls[i])
  }

  lemma {:induction false} ConcatCons(l: seq<Byte>, ls: seq<seq<Byte>>)
    ensures Concat([l] + ls) == l + Concat(ls)
    decreases |ls|
  {
    if ls != [] {
      assert ([l] + ls)[..|ls|] == [l] + ls[..|ls| - 1];
      ConcatCons(l, ls[..|ls| - 1]);
    } else {
      assert [l] + ls == [l];
      assert [l][..0] == [];
    }
  }

  lemma {:induction false} LineLengthOf(l: seq<Byte>, rest: seq<Byte>)
    requires IsLine(l)
    ensures LineLength(l + rest) == |l|
    decreases |l|
  {
    if |l| > 1 {
      assert (l + rest)[1..] == l[1..] + rest;
      LineLengthOf(l[1..], rest);
    }
  }

  /** Splitting what was written line by line gives back those lines. */
  lemma {:induction false} SplitConcat(ls: seq<seq<Byte>>)
    requires AllLines(ls)
    ensures SplitLines(Concat(ls)) == ls
    decreases |ls|
  {
    if ls != [] {
      assert ls == [ls[0]] + ls[1..];
      ConcatCons(ls[0], ls[1..]);
      var data := Concat(ls);
      LineLengthOf(ls[0], Concat(ls[1..]));
      assert data[..|ls[0]|] == ls[0];
      assert data[|ls[0]|..] == Concat(ls[1..]);
      SplitConcat(ls[1..]);
    }
  }

  /** Splitting loses no byte. */
  lemma {:induction false} ConcatSplit(data: seq<Byte>)
    ensures Concat(SplitLines(data)) == data
    decreases |data|
  {
    if data != [] {
      var n := LineLength(data);
      ConcatSplit(data[n..]);
      ConcatCons(data[..n], SplitLines(data[n..]));
      assert data[..n] + data[n..] == data;
    }
  }

  // ---------------------------------------------------------------- whitespace

  /** What `bytes.strip` and `bytes.rstrip` remove (also Python 2 `str.strip`). */
  predicate IsByteSpace(c: int)
  {
    c == 0x20 || 0x09 <= c <= 0x0D
  }

  /** What `str.strip` (Python 3) or `str.strip` on bytes (Python 2) removes, restricted to ASCII. */
  predicate IsSpace(c: int, reader: Major)
  {
    IsByteSpace(c) || (reader == PY3 && 0x1C <= c <= 0x1F)
  }

  function RStripBytes(s: seq<Byte>): seq<Byte>
    decreases |s|
  {
    if s != [] && IsByteSpace(s[|s| - 1]) then RStripBytes(s[..|s| - 1]) else s
  }

  function LStrip(s: seq<CodePoint>, reader: Major): seq<CodePoint>
    decreases |s|
  {
    if s != [] && IsSpace(s[0], reader) then LStrip(s[1..], reader) else s
  }

  function RStrip(s: seq<CodePoint>, reader: Major): seq<CodePoint>
    decreases |s|
  {
    if s != [] && IsSpace(s[|s| - 1], reader) then RStrip(s[..|s| - 1], reader) else s
  }

  function Strip(s: seq<CodePoint>, reader: Major): seq<CodePoint>
  {
    RStrip(LStrip(s, reader), reader)
  }

  // ---------------------------------------------------------------- reader

  /** Why `_parse_file` raises. */
  datatype ParseError =
    | InvalidFile     // a header, version line or body line that is refused
    | UnknownVersion  // SyntaxError("unknown pytest-expect file version")
    | BadNumber       // ValueError from int() on the header's version
    | NotAscii        // UnicodeDecodeError on a body line
    | BadLiteral      // literal_eval failing on a body line's id

  predicate HasMagic(line: seq<Byte>)
  {
    |line| >= |MAGIC| && line[..|MAGIC|] == MAGIC
  }

  /** The header line: the marker, then the format version in decimal, then blanks. */
  function ParseHeader(line: seq<Byte>): Result<nat, ParseError>
  {
    if !HasMagic(line) then Err(InvalidFile)
    else
      var digits := RStripBytes(line[|MAGIC|..]);
      if digits != [] && AllDigits(digits) then Ok(DigitsValue(digits)) else Err(BadNumber)
  }

  /** An element of the version tuple. */
  datatype Item = IntItem(n: nat) | StrItem(s: Id)

  const SEPARATOR: seq<CodePoint> := [0x2C, 0x20]

  /** One tuple element: a decimal integer or a string literal. */
  function ParseItem(src: seq<CodePoint>, reader: Major): (r: Option<(Item, seq<CodePoint>)>)
    ensures r.Some? ==> |r.value.1| < |src| && r.value.1 == src[|src| - |r.value.1|..]
  {
    if src != [] && IsDigit(src[0]) then
      var k := DigitRun(src);
      if src[0] == 0x30 && k > 1 then None
      else Some((IntItem(DigitsValue(src[..k])), src[k..]))
    else
      match ParseStringLiteral(src, reader)
      case None => None
      case Some((id, rest)) => Some((StrItem(id), rest))
  }

  /** Tuple elements separated by `, `. */
  function ParseItems(src: seq<CodePoint>, reader: Major): (r: Option<(seq<Item>, seq<CodePoint>)>)
    decreases |src|
  {
    match ParseItem(src, reader)
    case None => None
    case Some((it, rest)) =>
      if |rest| >= 2 && rest[..2] == SEPARATOR then
        match ParseItems(rest[2..], reader)
        case None => None
        case Some((its, more)) => Some(([it] + its, more))
      else Some(([it], rest))
  }

  /**
    The second line, `ast.literal_eval` of the decoded line unpacked into
    five names: it must be a tuple of five elements.
   */
  function ParseVersionLine(line: seq<Byte>, reader: Major): (r: Result<seq<Item>, ParseError>)
    ensures r.Ok? ==> |r.value| == 5
  {
    match AsciiDecode(line)
    case None => Err(InvalidFile)
    case Some(t) =>
      if t == [] || t[0] != LPAREN then Err(InvalidFile)
      else
        match ParseItems(t[1..], reader)
        case None => Err(InvalidFile)
        case Some((items, rest)) =>
          if |rest| >= 1 && rest[0] == RPAREN && IsTrailingBlank(rest[1..]) && |items| == 5 then Ok(items)
          else Err(InvalidFile)
  }

  /** The writer's major version as the file states it; None when it is not an integer. */
  function FileMajor(items: seq<Item>): Option<int>
    requires |items| >= 1
  {
    if items[0].IntItem? then Some(items[0].n) else None
  }

  /** The position of the last `c` in `t`. */
  function LastIndexOf(t: seq<CodePoint>, c: CodePoint): (r: Option<nat>)
    ensures r.Some? ==> r.value < |t| && t[r.value] == c && forall i :: r.value < i < |t| ==> t[i] != c
    ensures r.None? ==> c !in t
    decreases |t|
  {
    if t == [] then None
    else if t[|t| - 1] == c then Some(|t| - 1)
    else LastIndexOf(t[..|t| - 1], c)
  }

  /** `FAIL`. */
  const FAIL: seq<CodePoint> := [0x46, 0x41, 0x49, 0x4C]

  /**
    One body line: split at the last colon, the part after it must strip to
    `FAIL` and the part before it must be a string literal.
   */
  function ParseEntry(line: seq<Byte>, reader: Major): Result<Id, ParseError>
  {
    match AsciiDecode(line)
    case None => Err(NotAscii)
    case Some(t) =>
      match LastIndexOf(t, COLON)
      case None => Err(InvalidFile)
      case Some(k) =>
        if Strip(t[k + 1..], reader) != FAIL then Err(InvalidFile)
        else
          match Unquote(t[..k], reader)
          case None => Err(BadLiteral)
          case Some(id) => Ok(id)
  }

  /** What `ParseEntry` gives for each body line. */
  function EntryResults(lines: seq<seq<Byte>>, reader: Major): (r: seq<Result<Id, ParseError>>)
    ensures |r| == |lines| && forall i :: 0 <= i < |lines| ==> r[i] == ParseEntry(lines[i], reader)
  {
    seq(|lines|, i requires 0 <= i < |lines| => ParseEntry(lines[i], reader))
  }

  /** The results in order, each id added with its alternate; the first error decides. */
  function Collect(results: seq<Result<Id, ParseError>>, reader: Major, fileMajor: Option<int>): Result<set<Id>, ParseError>
    decreases |results|
  {
    if results == [] then Ok({})
    else
      match Collect(results[..|results| - 1], reader, fileMajor)
      case Err(e) => Err(e)
      case Ok(s) =>
        match results[|results| - 1]
        case Err(e) => Err(e)
        case Ok(id) => Ok(s + WithAlternate(id, reader, fileMajor))
  }

  /** The body of the file. */
  function ParseEntries(lines: seq<seq<Byte>>, reader: Major, fileMajor: Option<int>): Result<set<Id>, ParseError>
  {
    Collect(EntryResults(lines, reader), reader, fileMajor)
  }

  /** The first error decides, whatever follows it. */
  lemma {:induction false} CollectStops(results: seq<Result<Id, ParseError>>, reader: Major, fileMajor: Option<int>, j: nat)
    requires j <= |results| && Collect(results[..j], reader, fileMajor).Err?
    ensures Collect(results, reader, fileMajor) == Collect(results[..j], reader, fileMajor)
    decreases |results| - j
  {
    if j < |results| {
      assert results[..j + 1][..j] == results[..j];
      CollectStops(results, reader, fileMajor, j + 1);
    } else {
      assert results[..j] == results;
    }
  }

  /** `_parse_file`: the header, then the version line, then the version check, then the body. */
  function ParseFile(data: seq<Byte>, reader: Major): Result<set<Id>, ParseError>
  {
    var lines := SplitLines(data);
    if lines == [] then Err(InvalidFile)
    else
      match ParseHeader(lines[0])
      case Err(e) => Err(e)
      case Ok(version) =>
        if |lines| < 2 then Err(InvalidFile)
        else
          match ParseVersionLine(lines[1], reader)
          case Err(e) => Err(e)
          case Ok(items) =>
            if version != 1 then Err(UnknownVersion)
            else ParseEntries(lines[2..], reader, FileMajor(items))
  }

  /** `_parse_file`, reading the body line by line into a set. */
  method ReadFile(data: seq<Byte>, reader: Major) returns (r: Result<set<Id>, ParseError>)
    ensures r == ParseFile(data, reader)
  {
    var lines := SplitLines(data);
    if lines == [] {
      return Err(InvalidFile);
    }
    var header := ParseHeader(lines[0]);
    if header.Err? {
      return Err(header.error);
    }
    if |lines| < 2 {
      return Err(InvalidFile);
    }
    var versionInfo := ParseVersionLine(lines[1], reader);
    if versionInfo.Err? {
      return Err(versionInfo.error);
    }
    if header.value != 1 {
      return Err(UnknownVersion);
    }
    r := ReadEntries(lines[2..], reader, FileMajor(versionInfo.value));
  }

  lemma CollectStep(results: seq<Result<Id, ParseError>>, reader: Major, fileMajor: Option<int>, i: nat)
    requires i < |results| && Collect(results[..i], reader, fileMajor).Ok?
    ensures results[i].Err? ==> Collect(results[..i + 1], reader, fileMajor) == Err(results[i].error)
    ensures results[i].Ok? ==>
      Collect(results[..i + 1], reader, fileMajor) ==
      Ok(Collect(results[..i], reader, fileMajor).value + WithAlternate(results[i].value, reader, fileMajor))
  {
    assert results[..i + 1][..i] == results[..i];
  }

  /** The body loop of `_parse_file`. */
  method ReadEntries(lines: seq<seq<Byte>>, reader: Major, major: Option<int>) returns (r: Result<set<Id>, ParseError>)
    ensures r == ParseEntries(lines, reader, major)
  {
    ghost var results := EntryResults(lines, reader);
    var fails: set<Id> := {};
    var i := 0;
    while i < |lines|
      invariant 0 <= i <= |lines|
      invariant Collect(results[..i], reader, major) == Ok(fails)
    {
      CollectStep(results, reader, major, i);
      var name := ParseEntry(lines[i], reader);
      assert results[i] == name;
      if name.Err? {
        CollectStops(results, reader, major, i + 1);
        return Err(name.error);
      }
      fails := AddWithAlternate(fails, name.value, reader, major);
      i := i + 1;
    }
    assert results[..i] == results;
    return Ok(fails);
  }

  // ---------------------------------------------------------------- writer

  datatype ReleaseLevel = Alpha | Beta | Candidate | Final

  /** `sys.version_info`. */
  datatype VersionInfo = VersionInfo(major: Major, minor: nat, micro: nat, releaselevel: ReleaseLevel, serial: nat)

  function LevelName(l: ReleaseLevel): seq<CodePoint>
  {
    match l
    case Alpha => Chars("alpha")
    case Beta => Chars("beta")
    case Candidate => Chars("candidate")
    case Final => Chars("final")
  }

  /** `releaselevel` is a `str`: bytes under Python 2, text under Python 3. */
  function LevelStyle(writer: Major): Style
  {
    if writer == PY2 then ByteRepr else Py3StrRepr
  }

  lemma LevelNameShape(l: ReleaseLevel)
    ensures forall i :: 0 <= i < |LevelName(l)| ==> 0x61 <= LevelName(l)[i] <= 0x7A
  {
  }

  /** The first line: the marker and format version 1. */
  function HeaderLine(): seq<CodePoint>
  {
    Latin1Decode(MAGIC) + [0x31, NEWLINE]
  }

  /** `repr(tuple(sys.version_info)) + "\n"`. */
  function VersionLine(vi: VersionInfo): seq<CodePoint>
  {
    LevelNameShape(vi.releaselevel);
    [LPAREN] + (ShowNat(MajorNumber(vi.major)) + (SEPARATOR +
    (ShowNat(vi.minor) + (SEPARATOR +
    (ShowNat(vi.micro) + (SEPARATOR +
    (Repr(LevelName(vi.releaselevel), LevelStyle(vi.major)) + (SEPARATOR +
    (ShowNat(vi.serial) + [RPAREN, NEWLINE])))))))))
  }

  /** `: FAIL` and a newline. */
  const ENTRY_TAIL: seq<CodePoint> := [COLON, 0x20] + FAIL + [NEWLINE]

  /** `"%s: FAIL\n" % r`, with `r` the prefixed literal. */
  function EntryLine(id: Id, writer: Major): seq<CodePoint>
  {
    Literal(id, writer) + ENTRY_TAIL
  }

  function EntryLines(listing: seq<Id>, writer: Major): (r: seq<seq<CodePoint>>)
    ensures |r| == |listing| && forall i :: 0 <= i < |listing| ==> r[i] == EntryLine(listing[i], writer)
  {
    seq(|listing|, i requires 0 <= i < |listing| => EntryLine(listing[i], writer))
  }

  /**
    The lines `_raw_make_file` yields. Under Python 2 they are `str` already
    and written as they are; they are ASCII there (LiteralShape), so the
    model encodes every line to ASCII under both regimes.
   */
  function RawLines(listing: seq<Id>, vi: VersionInfo): seq<seq<CodePoint>>
  {
    [HeaderLine(), VersionLine(vi)] + EntryLines(listing, vi.major)
  }

  /** What the file holds after writing `lines`, and whether every line could be encoded. */
  datatype WriteOutcome = WriteOutcome(written: seq<Byte>, complete: bool)

  /** `_make_file`: each line is encoded and written; the first that is not ASCII raises. */
  function EncodeLines(lines: seq<seq<CodePoint>>): WriteOutcome
    decreases |lines|
  {
    if lines == [] then WriteOutcome([], true)
    else
      var before := EncodeLines(lines[..|lines| - 1]);
      if !before.complete then before
      else
        match AsciiEncode(lines[|lines| - 1])
        case None => WriteOutcome(before.written, false)
        case Some(b) => WriteOutcome(before.written + b, true)
  }

  /** A set that mixes byte and text ids, which `sorted` refuses. */
  predicate Mixed(s: set<Id>)
  {
    exists x, y :: x in s && y in s && x.Bytes? && y.Text?
  }

  /**
    What writing `fails` leaves in the file. The generator yields the two
    header lines before it calls `sorted`, so a mixed set leaves those two
    lines and fails.
   */
  ghost function WriteFile(fails: set<Id>, vi: VersionInfo): WriteOutcome
  {
    if Mixed(fails) then WriteOutcome(EncodeLines([HeaderLine(), VersionLine(vi)]).written, false)
    else EncodeLines(RawLines(SortedListing(fails), vi))
  }

  /** The loop of `_make_file` over the lines it is given. */
  method WriteLines(lines: seq<seq<CodePoint>>) returns (written: seq<Byte>, complete: bool)
    ensures WriteOutcome(written, complete) == EncodeLines(lines)
  {
    written := [];
    var i := 0;
    while i < |lines|
      invariant 0 <= i <= |lines|
      invariant EncodeLines(lines[..i]) == WriteOutcome(written, true)
    {
      assert lines[..i + 1][..i] == lines[..i];
      var encoded := AsciiEncode(lines[i]);
      if encoded.None? {
        EncodeLinesStops(lines, i + 1);
        return written, false;
      }
      written := written + encoded.value;
      i := i + 1;
    }
    assert lines[..i] == lines;
    return written, true;
  }

  /** Once a line fails to encode, nothing after it is written. */
  lemma {:induction false} EncodeLinesStops(lines: seq<seq<CodePoint>>, j: nat)
    requires j <= |lines| && !EncodeLines(lines[..j]).complete
    ensures EncodeLines(lines) == EncodeLines(lines[..j])
    decreases |lines| - j
  {
    if j < |lines| {
      assert lines[..j + 1][..j] == lines[..j];
      EncodeLinesStops(lines, j + 1);
    } else {
      assert lines[..j] == lines;
    }
  }

  /** `_make_file(fp, fails)` on a freshly truncated file. */
  method MakeFile(fails: set<Id>, vi: VersionInfo) returns (written: seq<Byte>, complete: bool)
    ensures WriteOutcome(written, complete) == WriteFile(fails, vi)
  {
    var header := [HeaderLine(), VersionLine(vi)];
    if Mixed(fails) {
      written, complete := WriteLines(header);
      complete := false;
      return;
    }
    var listing := SortIds(fails);
    written, complete := WriteLines(header + EntryLines(listing, vi.major));
  }

  // ---------------------------------------------------------------- what the lines look like

  /** `IsAscii` stated over the members of a sequence, which concatenation keeps. */
  lemma AsciiMembers(s: seq<int>)
    ensures IsAscii(s) <==> forall c :: c in s ==> 0 <= c < 0x80
  {
    if forall c :: c in s ==> 0 <= c < 0x80 {
      forall i | 0 <= i < |s| ensures 0 <= s[i] < 0x80 {
        assert s[i] in s;
      }
    }
  }

  /** A line of text: a newline at its end and nowhere else. */
  predicate IsTextLine(t: seq<CodePoint>)
  {
    t != [] && t[|t| - 1] == NEWLINE && NEWLINE !in t[..|t| - 1]
  }

  lemma EncodedLine(t: seq<CodePoint>)
    requires IsAscii(t) && IsTextLine(t)
    ensures IsLine(AsciiEncode(t).value)
  {
    var b := AsciiEncode(t).value;
    forall i | 0 <= i < |b| - 1 ensures b[i] != NL {
      assert t[..|t| - 1][i] == t[i];
    }
  }

  lemma ShowNatShape(n: nat)
    ensures forall c :: c in ShowNat(n) ==> IsDigit(c)
  {
    ShowNatRoundTrip(n);
    var d := ShowNat(n);
    forall c | c in d ensures IsDigit(c) {
      var i :| 0 <= i < |d| && d[i] == c;
    }
  }

  lemma MagicShape()
    ensures IsAscii(MAGIC) && NL !in MAGIC
  {
  }

  lemma HeaderShape()
    ensures IsAscii(HeaderLine()) && IsTextLine(HeaderLine())
  {
    MagicShape();
    var t := HeaderLine();
    assert t[..|t| - 1] == Latin1Decode(MAGIC) + [0x31];
    assert forall i :: 0 <= i < |MAGIC| ==> t[i] == MAGIC[i];
  }

  /** ASCII text without a newline. */
  predicate PlainText(s: seq<CodePoint>)
  {
    forall c :: c in s ==> c < 0x80 && c != NEWLINE
  }

  /** A line of ASCII text. */
  predicate AsciiTextLine(t: seq<CodePoint>)
  {
    IsTextLine(t) && forall c :: c in t ==> c < 0x80
  }

  lemma LineAppend(a: seq<CodePoint>, b: seq<CodePoint>)
    requires PlainText(a) && AsciiTextLine(b)
    ensures AsciiTextLine(a + b)
  {
    assert (a + b)[..|a + b| - 1] == a + b[..|b| - 1];
  }

  /** An element and a separator in front of the rest of a tuple's line. */
  lemma SeparatedLine(a: seq<CodePoint>, b: seq<CodePoint>)
    requires PlainText(a) && AsciiTextLine(b)
    ensures AsciiTextLine(a + (SEPARATOR + b))
  {
    LineAppend(SEPARATOR, b);
    LineAppend(a, SEPARATOR + b);
  }

  lemma ShowNatPlain(n: nat)
    ensures PlainText(ShowNat(n))
  {
    ShowNatShape(n);
  }

  lemma LevelPlain(l: ReleaseLevel, writer: Major)
    ensures FitsStyle(LevelName(l), LevelStyle(writer))
    ensures PlainText(Repr(LevelName(l), LevelStyle(writer)))
  {
    LevelNameShape(l);
    var name := LevelName(l);
    var st := LevelStyle(writer);
    var q := QuoteFor(name);
    EscapeAllShape(name, q, st);
    AsciiMembers(name);
    AsciiMembers(EscapeAll(name, q, st));
  }

  /** The version line is ASCII and one line, whatever the version. */
  lemma VersionLineShape(vi: VersionInfo)
    ensures IsAscii(VersionLine(vi)) && IsTextLine(VersionLine(vi))
  {
    LevelPlain(vi.releaselevel, vi.major);
    ShowNatPlain(MajorNumber(vi.major));
    ShowNatPlain(vi.minor);
    ShowNatPlain(vi.micro);
    ShowNatPlain(vi.serial);
    var close := [RPAREN, NEWLINE];
    var t5 := ShowNat(vi.serial) + close;
    LineAppend(ShowNat(vi.serial), close);
    var t4 := Repr(LevelName(vi.releaselevel), LevelStyle(vi.major)) + (SEPARATOR + t5);
    SeparatedLine(Repr(LevelName(vi.releaselevel), LevelStyle(vi.major)), t5);
    var t3 := ShowNat(vi.micro) + (SEPARATOR + t4);
    SeparatedLine(ShowNat(vi.micro), t4);
    var t2 := ShowNat(vi.minor) + (SEPARATOR + t3);
    SeparatedLine(ShowNat(vi.minor), t3);
    var t1 := ShowNat(MajorNumber(vi.major)) + (SEPARATOR + t2);
    SeparatedLine(ShowNat(MajorNumber(vi.major)), t2);
    LineAppend([LPAREN], t1);
    assert VersionLine(vi) == [LPAREN] + t1;
    AsciiMembers(VersionLine(vi));
  }

  lemma EntryLineShape(id: Id, writer: Major)
    ensures IsTextLine(EntryLine(id, writer))
    ensures IsAscii(EntryLine(id, writer)) <==> !(writer == PY3 && id.Text? && !IsAscii(id.text))
  {
    LiteralShape(id, writer);
    var l := Literal(id, writer);
    var t := EntryLine(id, writer);
    assert t[..|t| - 1] == l + [COLON, 0x20] + FAIL;
    assert NEWLINE !in FAIL;
    assert IsTextLine(t);
    assert IsAscii(ENTRY_TAIL);
    assert forall i :: 0 <= i < |l| ==> t[i] == l[i];
    assert forall i :: 0 <= i < |ENTRY_TAIL| ==> t[|l| + i] == ENTRY_TAIL[i];
  }

  // ---------------------------------------------------------------- reading back each line

  lemma HeaderRoundTrip()
    ensures IsAscii(HeaderLine()) && ParseHeader(AsciiEncode(HeaderLine()).value) == Ok(1)
  {
    HeaderShape();
    var t := HeaderLine();
    var b := AsciiEncode(t).value;
    assert forall i :: 0 <= i < |MAGIC| ==> b[i] == t[i] == MAGIC[i];
    assert b[..|MAGIC|] == MAGIC;
    assert b[|MAGIC|..] == [0x31, NL];
    assert RStripBytes([0x31, NL]) == RStripBytes([0x31]) == [0x31];
    assert DigitsValue([0x31]) == 1 by {
      assert [0x31][..0] == [];
    }
  }

  lemma ParseItemNat(n: nat, rest: seq<CodePoint>, reader: Major)
    requires rest == [] || !IsDigit(rest[0])
    ensures ParseItem(ShowNat(n) + rest, reader) == Some((IntItem(n), rest))
  {
    var d := ShowNat(n);
    ShowNatRoundTrip(n);
    DigitRunOf(d, rest);
    var src := d + rest;
    assert src[..|d|] == d && src[|d|..] == rest;
    assert src[0] == d[0];
  }

  lemma ParseItemLevel(l: ReleaseLevel, writer: Major, reader: Major, rest: seq<CodePoint>)
    ensures FitsStyle(LevelName(l), LevelStyle(writer))
    ensures var r := ParseItem(Repr(LevelName(l), LevelStyle(writer)) + rest, reader);
      r.Some? && r.value.0.StrItem? && r.value.1 == rest
  {
    LevelNameShape(l);
    var name := LevelName(l);
    var st := LevelStyle(writer);
    var kind := DefaultKind(reader);
    ReprRoundTrip(name, st, kind, rest);
    var src := Repr(name, st) + rest;
    assert src[0] == QuoteFor(name);
  }

  lemma ParseItemsMore(src: seq<CodePoint>, reader: Major, it: Item, more: seq<CodePoint>)
    requires ParseItem(src, reader) == Some((it, SEPARATOR + more))
    requires ParseItems(more, reader).Some?
    ensures ParseItems(src, reader) == Some(([it] + ParseItems(more, reader).value.0, ParseItems(more, reader).value.1))
  {
    assert (SEPARATOR + more)[..2] == SEPARATOR;
    assert (SEPARATOR + more)[2..] == more;
  }

  /** An integer followed by `, ` and more elements. */
  lemma ParseItemsNat(n: nat, more: seq<CodePoint>, reader: Major)
    requires ParseItems(more, reader).Some?
    ensures ParseItems(ShowNat(n) + (SEPARATOR + more), reader) ==
      Some(([IntItem(n)] + ParseItems(more, reader).value.0, ParseItems(more, reader).value.1))
  {
    ParseItemNat(n, SEPARATOR + more, reader);
    ParseItemsMore(ShowNat(n) + (SEPARATOR + more), reader, IntItem(n), more);
  }

  /** The last two elements: the release level and the serial, then the closing parenthesis. */
  lemma ParseItemsTail(l: ReleaseLevel, writer: Major, serial: nat, reader: Major)
    ensures FitsStyle(LevelName(l), LevelStyle(writer))
    ensures var r := ParseItems(Repr(LevelName(l), LevelStyle(writer)) + (SEPARATOR + (ShowNat(serial) + [RPAREN, NEWLINE])), reader);
      r.Some? && |r.value.0| == 2 && r.value.1 == [RPAREN, NEWLINE]
  {
    LevelNameShape(l);
    var close := [RPAREN, NEWLINE];
    var t5 := ShowNat(serial) + close;
    ParseItemNat(serial, close, reader);
    assert close[..2] != SEPARATOR;
    assert ParseItems(t5, reader) == Some(([IntItem(serial)], close));
    var t4 := Repr(LevelName(l), LevelStyle(writer)) + (SEPARATOR + t5);
    ParseItemLevel(l, writer, reader, SEPARATOR + t5);
    ParseItemsMore(t4, reader, ParseItem(t4, reader).value.0, t5);
  }

  /** The elements of the version line, after its opening parenthesis. */
  lemma VersionItems(vi: VersionInfo, reader: Major)
    ensures VersionLine(vi) != [] && VersionLine(vi)[0] == LPAREN
    ensures var r := ParseItems(VersionLine(vi)[1..], reader);
      r.Some? && |r.value.0| == 5 && r.value.0[0] == IntItem(MajorNumber(vi.major)) && r.value.1 == [RPAREN, NEWLINE]
  {
    LevelNameShape(vi.releaselevel);
    var t := VersionLine(vi);
    var t4 := Repr(LevelName(vi.releaselevel), LevelStyle(vi.major)) + (SEPARATOR + (ShowNat(vi.serial) + [RPAREN, NEWLINE]));
    var t3 := ShowNat(vi.micro) + (SEPARATOR + t4);
    var t2 := ShowNat(vi.minor) + (SEPARATOR + t3);
    var t1 := ShowNat(MajorNumber(vi.major)) + (SEPARATOR + t2);
    assert t == [LPAREN] + t1;
    assert t[1..] == t1;
    ParseItemsTail(vi.releaselevel, vi.major, vi.serial, reader);
    ParseItemsNat(vi.micro, t4, reader);
    ParseItemsNat(vi.minor, t3, reader);
    ParseItemsNat(MajorNumber(vi.major), t2, reader);
  }

  /** The version line `repr` writes reads back as a five-element tuple naming the writer's major version. */
  lemma VersionLineRoundTrip(vi: VersionInfo, reader: Major)
    ensures IsAscii(VersionLine(vi))
    ensures var r := ParseVersionLine(AsciiEncode(VersionLine(vi)).value, reader);
      r.Ok? && FileMajor(r.value) == Some(MajorNumber(vi.major))
  {
    VersionLineShape(vi);
    var t := VersionLine(vi);
    AsciiDecodeEncode(t);
    VersionItems(vi, reader);
    var rest := ParseItems(t[1..], reader).value.1;
    assert rest[1..] == [NEWLINE];
    assert IsTrailingBlank(rest[1..]);
  }

  /** The writer's colon is the last one on its line. */
  lemma {:induction false} LastColon(lit: seq<CodePoint>, tail: seq<CodePoint>)
    requires COLON !in tail
    ensures LastIndexOf(lit + [COLON] + tail, COLON) == Some(|lit|)
    decreases |tail|
  {
    var t := lit + [COLON] + tail;
    if tail == [] {
      assert t[|t| - 1] == COLON;
    } else {
      var init := tail[..|tail| - 1];
      assert tail[|tail| - 1] in tail;
      assert t[|t| - 1] == tail[|tail| - 1];
      assert t[..|t| - 1] == lit + [COLON] + init;
      assert COLON !in init by {
        forall i | 0 <= i < |init| ensures init[i] != COLON {
          assert init[i] == tail[i];
          assert tail[i] in tail;
        }
      }
      LastColon(lit, init);
    }
  }

  lemma StripFail(reader: Major)
    ensures Strip([0x20] + FAIL + [NEWLINE], reader) == FAIL
  {
    var s := [0x20] + FAIL + [NEWLINE];
    assert s[1..] == FAIL + [NEWLINE];
    assert LStrip(s, reader) == LStrip(FAIL + [NEWLINE], reader) == FAIL + [NEWLINE];
    assert (FAIL + [NEWLINE])[..4] == FAIL;
    assert RStrip(FAIL + [NEWLINE], reader) == RStrip(FAIL, reader) == FAIL;
  }

  /** A line the writer emits for `id` reads back as `id`: the last colon is the one the writer put there. */
  lemma EntryRoundTrip(id: Id, writer: Major, reader: Major)
    requires IsAscii(EntryLine(id, writer))
    ensures ParseEntry(AsciiEncode(EntryLine(id, writer)).value, reader) == Ok(id)
  {
    var lit := Literal(id, writer);
    var t := EntryLine(id, writer);
    AsciiDecodeEncode(t);
    var tail := [0x20] + FAIL + [NEWLINE];
    assert t == lit + [COLON] + tail;
    LastColon(lit, tail);
    assert t[|lit| + 1..] == tail;
    StripFail(reader);
    assert t[..|lit|] == lit + [];
    UnquoteLiteral(id, writer, reader, []);
  }

  /** Blanks between a written literal and its colon, as an edited file may hold, still read as the id. */
  lemma BlankBeforeColon(id: Id, writer: Major, reader: Major, blanks: seq<CodePoint>)
    requires IsAscii(Literal(id, writer)) && IsTrailingBlank(blanks)
    ensures ParseEntry(AsciiEncode(Literal(id, writer) + blanks + ENTRY_TAIL).value, reader) == Ok(id)
  {
    var name := Literal(id, writer) + blanks;
    var tail := [0x20] + FAIL + [NEWLINE];
    assert Literal(id, writer) + blanks + ENTRY_TAIL == name + [COLON] + tail;
    assert IsAscii(name + [COLON] + tail) by {
      var t := name + [COLON] + tail;
      forall i | 0 <= i < |t| ensures 0 <= t[i] < 0x80 {
        if i < |Literal(id, writer)| {
          assert t[i] == Literal(id, writer)[i];
        } else if i < |name| {
          assert t[i] == blanks[i - |Literal(id, writer)|];
        }
      }
    }
    StripFail(reader);
    UnquoteLiteral(id, writer, reader, blanks);
    EntrySplitsAtLastColon(name, tail, reader);
  }

  /**
    A body line is split at its last colon, so the id part may itself hold
    colons; the part after it must strip to `FAIL` and the part before it
    must be a string literal.
   */
  lemma EntrySplitsAtLastColon(name: seq<CodePoint>, tail: seq<CodePoint>, reader: Major)
    requires IsAscii(name + [COLON] + tail) && COLON !in tail
    ensures var line := AsciiEncode(name + [COLON] + tail).value;
      (Strip(tail, reader) != FAIL ==> ParseEntry(line, reader) == Err(InvalidFile)) &&
      (Strip(tail, reader) == FAIL && Unquote(name, reader).None? ==> ParseEntry(line, reader) == Err(BadLiteral)) &&
      (Strip(tail, reader) == FAIL && Unquote(name, reader).Some? ==> ParseEntry(line, reader) == Ok(Unquote(name, reader).value))
  {
    var t := name + [COLON] + tail;
    AsciiDecodeEncode(t);
    LastColon(name, tail);
    assert t[|name| + 1..] == tail;
    assert t[..|name|] == name;
  }

  /** A body line that is not ASCII, or has no colon, is refused. */
  lemma EntryRejects(line: seq<Byte>, reader: Major)
    ensures !IsAscii(line) ==> ParseEntry(line, reader) == Err(NotAscii)
    ensures IsAscii(line) && COLON !in Latin1Decode(line) ==> ParseEntry(line, reader) == Err(InvalidFile)
  {
  }

  // ---------------------------------------------------------------- the reader

  /** The ids the results name, before any bridging. */
  ghost function StoredIds(results: seq<Result<Id, ParseError>>): set<Id>
  {
    set i | 0 <= i < |results| && results[i].Ok? :: results[i].value
  }

  lemma StoredIdsSnoc(results: seq<Result<Id, ParseError>>)
    requires results != [] && results[|results| - 1].Ok?
    ensures StoredIds(results) == StoredIds(results[..|results| - 1]) + {results[|results| - 1].value}
  {
    var n := |results| - 1;
    var init := results[..n];
    forall x | x in StoredIds(results) ensures x in StoredIds(init) + {results[n].value} {
      var i :| 0 <= i < |results| && results[i].Ok? && results[i].value == x;
      if i < n {
        assert init[i] == results[i];
      }
    }
    forall x | x in StoredIds(init) ensures x in StoredIds(results) {
      var i :| 0 <= i < |init| && init[i].Ok? && init[i].value == x;
      assert init[i] == results[i];
    }
  }

  /**
    The results collect without error exactly when none is an error, and
    the set collected is the ids named together with their alternates.
   */
  lemma {:induction false} CollectMeaning(results: seq<Result<Id, ParseError>>, reader: Major, fileMajor: Option<int>)
    ensures Collect(results, reader, fileMajor).Ok? <==> forall i :: 0 <= i < |results| ==> results[i].Ok?
    ensures Collect(results, reader, fileMajor).Ok? ==>
      Collect(results, reader, fileMajor).value == Expanded(StoredIds(results), reader, fileMajor)
  {
    CollectOk(results, reader, fileMajor);
    if forall i :: 0 <= i < |results| ==> results[i].Ok? {
      CollectValue(results, reader, fileMajor);
    }
  }

  lemma {:induction false} CollectOk(results: seq<Result<Id, ParseError>>, reader: Major, fileMajor: Option<int>)
    ensures Collect(results, reader, fileMajor).Ok? <==> forall i :: 0 <= i < |results| ==> results[i].Ok?
    decreases |results|
  {
    if results != [] {
      var n := |results| - 1;
      var init := results[..n];
      CollectOk(init, reader, fileMajor);
      assert forall i :: 0 <= i < n ==> init[i] == results[i];
      if Collect(init, reader, fileMajor).Err? {
        var i :| 0 <= i < n && init[i].Err?;
        assert results[i].Err?;
      }
    }
  }

  lemma {:induction false} CollectValue(results: seq<Result<Id, ParseError>>, reader: Major, fileMajor: Option<int>)
    requires forall i :: 0 <= i < |results| ==> results[i].Ok?
    ensures Collect(results, reader, fileMajor) == Ok(Expanded(StoredIds(results), reader, fileMajor))
    decreases |results|
  {
    if results == [] {
      assert StoredIds(results) == {};
      assert Expanded({}, reader, fileMajor) == {};
    } else {
      var n := |results| - 1;
      var init := results[..n];
      assert forall i :: 0 <= i < n ==> init[i] == results[i];
      CollectValue(init, reader, fileMajor);
      StoredIdsSnoc(results);
      ExpandedAdd(StoredIds(init), results[n].value, reader, fileMajor);
    }
  }

  /**
    A file reads without error exactly when it has a version-1 header, a
    five-element version line, and body lines that all read; what it reads
    is every stored id with its alternate, so no stored id is ever dropped.
   */
  lemma ParseFileMeaning(data: seq<Byte>, reader: Major)
    ensures var lines := SplitLines(data);
      ParseFile(data, reader).Ok? <==>
        |lines| >= 2 && ParseHeader(lines[0]) == Ok(1) && ParseVersionLine(lines[1], reader).Ok? &&
        forall i :: 2 <= i < |lines| ==> ParseEntry(lines[i], reader).Ok?
    ensures var lines := SplitLines(data);
      ParseFile(data, reader).Ok? ==>
        var stored := StoredIds(EntryResults(lines[2..], reader));
        ParseFile(data, reader).value == Expanded(stored, reader, FileMajor(ParseVersionLine(lines[1], reader).value)) &&
        stored <= ParseFile(data, reader).value
  {
    var lines := SplitLines(data);
    ParseFileHead(data, reader);
    if |lines| >= 2 && ParseHeader(lines[0]) == Ok(1) && ParseVersionLine(lines[1], reader).Ok? {
      var body := lines[2..];
      ParseFileParts(data, reader, body);
      var fm := FileMajor(ParseVersionLine(lines[1], reader).value);
      var results := EntryResults(body, reader);
      CollectMeaning(results, reader, fm);
      assert forall i :: 2 <= i < |lines| ==> results[i - 2] == ParseEntry(lines[i], reader);
    }
  }

  /** A file that reads has a version-1 marker line and a version line that reads. */
  lemma ParseFileHead(data: seq<Byte>, reader: Major)
    ensures var lines := SplitLines(data);
      ParseFile(data, reader).Ok? ==>
        |lines| >= 2 && ParseHeader(lines[0]) == Ok(1) && ParseVersionLine(lines[1], reader).Ok?
  {
  }

  // ---------------------------------------------------------------- the writer

  /** Results that are all Ok up to an error stop there, with that error. */
  lemma FirstError(results: seq<Result<Id, ParseError>>, reader: Major, fileMajor: Option<int>, i: nat)
    requires i < |results| && results[i].Err? && forall j :: 0 <= j < i ==> results[j].Ok?
    ensures Collect(results, reader, fileMajor) == Err(results[i].error)
  {
    var init := results[..i];
    assert forall j :: 0 <= j < i ==> init[j].Ok?;
    CollectMeaning(init, reader, fileMajor);
    assert results[..i + 1][..i] == init;
    CollectStops(results, reader, fileMajor, i + 1);
  }

  /**
    The errors the reader raises before the body: an empty file or a first
    line without the marker, a second line that is missing or not a
    five-element tuple, and a format version other than 1.
   */
  lemma ReaderRejects(data: seq<Byte>, reader: Major)
    ensures SplitLines(data) == [] ==> ParseFile(data, reader) == Err(InvalidFile)
    ensures var lines := SplitLines(data);
      lines != [] && !HasMagic(lines[0]) ==> ParseFile(data, reader) == Err(InvalidFile)
    ensures var lines := SplitLines(data);
      |lines| == 1 && ParseHeader(lines[0]).Ok? ==> ParseFile(data, reader) == Err(InvalidFile)
    ensures var lines := SplitLines(data);
      |lines| >= 2 && ParseHeader(lines[0]).Ok? && ParseVersionLine(lines[1], reader).Err? ==>
        ParseFile(data, reader) == Err(InvalidFile)
    ensures var lines := SplitLines(data);
      |lines| >= 2 && ParseHeader(lines[0]).Ok? && ParseHeader(lines[0]).value != 1 &&
      ParseVersionLine(lines[1], reader).Ok? ==>
        ParseFile(data, reader) == Err(UnknownVersion)
  {
  }

  /** Past a valid header, the first body line that does not read decides the error. */
  lemma BodyRejects(data: seq<Byte>, reader: Major, i: nat)
    requires 2 <= i < |SplitLines(data)|
    requires ParseHeader(SplitLines(data)[0]) == Ok(1) && ParseVersionLine(SplitLines(data)[1], reader).Ok?
    requires ParseEntry(SplitLines(data)[i], reader).Err?
    requires forall j :: 2 <= j < i ==> ParseEntry(SplitLines(data)[j], reader).Ok?
    ensures ParseFile(data, reader) == Err(ParseEntry(SplitLines(data)[i], reader).error)
  {
    var lines := SplitLines(data);
    var body := lines[2..];
    var fm := FileMajor(ParseVersionLine(lines[1], reader).value);
    ParseFileParts(data, reader, body);
    var results := EntryResults(body, reader);
    assert results[i - 2] == ParseEntry(lines[i], reader) by {
      assert body[i - 2] == lines[i];
    }
    forall j | 0 <= j < i - 2 ensures results[j].Ok? {
      assert body[j] == lines[j + 2];
    }
    FirstError(results, reader, fm, i - 2);
  }

  ghost function Encoded(lines: seq<seq<CodePoint>>): (r: seq<seq<Byte>>)
    requires forall i :: 0 <= i < |lines| ==> IsAscii(lines[i])
    ensures |r| == |lines|
  {
    seq(|lines|, i requires 0 <= i < |lines| => AsciiEncode(lines[i]).value)
  }

  /** Writing completes exactly when every line is ASCII, and then the file is the encoded lines in order. */
  lemma {:induction false} EncodeLinesMeaning(lines: seq<seq<CodePoint>>)
    ensures EncodeLines(lines).complete <==> AllAscii(lines)
    ensures EncodeLines(lines).complete ==> EncodeLines(lines).written == Concat(Encoded(lines))
    decreases |lines|
  {
    if lines != [] {
      var init := lines[..|lines| - 1];
      EncodeLinesMeaning(init);
      assert forall i :: 0 <= i < |init| ==> init[i] == lines[i];
      if EncodeLines(lines).complete {
        assert Encoded(lines)[..|lines| - 1] == Encoded(init);
      }
    }
  }

  predicate AllAscii(lines: seq<seq<CodePoint>>)
  {
    forall i :: 0 <= i < |lines| ==> IsAscii(lines[i])
  }

  lemma AllAsciiAppend(a: seq<seq<CodePoint>>, b: seq<seq<CodePoint>>)
    ensures AllAscii(a + b) <==> AllAscii(a) && AllAscii(b)
  {
    if AllAscii(a) && AllAscii(b) {
      forall i | 0 <= i < |a + b| ensures IsAscii((a + b)[i]) {
        if i >= |a| {
          assert (a + b)[i] == b[i - |a|];
        }
      }
    }
    if AllAscii(a + b) {
      forall i | 0 <= i < |a| ensures IsAscii(a[i]) {
        assert (a + b)[i] == a[i];
      }
      forall i | 0 <= i < |b| ensures IsAscii(b[i]) {
        assert (a + b)[|a| + i] == b[i];
      }
    }
  }

  lemma EntryLinesAllAscii(listing: seq<Id>, writer: Major)
    ensures AllAscii(EntryLines(listing, writer)) <==> forall id :: id in listing ==> IsAscii(EntryLine(id, writer))
  {
    var body := EntryLines(listing, writer);
    if AllAscii(body) {
      forall id | id in listing ensures IsAscii(EntryLine(id, writer)) {
        var i :| 0 <= i < |listing| && listing[i] == id;
        assert body[i] == EntryLine(id, writer);
      }
    }
  }

  /** Every line the writer yields is ASCII exactly when every entry line is. */
  lemma RawLinesAscii(listing: seq<Id>, vi: VersionInfo)
    ensures AllAscii(RawLines(listing, vi)) <==> forall id :: id in listing ==> IsAscii(EntryLine(id, vi.major))
  {
    var h := HeaderLine();
    var v := VersionLine(vi);
    HeaderShape();
    VersionLineShape(vi);
    assert AllAscii([h, v]);
    AllAsciiAppend([h, v], EntryLines(listing, vi.major));
    EntryLinesAllAscii(listing, vi.major);
  }

  /** Only a non-ASCII text id, written under Python 3, gives an entry line that is not ASCII. */
  lemma EntryLinesAscii(s: set<Id>, writer: Major)
    ensures (forall id :: id in s ==> IsAscii(EntryLine(id, writer))) <==>
      (writer == PY3 ==> forall id :: id in s && id.Text? ==> IsAscii(id.text))
  {
    forall id | id in s {
      EntryLineShape(id, writer);
    }
  }

  /** The writer completes exactly when the ids are all of one kind and, under Python 3, every text id is ASCII. */
  lemma WriteSucceeds(fails: set<Id>, vi: VersionInfo)
    ensures WriteFile(fails, vi).complete <==>
      !Mixed(fails) && (vi.major == PY3 ==> forall id :: id in fails && id.Text? ==> IsAscii(id.text))
  {
    if !Mixed(fails) {
      var listing := SortedListing(fails);
      EncodeLinesMeaning(RawLines(listing, vi));
      RawLinesAscii(listing, vi);
      EntryLinesAscii(fails, vi.major);
    }
  }

  lemma HeaderWritten(vi: VersionInfo)
    ensures HasMagic(EncodeLines([HeaderLine(), VersionLine(vi)]).written)
  {
    var h := HeaderLine();
    var v := VersionLine(vi);
    HeaderShape();
    VersionLineShape(vi);
    var one: seq<seq<CodePoint>> := [h];
    assert [h, v][..1] == one;
    assert one[..0] == [];
    var b := AsciiEncode(h).value;
    assert EncodeLines([h]) == WriteOutcome(b, true);
    assert EncodeLines([h, v]) == WriteOutcome(b + AsciiEncode(v).value, true);
    assert forall i :: 0 <= i < |MAGIC| ==> b[i] == h[i] == MAGIC[i];
  }

  /** Even a write that fails leaves the two header lines behind. */
  lemma HeaderAlwaysWritten(fails: set<Id>, vi: VersionInfo)
    ensures HasMagic(WriteFile(fails, vi).written)
  {
    var header := [HeaderLine(), VersionLine(vi)];
    var lines := if Mixed(fails) then header else RawLines(SortedListing(fails), vi);
    assert lines[..2] == header;
    HeaderWritten(vi);
    EncodeLinesPrefix(lines, 2);
    var w := EncodeLines(header).written;
    assert WriteFile(fails, vi).written[..|MAGIC|] == w[..|MAGIC|];
  }

  /** What is written for a prefix of the lines is a prefix of what is written for all of them. */
  lemma {:induction false} EncodeLinesPrefix(lines: seq<seq<CodePoint>>, j: nat)
    requires j <= |lines|
    ensures EncodeLines(lines[..j]).written <= EncodeLines(lines).written
    decreases |lines| - j
  {
    if j < |lines| {
      assert lines[..j + 1][..j] == lines[..j];
      EncodeLinesPrefix(lines, j + 1);
    } else {
      assert lines[..j] == lines;
    }
  }

  lemma EncodedAppend(a: seq<seq<CodePoint>>, b: seq<seq<CodePoint>>)
    requires AllAscii(a) && AllAscii(b)
    ensures AllAscii(a + b) && Encoded(a + b) == Encoded(a) + Encoded(b)
  {
    AllAsciiAppend(a, b);
  }

  lemma EntryLinesAreLines(listing: seq<Id>, writer: Major)
    requires AllAscii(EntryLines(listing, writer))
    ensures AllLines(Encoded(EntryLines(listing, writer)))
  {
    var body := EntryLines(listing, writer);
    forall i | 0 <= i < |listing| ensures IsLine(Encoded(body)[i]) {
      EntryLineShape(listing[i], writer);
      EncodedLine(body[i]);
    }
  }

  lemma AllLinesAppend(a: seq<seq<Byte>>, b: seq<seq<Byte>>)
    requires AllLines(a) && AllLines(b)
    ensures AllLines(a + b)
  {
    forall i | 0 <= i < |a + b| ensures IsLine((a + b)[i]) {
      if i >= |a| {
        assert (a + b)[i] == b[i - |a|];
      }
    }
  }

  lemma HeaderLinesAreLines(vi: VersionInfo)
    ensures AllAscii([HeaderLine(), VersionLine(vi)])
    ensures AllLines(Encoded([HeaderLine(), VersionLine(vi)]))
  {
    HeaderShape();
    VersionLineShape(vi);
    EncodedLine(HeaderLine());
    EncodedLine(VersionLine(vi));
  }

  /** Each line the writer yields is one line of the file. */
  lemma RawLinesAreLines(listing: seq<Id>, vi: VersionInfo)
    requires AllAscii(RawLines(listing, vi))
    ensures AllLines(Encoded(RawLines(listing, vi)))
  {
    var header := [HeaderLine(), VersionLine(vi)];
    var body := EntryLines(listing, vi.major);
    AllAsciiAppend(header, body);
    EncodedAppend(header, body);
    HeaderLinesAreLines(vi);
    EntryLinesAreLines(listing, vi.major);
    AllLinesAppend(Encoded(header), Encoded(body));
  }

  /** The lines of a complete write are the encoded lines the writer yielded. */
  lemma WrittenLines(fails: set<Id>, vi: VersionInfo)
    requires WriteFile(fails, vi).complete
    ensures !Mixed(fails) && AllAscii(RawLines(SortedListing(fails), vi))
    ensures SplitLines(WriteFile(fails, vi).written) == Encoded(RawLines(SortedListing(fails), vi))
  {
    var raw := RawLines(SortedListing(fails), vi);
    EncodeLinesMeaning(raw);
    RawLinesAreLines(SortedListing(fails), vi);
    SplitConcat(Encoded(raw));
  }

  /** The entry lines of `listing`, read back, give the ids of `listing` with their alternates. */
  lemma EntriesReadBack(listing: seq<Id>, writer: Major, reader: Major, fileMajor: Option<int>)
    requires AllAscii(EntryLines(listing, writer))
    ensures ParseEntries(Encoded(EntryLines(listing, writer)), reader, fileMajor) ==
      Ok(Expanded((set id | id in listing), reader, fileMajor))
  {
    var body := Encoded(EntryLines(listing, writer));
    var results := EntryResults(body, reader);
    forall i | 0 <= i < |listing| ensures results[i] == Ok(listing[i]) {
      EntryRoundTrip(listing[i], writer, reader);
    }
    CollectMeaning(results, reader, fileMajor);
    assert StoredIds(results) == (set id | id in listing) by {
      forall id | id in listing ensures id in StoredIds(results) {
        var i :| 0 <= i < |listing| && listing[i] == id;
        assert results[i] == Ok(id);
      }
    }
  }

  /** A file whose first two lines read is read by its body. */
  lemma ParseFileParts(data: seq<Byte>, reader: Major, body: seq<seq<Byte>>)
    requires |SplitLines(data)| >= 2 && SplitLines(data)[2..] == body
    requires ParseHeader(SplitLines(data)[0]) == Ok(1)
    requires ParseVersionLine(SplitLines(data)[1], reader).Ok?
    ensures ParseFile(data, reader) == ParseEntries(body, reader, FileMajor(ParseVersionLine(SplitLines(data)[1], reader).value))
  {
  }

  /** The lines the writer yields for `listing`, once written, read back as its ids with their alternates. */
  lemma RawLinesReadBack(listing: seq<Id>, vi: VersionInfo, reader: Major)
    requires AllAscii(RawLines(listing, vi))
    ensures ParseFile(Concat(Encoded(RawLines(listing, vi))), reader) ==
      Ok(Expanded((set id | id in listing), reader, Some(MajorNumber(vi.major))))
  {
    var header := [HeaderLine(), VersionLine(vi)];
    var body := EntryLines(listing, vi.major);
    AllAsciiAppend(header, body);
    EncodedAppend(header, body);
    RawLinesAreLines(listing, vi);
    var data := Concat(Encoded(RawLines(listing, vi)));
    SplitConcat(Encoded(RawLines(listing, vi)));
    var lines := SplitLines(data);
    assert lines == Encoded(header) + Encoded(body);
    HeaderRoundTrip();
    VersionLineRoundTrip(vi, reader);
    assert lines[0] == AsciiEncode(HeaderLine()).value;
    assert lines[1] == AsciiEncode(VersionLine(vi)).value;
    assert lines[2..] == Encoded(body);
    ParseFileParts(data, reader, Encoded(body));
    EntriesReadBack(listing, vi.major, reader, Some(MajorNumber(vi.major)));
  }

  lemma ListingSet(s: set<Id>)
    ensures (set id | id in SortedListing(s)) == s
  {
  }

  /**
    `_make_file` then `_parse_file`: a complete write reads back as every
    id it held, plus the alternates the bridging adds when the regimes differ.
   */
  lemma RoundTrip(fails: set<Id>, vi: VersionInfo, reader: Major)
    requires WriteFile(fails, vi).complete
    ensures ParseFile(WriteFile(fails, vi).written, reader) == Ok(Expanded(fails, reader, Some(MajorNumber(vi.major))))
  {
    WrittenLines(fails, vi);
    var listing := SortedListing(fails);
    var raw := RawLines(listing, vi);
    EncodeLinesMeaning(raw);
    assert WriteFile(fails, vi).written == Concat(Encoded(raw));
    RawLinesReadBack(listing, vi, reader);
    ListingSet(fails);
  }

  /** A write that fails stopped at a line that is not ASCII, having written every line before it. */
  lemma {:induction false} EncodeLinesStopsAt(lines: seq<seq<CodePoint>>) returns (j: nat)
    requires !EncodeLines(lines).complete
    ensures j < |lines| && AllAscii(lines[..j]) && !IsAscii(lines[j])
    ensures EncodeLines(lines).written == Concat(Encoded(lines[..j]))
    decreases |lines|
  {
    var n := |lines| - 1;
    var init := lines[..n];
    assert forall i :: 0 <= i < n ==> init[i] == lines[i];
    if !EncodeLines(init).complete {
      j := EncodeLinesStopsAt(init);
      assert init[..j] == lines[..j];
    } else {
      j := n;
      EncodeLinesMeaning(init);
    }
  }

  lemma EntryLinesPrefix(listing: seq<Id>, vi: VersionInfo, j: nat)
    requires 2 <= j <= |RawLines(listing, vi)|
    ensures RawLines(listing, vi)[..j] == RawLines(listing[..j - 2], vi)
  {
  }

  /**
    A write that fails leaves a file that still reads without error, as a
    subset of the ids: the header lines and the entries sorted before the
    first one that could not be encoded.
   */
  lemma PartialWriteReadsSubset(fails: set<Id>, vi: VersionInfo)
    requires !WriteFile(fails, vi).complete
    ensures ParseFile(WriteFile(fails, vi).written, vi.major).Ok?
    ensures ParseFile(WriteFile(fails, vi).written, vi.major).value <= fails
  {
    var prefix := PartialWritePrefix(fails, vi);
    RawLinesReadBack(prefix, vi, vi.major);
    NoAlternateInSameRegime((set id | id in prefix), vi.major);
  }

  /** What a failed write leaves: the writer's lines for a prefix of the ids, all of them ASCII. */
  lemma PartialWritePrefix(fails: set<Id>, vi: VersionInfo) returns (prefix: seq<Id>)
    requires !WriteFile(fails, vi).complete
    ensures AllAscii(RawLines(prefix, vi))
    ensures WriteFile(fails, vi).written == Concat(Encoded(RawLines(prefix, vi)))
    ensures (set id | id in prefix) <= fails
  {
    HeaderLinesAreLines(vi);
    if Mixed(fails) {
      prefix := [];
      EncodeLinesMeaning([HeaderLine(), VersionLine(vi)]);
      assert RawLines([], vi) == [HeaderLine(), VersionLine(vi)];
    } else {
      prefix := ListingWritePrefix(SortedListing(fails), vi);
      assert SortedListing(fails) == if Mixed(fails) then [] else SortedListing(fails);
      ListingSet(fails);
    }
  }

  /** A failed write of the lines for `listing` stops inside the entries, after those of a prefix of `listing`. */
  lemma ListingWritePrefix(listing: seq<Id>, vi: VersionInfo) returns (prefix: seq<Id>)
    requires !EncodeLines(RawLines(listing, vi)).complete
    requires AllAscii([HeaderLine(), VersionLine(vi)])
    ensures AllAscii(RawLines(prefix, vi))
    ensures EncodeLines(RawLines(listing, vi)).written == Concat(Encoded(RawLines(prefix, vi)))
    ensures prefix <= listing
  {
    var raw := RawLines(listing, vi);
    var j := EncodeLinesStopsAt(raw);
    assert j >= 2 by {
      assert raw[0] == HeaderLine() && raw[1] == VersionLine(vi);
    }
    EntryLinesPrefix(listing, vi, j);
    prefix := listing[..j - 2];
  }

  /** Written and read under the same major version, the file gives back exactly the set written. */
  lemma SameRegimeRoundTrip(fails: set<Id>, vi: VersionInfo)
    requires WriteFile(fails, vi).complete
    ensures ParseFile(WriteFile(fails, vi).written, vi.major) == Ok(fails)
  {
    RoundTrip(fails, vi, vi.major);
    NoAlternateInSameRegime(fails, vi.major);
  }

  /**
    The layout of a complete write: the marker line with format version 1,
    the version line, then one `<literal>: FAIL` line per id, in increasing
    order, each literal prefixed `b` for a byte id and `u` for a text id.
   */
  lemma WriterLayout(fails: set<Id>, vi: VersionInfo)
    requires WriteFile(fails, vi).complete
    ensures var lines := SplitLines(WriteFile(fails, vi).written);
      var listing := SortedListing(fails);
      StrictlySorted(listing) && Lists(listing, fails) && |lines| == |listing| + 2 &&
      lines[0] == MAGIC + [0x31, NL] &&
      AsciiDecode(lines[1]) == Some(VersionLine(vi)) &&
      forall i :: 2 <= i < |lines| ==>
        AsciiDecode(lines[i]) == Some(Literal(listing[i - 2], vi.major) + ENTRY_TAIL) &&
        Literal(listing[i - 2], vi.major)[0] == (if listing[i - 2].Bytes? then Ch('b') else Ch('u'))
  {
    WrittenLines(fails, vi);
    LinesLayout(SortedListing(fails), vi);
  }

  /** The layout of the lines the writer yields for `listing`, once encoded. */
  lemma LinesLayout(listing: seq<Id>, vi: VersionInfo)
    requires AllAscii(RawLines(listing, vi))
    ensures var lines := Encoded(RawLines(listing, vi));
      |lines| == |listing| + 2 &&
      lines[0] == MAGIC + [0x31, NL] &&
      AsciiDecode(lines[1]) == Some(VersionLine(vi)) &&
      forall i :: 2 <= i < |lines| ==>
        AsciiDecode(lines[i]) == Some(Literal(listing[i - 2], vi.major) + ENTRY_TAIL) &&
        Literal(listing[i - 2], vi.major)[0] == (if listing[i - 2].Bytes? then Ch('b') else Ch('u'))
  {
    var raw := RawLines(listing, vi);
    DecodedLines(raw);
    HeaderBytes();
    assert raw[0] == HeaderLine() && raw[1] == VersionLine(vi);
    EntriesLayout(listing, vi.major, raw);
  }

  lemma EntriesLayout(listing: seq<Id>, writer: Major, raw: seq<seq<CodePoint>>)
    requires |raw| == |listing| + 2 && raw[2..] == EntryLines(listing, writer)
    ensures forall i :: 2 <= i < |raw| ==>
      raw[i] == Literal(listing[i - 2], writer) + ENTRY_TAIL &&
      Literal(listing[i - 2], writer)[0] == (if listing[i - 2].Bytes? then Ch('b') else Ch('u'))
  {
    forall i | 2 <= i < |raw|
      ensures raw[i] == Literal(listing[i - 2], writer) + ENTRY_TAIL
      ensures Literal(listing[i - 2], writer)[0] == (if listing[i - 2].Bytes? then Ch('b') else Ch('u'))
    {
      assert raw[i] == raw[2..][i - 2];
      LiteralPrefix(listing[i - 2], writer);
    }
  }

  /** The encoded lines decode back to the lines. */
  lemma DecodedLines(raw: seq<seq<CodePoint>>)
    requires AllAscii(raw)
    ensures forall i :: 0 <= i < |raw| ==> AsciiDecode(Encoded(raw)[i]) == Some(raw[i])
  {
    forall i | 0 <= i < |raw| ensures AsciiDecode(Encoded(raw)[i]) == Some(raw[i]) {
      AsciiDecodeEncode(raw[i]);
    }
  }

  lemma HeaderBytes()
    ensures IsAscii(HeaderLine()) && AsciiEncode(HeaderLine()).value == MAGIC + [0x31, NL]
  {
    HeaderShape();
    var b := AsciiEncode(HeaderLine()).value;
    assert forall i :: 0 <= i < |MAGIC| ==> b[i] == MAGIC[i];
  }
}
