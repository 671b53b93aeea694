/**
  The part of Python's `repr` and `ast.literal_eval` that the expectation
  file uses: quoted string literals with a `b` or `u` prefix, and decimal
  integers.
 */
module Literals {
  import opened Wrappers
  import opened Ids

  const BACKSLASH: CodePoint := 0x5C
  const SQUOTE: CodePoint := 0x27
  const DQUOTE: CodePoint := 0x22
  const TAB: CodePoint := 0x09
  const NEWLINE: CodePoint := 0x0A
  const CR: CodePoint := 0x0D
  const NUL: CodePoint := 0x00

  /** The code point of a character written in this model's own text. */
  function Ch(c: char): CodePoint
  {
    c as int
  }

  /** The code points of a string written in this model's own text. */
  function Chars(s: string): seq<CodePoint>
  {
    seq(|s|, i requires 0 <= i < |s| => s[i] as int)
  }

  /** The bytes of a string written in this model's own text. */
  function ByteString(s: string): seq<Byte>
    requires forall i :: 0 <= i < |s| ==> s[i] as int < 0x100
  {
    seq(|s|, i requires 0 <= i < |s| => s[i] as int)
  }

  predicate IsAscii(s: seq<int>)
  {
    forall i :: 0 <= i < |s| ==> 0 <= s[i] < 0x80
  }

  // ---------------------------------------------------------------- hex digits

  function Pow16(n: nat): nat
  {
    if n == 0 then 1 else 16 * Pow16(n - 1)
  }

  lemma Pow16Values()
    ensures Pow16(2) == 0x100 && Pow16(4) == 0x1_0000 && Pow16(8) == 0x1_0000_0000
  {
    assert Pow16(1) == 16;
    assert Pow16(2) == 0x100;
    assert Pow16(3) == 0x1000;
    assert Pow16(4) == 0x1_0000;
    assert Pow16(5) == 0x10_0000;
    assert Pow16(6) == 0x100_0000;
    assert Pow16(7) == 0x1000_0000;
  }

  /** A lower-case hex digit, as `repr` writes it. */
  function HexDigit(d: nat): CodePoint
    requires d < 16
  {
    if d < 10 then 0x30 + d else 0x61 + (d - 10)
  }

  /** `v` written with exactly `n` hex digits, most significant first. */
  function Hex(v: nat, n: nat): (r: seq<CodePoint>)
    requires v < Pow16(n)
    ensures |r| == n
  {
    if n == 0 then [] else Hex(v / 16, n - 1) + [HexDigit(v % 16)]
  }

  /** The value of a hex digit of either case. */
  function HexValue(c: int): Option<nat>
  {
    if 0x30 <= c <= 0x39 then Some(c - 0x30)
    else if 0x61 <= c <= 0x66 then Some(c - 0x61 + 10)
    else if 0x41 <= c <= 0x46 then Some(c - 0x41 + 10)
    else None
  }

  /** The value of a run of hex digits; None if one of them is not a hex digit. */
  function HexNumber(s: seq<int>): (r: Option<nat>)
    ensures r.Some? ==> r.value < Pow16(|s|)
    decreases |s|
  {
    if s == [] then Some(0)
    else
      match HexNumber(s[..|s| - 1])
      case None => None
      case Some(hi) =>
        match HexValue(s[|s| - 1])
        case None => None
        case Some(d) => Some(hi * 16 + d)
  }

  lemma {:induction false} HexRoundTrip(v: nat, n: nat)
    requires v < Pow16(n)
    ensures HexNumber(Hex(v, n)) == Some(v)
    decreases n
  {
    if n > 0 {
      var h := Hex(v, n);
      assert h[..n - 1] == Hex(v / 16, n - 1);
      HexRoundTrip(v / 16, n - 1);
      assert HexValue(h[n - 1]) == Some(v % 16);
    }
  }

  // ---------------------------------------------------------------- repr

  /** Which `repr` wrote a literal: of a byte string, of a Python 3 `str`, or of a Python 2 `unicode`. */
  datatype Style = ByteRepr | Py3StrRepr | Py2UnicodeRepr

  /** The style of `repr` for a text id under each regime. */
  function TextStyle(writer: Major): Style
  {
    if writer == PY2 then Py2UnicodeRepr else Py3StrRepr
  }

  /** `\xhh`. */
  function XEscape(c: nat): seq<CodePoint>
    requires c < 0x100
  {
    Pow16Values();
    [BACKSLASH, Ch('x')] + Hex(c, 2)
  }

  /**
    How `repr` writes one character `c` inside quotes `q`. Python 3 keeps
    every non-ASCII character of a `str` as it is (this model takes them all
    to be printable); a byte string escapes everything outside 0x20..0x7E;
    Python 2 `unicode` uses `\x`, `\u` or `\U` by size.
   */
  function EscapeChar(c: CodePoint, q: CodePoint, st: Style): seq<CodePoint>
    requires st == ByteRepr ==> c < 0x100
  {
    Pow16Values();
    if c == BACKSLASH then [BACKSLASH, BACKSLASH]
    else if c == q then [BACKSLASH, q]
    else if c == TAB then [BACKSLASH, Ch('t')]
    else if c == NEWLINE then [BACKSLASH, Ch('n')]
    else if c == CR then [BACKSLASH, Ch('r')]
    else if c < 0x20 || c == 0x7F then XEscape(c)
    else if c < 0x7F then [c]
    else
      match st
      case ByteRepr => XEscape(c)
      case Py3StrRepr => [c]
      case Py2UnicodeRepr =>
        if c < 0x100 then XEscape(c)
        else if c < 0x1_0000 then [BACKSLASH, Ch('u')] + Hex(c, 4)
        else [BACKSLASH, Ch('U')] + Hex(c, 8)
  }

  predicate FitsStyle(s: seq<CodePoint>, st: Style)
  {
    st == ByteRepr ==> forall i :: 0 <= i < |s| ==> s[i] < 0x100
  }

  function EscapeAll(s: seq<CodePoint>, q: CodePoint, st: Style): seq<CodePoint>
    requires FitsStyle(s, st)
    decreases |s|
  {
    if s == [] then [] else EscapeChar(s[0], q, st) + EscapeAll(s[1..], q, st)
  }

  /** `repr` uses double quotes only for a string holding a single quote and no double quote. */
  function QuoteFor(s: seq<CodePoint>): CodePoint
  {
    if SQUOTE in s && DQUOTE !in s then DQUOTE else SQUOTE
  }

  /** `repr` of a string without its prefix. */
  function Repr(s: seq<CodePoint>, st: Style): seq<CodePoint>
    requires FitsStyle(s, st)
  {
    var q := QuoteFor(s);
    [q] + EscapeAll(s, q, st) + [q]
  }

  /**
    The literal the writer puts on an id's line: a byte id always gets a
    `b` prefix, a text id a `u` prefix, under either regime.
   */
  function Literal(id: Id, writer: Major): seq<CodePoint>
  {
    match id
    case Bytes(b) => [Ch('b')] + Repr(b, ByteRepr)
    case Text(t) => [Ch('u')] + Repr(t, TextStyle(writer))
  }

  /** The literal's first character tags the id's kind. */
  lemma LiteralPrefix(id: Id, writer: Major)
    ensures |Literal(id, writer)| >= 3
    ensures Literal(id, writer)[0] == (if id.Bytes? then Ch('b') else Ch('u'))
  {
  }

  // ---------------------------------------------------------------- literal_eval

  /** What a string literal evaluates to: a byte string or a text string. */
  datatype Kind = ByteKind | TextKind

  /** Reads `n` hex digits after the escape letter at `src[0]`. */
  function HexEscape(src: seq<CodePoint>, n: nat): (r: Option<(CodePoint, nat)>)
    requires src != []
    ensures r.Some? ==> r.value.1 == n + 1 <= |src| && r.value.0 < Pow16(n)
  {
    if |src| < n + 1 then None
    else
      match HexNumber(src[1..n + 1])
      case None => None
      case Some(v) => if v < 0x11_0000 then Some((v, n + 1)) else None
  }

  /**
    One escape sequence; `src` starts just after the backslash. Gives the
    value and how many characters were read. `\u` and `\U` are escapes only
    in a text literal.
   */
  function ParseEscape(src: seq<CodePoint>, kind: Kind): (r: Option<(CodePoint, nat)>)
    ensures r.Some? ==> 1 <= r.value.1 <= |src|
    ensures r.Some? && kind == ByteKind ==> r.value.0 < 0x100
  {
    Pow16Values();
    if src == [] then None
    else if src[0] == BACKSLASH then Some((BACKSLASH, 1))
    else if src[0] == SQUOTE then Some((SQUOTE, 1))
    else if src[0] == DQUOTE then Some((DQUOTE, 1))
    else if src[0] == Ch('t') then Some((TAB, 1))
    else if src[0] == Ch('n') then Some((NEWLINE, 1))
    else if src[0] == Ch('r') then Some((CR, 1))
    else if src[0] == Ch('x') then HexEscape(src, 2)
    else if src[0] == Ch('u') && kind == TextKind then HexEscape(src, 4)
    else if src[0] == Ch('U') && kind == TextKind then HexEscape(src, 8)
    else None
  }

  /**
    The body of a literal up to its closing quote `q`: the values it stands
    for and what follows the closing quote. A raw LF or CR ends the line
    inside the quotes and a raw NUL is refused by `compile`, so none of them
    may appear unescaped.
   */
  function ParseQuoted(src: seq<CodePoint>, q: CodePoint, kind: Kind): (r: Option<(seq<CodePoint>, seq<CodePoint>)>)
    ensures r.Some? ==> |r.value.1| < |src| && r.value.1 == src[|src| - |r.value.1|..]
    ensures r.Some? && kind == ByteKind ==> forall i :: 0 <= i < |r.value.0| ==> r.value.0[i] < 0x100
    decreases |src|
  {
    if src == [] then None
    else if src[0] == q then Some(([], src[1..]))
    else if src[0] == NEWLINE || src[0] == CR || src[0] == NUL then None
    else if src[0] == BACKSLASH then
      match ParseEscape(src[1..], kind)
      case None => None
      case Some((v, n)) =>
        match ParseQuoted(src[1 + n..], q, kind)
        case None => None
        case Some((vs, rest)) => Some(([v] + vs, rest))
    else if kind == ByteKind && src[0] >= 0x80 then None
    else
      match ParseQuoted(src[1..], q, kind)
      case None => None
      case Some((vs, rest)) => Some(([src[0]] + vs, rest))
  }

  /** An unprefixed literal is text under Python 3 and bytes under Python 2. */
  function DefaultKind(reader: Major): Kind
  {
    if reader == PY3 then TextKind else ByteKind
  }

  function MakeId(kind: Kind, vs: seq<CodePoint>): Id
    requires kind == ByteKind ==> forall i :: 0 <= i < |vs| ==> vs[i] < 0x100
  {
    if kind == ByteKind then Bytes(seq(|vs|, i requires 0 <= i < |vs| => vs[i] as Byte)) else Text(vs)
  }

  /** A string literal at the start of `src` and what follows it. */
  function ParseStringLiteral(src: seq<CodePoint>, reader: Major): (r: Option<(Id, seq<CodePoint>)>)
    ensures r.Some? ==> |r.value.1| < |src| && r.value.1 == src[|src| - |r.value.1|..]
  {
    var kind :=
      if src != [] && (src[0] == Ch('b') || src[0] == Ch('B')) then ByteKind
      else if src != [] && (src[0] == Ch('u') || src[0] == Ch('U')) then TextKind
      else DefaultKind(reader);
    var body :=
      if src != [] && src[0] in {Ch('b'), Ch('B'), Ch('u'), Ch('U')} then src[1..] else src;
    if body == [] || (body[0] != SQUOTE && body[0] != DQUOTE) then None
    else
      match ParseQuoted(body[1..], body[0], kind)
      case None => None
      case Some((vs, rest)) => Some((MakeId(kind, vs), rest))
  }

  /**
    What the tokenizer skips at the end of an expression: spaces, tabs,
    form feeds, and the line end, CR LF included.
   */
  predicate IsTrailingBlank(w: seq<CodePoint>)
  {
    forall i :: 0 <= i < |w| ==> w[i] == 0x20 || w[i] == TAB || w[i] == 0x0C || w[i] == CR || w[i] == NEWLINE
  }

  /** `ast.literal_eval` of a source that must be one string literal, followed by blanks at most. */
  function Unquote(src: seq<CodePoint>, reader: Major): Option<Id>
  {
    match ParseStringLiteral(src, reader)
    case None => None
    case Some((id, rest)) => if IsTrailingBlank(rest) then Some(id) else None
  }

  // ---------------------------------------------------------------- round trip

  /** `kind` reads back what style `st` writes for `c`. */
  predicate Reads(kind: Kind, st: Style, c: CodePoint)
  {
    kind == TextKind || st == ByteRepr || c < 0x80
  }

  function Prepend(c: CodePoint, r: Option<(seq<CodePoint>, seq<CodePoint>)>): Option<(seq<CodePoint>, seq<CodePoint>)>
  {
    match r
    case None => None
    case Some((vs, rest)) => Some(([c] + vs, rest))
  }

  lemma XEscapeParses(c: nat, q: CodePoint, kind: Kind, rest: seq<CodePoint>)
    requires c < 0x100
    requires q == SQUOTE || q == DQUOTE
    ensures ParseQuoted(XEscape(c) + rest, q, kind) == Prepend(c, ParseQuoted(rest, q, kind))
  {
    Pow16Values();
    var h := Hex(c, 2);
    var src := XEscape(c) + rest;
    assert src == [BACKSLASH, Ch('x')] + h + rest;
    assert src[0] == BACKSLASH && src[1] == Ch('x');
    assert |h| == 2;
    assert src[2..4] == h;
    assert src[1..][1..3] == src[2..4];
    HexRoundTrip(c, 2);
    assert HexEscape(src[1..], 2) == Some((c, 3));
    assert ParseEscape(src[1..], kind) == Some((c, 3));
    assert src[1 + 3..] == rest;
  }

  lemma WideEscapeParses(c: CodePoint, n: nat, letter: CodePoint, q: CodePoint, rest: seq<CodePoint>)
    requires (n == 4 && letter == Ch('u')) || (n == 8 && letter == Ch('U'))
    requires c < Pow16(n)
    requires q == SQUOTE || q == DQUOTE
    ensures ParseQuoted([BACKSLASH, letter] + Hex(c, n) + rest, q, TextKind) == Prepend(c, ParseQuoted(rest, q, TextKind))
  {
    Pow16Values();
    var h := Hex(c, n);
    var src := [BACKSLASH, letter] + h + rest;
    assert src[0] == BACKSLASH && src[1] == letter;
    assert |h| == n;
    assert src[2..n + 2] == h;
    assert src[1..][1..n + 1] == src[2..n + 2];
    HexRoundTrip(c, n);
    assert HexEscape(src[1..], n) == Some((c, n + 1));
    assert ParseEscape(src[1..], TextKind) == Some((c, n + 1));
    assert src[1 + (n + 1)..] == rest;
  }

  lemma TwoCharParses(e: seq<CodePoint>, c: CodePoint, q: CodePoint, kind: Kind, rest: seq<CodePoint>)
    requires q == SQUOTE || q == DQUOTE
    requires |e| == 2 && e[0] == BACKSLASH && ParseEscape([e[1]] + rest, kind) == Some((c, 1))
    ensures ParseQuoted(e + rest, q, kind) == Prepend(c, ParseQuoted(rest, q, kind))
  {
    var src := e + rest;
    assert src[1..] == [e[1]] + rest;
    assert src[1 + 1..] == rest;
  }

  lemma OneCharParses(c: CodePoint, q: CodePoint, kind: Kind, rest: seq<CodePoint>)
    requires c != q && c != NEWLINE && c != CR && c != NUL && c != BACKSLASH
    requires kind == ByteKind ==> c < 0x80
    ensures ParseQuoted([c] + rest, q, kind) == Prepend(c, ParseQuoted(rest, q, kind))
  {
    assert ([c] + rest)[1..] == rest;
  }

  lemma EscapeCharRoundTrip(c: CodePoint, q: CodePoint, st: Style, kind: Kind, rest: seq<CodePoint>)
    requires q == SQUOTE || q == DQUOTE
    requires st == ByteRepr ==> c < 0x100
    requires Reads(kind, st, c)
    ensures ParseQuoted(EscapeChar(c, q, st) + rest, q, kind) == Prepend(c, ParseQuoted(rest, q, kind))
  {
    Pow16Values();
    var e := EscapeChar(c, q, st);
    if c == BACKSLASH {
      TwoCharParses(e, c, q, kind, rest);
    } else if c == q {
      TwoCharParses(e, c, q, kind, rest);
    } else if c == TAB {
      TwoCharParses(e, c, q, kind, rest);
    } else if c == NEWLINE {
      TwoCharParses(e, c, q, kind, rest);
    } else if c == CR {
      TwoCharParses(e, c, q, kind, rest);
    } else if c < 0x20 || c == 0x7F {
      assert e == XEscape(c);
      XEscapeParses(c, q, kind, rest);
    } else if c < 0x7F {
      assert e == [c];
      OneCharParses(c, q, kind, rest);
    } else if st == ByteRepr {
      assert e == XEscape(c);
      XEscapeParses(c, q, kind, rest);
    } else if st == Py3StrRepr {
      assert e == [c];
      OneCharParses(c, q, kind, rest);
    } else if c < 0x100 {
      assert e == XEscape(c);
      XEscapeParses(c, q, kind, rest);
    } else if c < 0x1_0000 {
      assert e == [BACKSLASH, Ch('u')] + Hex(c, 4);
      WideEscapeParses(c, 4, Ch('u'), q, rest);
    } else {
      assert e == [BACKSLASH, Ch('U')] + Hex(c, 8);
      WideEscapeParses(c, 8, Ch('U'), q, rest);
    }
  }

  /** One more escaped character in front of a tail that reads back. */
  lemma EscapeAllStep(s: seq<CodePoint>, q: CodePoint, st: Style, kind: Kind, rest: seq<CodePoint>)
    requires q == SQUOTE || q == DQUOTE
    requires s != [] && FitsStyle(s, st)
    requires forall i :: 0 <= i < |s| ==> Reads(kind, st, s[i])
    requires FitsStyle(s[1..], st)
    requires ParseQuoted(EscapeAll(s[1..], q, st) + [q] + rest, q, kind) == Some((s[1..], rest))
    ensures ParseQuoted(EscapeAll(s, q, st) + [q] + rest, q, kind) == Some((s, rest))
  {
    var c := s[0];
    var tail := EscapeAll(s[1..], q, st) + [q] + rest;
    EscapeAllCons(s, q, st, rest);
    EscapeCharRoundTrip(c, q, st, kind, tail);
    assert [c] + s[1..] == s;
  }

  lemma EscapeAllCons(s: seq<CodePoint>, q: CodePoint, st: Style, rest: seq<CodePoint>)
    requires s != [] && FitsStyle(s, st) && FitsStyle(s[1..], st)
    ensures EscapeAll(s, q, st) + [q] + rest == EscapeChar(s[0], q, st) + (EscapeAll(s[1..], q, st) + [q] + rest)
  {
  }

  lemma {:induction false} EscapeAllRoundTrip(s: seq<CodePoint>, q: CodePoint, st: Style, kind: Kind, rest: seq<CodePoint>)
    requires q == SQUOTE || q == DQUOTE
    requires FitsStyle(s, st)
    requires forall i :: 0 <= i < |s| ==> Reads(kind, st, s[i])
    ensures ParseQuoted(EscapeAll(s, q, st) + [q] + rest, q, kind) == Some((s, rest))
    decreases |s|
  {
    if s == [] {
      assert EscapeAll(s, q, st) + [q] + rest == [q] + rest;
    } else {
      var more := s[1..];
      assert forall i :: 0 <= i < |more| ==> more[i] == s[i + 1];
      EscapeAllRoundTrip(more, q, st, kind, rest);
      EscapeAllStep(s, q, st, kind, rest);
    }
  }

  /** A quoted `repr` read back with a compatible kind gives the string and what follows. */
  lemma ReprRoundTrip(s: seq<CodePoint>, st: Style, kind: Kind, rest: seq<CodePoint>)
    requires FitsStyle(s, st)
    requires forall i :: 0 <= i < |s| ==> Reads(kind, st, s[i])
    ensures var r := Repr(s, st) + rest;
      r[0] == QuoteFor(s) && ParseQuoted(r[1..], r[0], kind) == Some((s, rest))
  {
    var q := QuoteFor(s);
    assert (Repr(s, st) + rest)[1..] == EscapeAll(s, q, st) + [q] + rest;
    EscapeAllRoundTrip(s, q, st, kind, rest);
  }

  /** A prefix letter fixes the kind; the literal proper follows it. */
  lemma PrefixedLiteral(p: CodePoint, r: seq<CodePoint>, reader: Major, s: seq<CodePoint>, rest: seq<CodePoint>)
    requires p == Ch('b') || p == Ch('u')
    requires r != [] && (r[0] == SQUOTE || r[0] == DQUOTE)
    requires p == Ch('b') ==> forall i :: 0 <= i < |s| ==> s[i] < 0x100
    requires ParseQuoted(r[1..], r[0], if p == Ch('b') then ByteKind else TextKind) == Some((s, rest))
    ensures ParseStringLiteral([p] + r, reader) == Some((MakeId(if p == Ch('b') then ByteKind else TextKind, s), rest))
  {
    assert ([p] + r)[0] == p;
    assert ([p] + r)[1..] == r;
  }

  lemma MakeIdBytes(b: seq<Byte>)
    ensures MakeId(ByteKind, b) == Bytes(b)
  {
    assert MakeId(ByteKind, b).bytes == b;
  }

  lemma BytesLiteralRoundTrip(b: seq<Byte>, reader: Major, rest: seq<CodePoint>)
    ensures ParseStringLiteral([Ch('b')] + Repr(b, ByteRepr) + rest, reader) == Some((Bytes(b), rest))
  {
    var r := Repr(b, ByteRepr) + rest;
    assert [Ch('b')] + Repr(b, ByteRepr) + rest == [Ch('b')] + r;
    ReprRoundTrip(b, ByteRepr, ByteKind, rest);
    PrefixedLiteral(Ch('b'), r, reader, b, rest);
    MakeIdBytes(b);
  }

  lemma TextLiteralRoundTrip(t: seq<CodePoint>, writer: Major, reader: Major, rest: seq<CodePoint>)
    ensures ParseStringLiteral([Ch('u')] + Repr(t, TextStyle(writer)) + rest, reader) == Some((Text(t), rest))
  {
    var r := Repr(t, TextStyle(writer)) + rest;
    assert [Ch('u')] + Repr(t, TextStyle(writer)) + rest == [Ch('u')] + r;
    ReprRoundTrip(t, TextStyle(writer), TextKind, rest);
    PrefixedLiteral(Ch('u'), r, reader, t, rest);
  }

  /**
    What the writer quotes, `literal_eval` gives back, whatever follows it
    and whichever regime reads it: the prefix fixes the kind.
   */
  lemma LiteralRoundTrip(id: Id, writer: Major, reader: Major, rest: seq<CodePoint>)
    ensures ParseStringLiteral(Literal(id, writer) + rest, reader) == Some((id, rest))
  {
    match id
    case Bytes(b) =>
      BytesLiteralRoundTrip(b, reader, rest);
    case Text(t) =>
      TextLiteralRoundTrip(t, writer, reader, rest);
  }

  /**
    A written literal unquotes to its id when only blanks follow it (as
    before the colon in `u'x' : FAIL`), and is refused when anything else does.
   */
  lemma UnquoteLiteral(id: Id, writer: Major, reader: Major, after: seq<CodePoint>)
    ensures Unquote(Literal(id, writer) + after, reader) == if IsTrailingBlank(after) then Some(id) else None
  {
    LiteralRoundTrip(id, writer, reader, after);
  }

  // ---------------------------------------------------------------- what repr emits

  lemma EscapeCharShape(c: CodePoint, q: CodePoint, st: Style)
    requires q == SQUOTE || q == DQUOTE
    requires st == ByteRepr ==> c < 0x100
    ensures NEWLINE !in EscapeChar(c, q, st)
    ensures IsAscii(EscapeChar(c, q, st)) <==> (st != Py3StrRepr || c < 0x80)
  {
    Pow16Values();
    var e := EscapeChar(c, q, st);
    if c == BACKSLASH || c == q || c == TAB || c == NEWLINE || c == CR {
      assert |e| == 2 && e[0] == BACKSLASH && e[1] in {BACKSLASH, q, Ch('t'), Ch('n'), Ch('r')};
    } else if c < 0x20 || c == 0x7F || (c > 0x7F && (st == ByteRepr || (st == Py2UnicodeRepr && c < 0x100))) {
      assert e == [BACKSLASH, Ch('x')] + Hex(c, 2);
      HexIsAscii(c, 2);
    } else if c < 0x7F || st == Py3StrRepr {
      assert e == [c] && e[0] == c;
    } else if c < 0x1_0000 {
      assert e == [BACKSLASH, Ch('u')] + Hex(c, 4);
      HexIsAscii(c, 4);
    } else {
      assert e == [BACKSLASH, Ch('U')] + Hex(c, 8);
      HexIsAscii(c, 8);
    }
  }

  lemma {:induction false} HexIsAscii(v: nat, n: nat)
    requires v < Pow16(n)
    ensures IsAscii(Hex(v, n)) && NEWLINE !in Hex(v, n)
    decreases n
  {
    if n > 0 {
      HexIsAscii(v / 16, n - 1);
    }
  }

  /**
    What `repr` writes never holds a raw newline, and is ASCII unless it is
    a Python 3 `str` holding a non-ASCII character.
   */
  lemma {:induction false} EscapeAllShape(s: seq<CodePoint>, q: CodePoint, st: Style)
    requires q == SQUOTE || q == DQUOTE
    requires FitsStyle(s, st)
    ensures NEWLINE !in EscapeAll(s, q, st)
    ensures IsAscii(EscapeAll(s, q, st)) <==> (st != Py3StrRepr || IsAscii(s))
    decreases |s|
  {
    if s != [] {
      var more := s[1..];
      assert forall i :: 0 <= i < |more| ==> more[i] == s[i + 1];
      EscapeCharShape(s[0], q, st);
      EscapeAllShape(more, q, st);
      var h := EscapeChar(s[0], q, st);
      assert EscapeAll(s, q, st) == h + EscapeAll(more, q, st);
      AsciiConcat(h, EscapeAll(more, q, st));
      assert s == [s[0]] + more;
      AsciiConcat([s[0]], more);
    }
  }

  /** A concatenation is ASCII exactly when both parts are. */
  lemma AsciiConcat(a: seq<int>, b: seq<int>)
    ensures IsAscii(a + b) <==> IsAscii(a) && IsAscii(b)
  {
    var ab := a + b;
    assert forall i :: 0 <= i < |a| ==> ab[i] == a[i];
    assert forall i :: 0 <= i < |b| ==> ab[|a| + i] == b[i];
    if IsAscii(a) && IsAscii(b) {
      forall i | 0 <= i < |ab| ensures 0 <= ab[i] < 0x80 {
        if i >= |a| {
          assert ab[i] == b[i - |a|];
        }
      }
    }
  }

  /** A body between a prefix letter and quotes keeps its shape. */
  lemma QuotedShape(p: CodePoint, q: CodePoint, body: seq<CodePoint>)
    requires p < 0x80 && p != NEWLINE && (q == SQUOTE || q == DQUOTE)
    ensures NEWLINE in [p, q] + body + [q] <==> NEWLINE in body
    ensures IsAscii([p, q] + body + [q]) <==> IsAscii(body)
  {
    AsciiConcat([p, q], body);
    AsciiConcat([p, q] + body, [q]);
  }

  lemma PrefixedReprShape(p: CodePoint, s: seq<CodePoint>, st: Style)
    requires p == Ch('b') || p == Ch('u')
    requires FitsStyle(s, st)
    ensures NEWLINE !in [p] + Repr(s, st)
    ensures IsAscii([p] + Repr(s, st)) <==> (st != Py3StrRepr || IsAscii(s))
  {
    var q := QuoteFor(s);
    EscapeAllShape(s, q, st);
    assert [p] + Repr(s, st) == [p, q] + EscapeAll(s, q, st) + [q];
    QuotedShape(p, q, EscapeAll(s, q, st));
  }

  /** The literal of an id is ASCII exactly unless it is a non-ASCII text id written by Python 3. */
  lemma LiteralShape(id: Id, writer: Major)
    ensures NEWLINE !in Literal(id, writer)
    ensures IsAscii(Literal(id, writer)) <==> !(writer == PY3 && id.Text? && !IsAscii(id.text))
  {
    match id
    case Bytes(b) =>
      PrefixedReprShape(Ch('b'), b, ByteRepr);
    case Text(t) =>
      PrefixedReprShape(Ch('u'), t, TextStyle(writer));
  }

  // ---------------------------------------------------------------- integers

  predicate IsDigit(c: int)
  {
    0x30 <= c <= 0x39
  }

  predicate AllDigits(s: seq<int>)
  {
    forall i :: 0 <= i < |s| ==> IsDigit(s[i])
  }

  /** `repr` of a non-negative integer. */
  function ShowNat(n: nat): seq<CodePoint>
    decreases n
  {
    if n < 10 then [0x30 + n] else ShowNat(n / 10) + [0x30 + n % 10]
  }

  /** The value of a run of decimal digits. */
  function DigitsValue(s: seq<int>): nat
    requires AllDigits(s)
    decreases |s|
  {
    if s == [] then 0 else DigitsValue(s[..|s| - 1]) * 10 + (s[|s| - 1] - 0x30)
  }

  /** How many decimal digits `s` starts with. */
  function DigitRun(s: seq<int>): (k: nat)
    ensures k <= |s| && AllDigits(s[..k])
    ensures k < |s| ==> !IsDigit(s[k])
    decreases |s|
  {
    if s == [] || !IsDigit(s[0]) then 0 else 1 + DigitRun(s[1..])
  }

  /** `repr` of an integer reads back as that integer, and has a leading zero only for zero. */
  lemma {:induction false} ShowNatRoundTrip(n: nat)
    ensures |ShowNat(n)| >= 1 && AllDigits(ShowNat(n))
    ensures DigitsValue(ShowNat(n)) == n
    ensures ShowNat(n)[0] == 0x30 ==> n == 0
    decreases n
  {
    if n >= 10 {
      ShowNatRoundTrip(n / 10);
      var s := ShowNat(n);
      assert s[..|s| - 1] == ShowNat(n / 10);
    }
  }

  lemma {:induction false} DigitRunOf(d: seq<int>, rest: seq<int>)
    requires AllDigits(d)
    requires rest == [] || !IsDigit(rest[0])
    ensures DigitRun(d + rest) == |d|
    decreases |d|
  {
    if d != [] {
      assert (d + rest)[1..] == d[1..] + rest;
      DigitRunOf(d[1..], rest);
    } else {
      assert d + rest == rest;
    }
  }
}
