/**
 JSON string literals (section 7 of RFC 8259): the parser, its validate-only form and the printer.
 The cursor of the source is the text that remains; its end is the terminating NUL.
 */
module JsonStrings {
  import opened Options
  import opened JsonUtf8

  const QUOTE: Byte := 0x22
  const BACKSLASH: Byte := 0x5C
  const LETTER_U: Byte := 0x75

  // ---------- Hexadecimal escapes ----------

  function HexValue(c: Byte): Option<bv16> {
    if 0x30 <= c <= 0x39 then Some((c - 0x30) as bv16)
    else if 0x41 <= c <= 0x46 then Some((c - 0x41 + 10) as bv16)
    else if 0x61 <= c <= 0x66 then Some((c - 0x61 + 10) as bv16)
    else None
  }

  function HexSum(a: bv16, b: bv16, c: bv16, d: bv16): bv16 { ((((((a << 4) + b) << 4) + c) << 4) + d) }

  /** Exactly four hexadecimal digits, upper or lower case. */
  function ParseHex16(t: Text): (r: Option<(bv16, Text)>)
    ensures r.Some? ==> |t| >= 4 && r.value.1 == t[4..]
  {
    match (HexValue(At(t, 0)), HexValue(At(t, 1)), HexValue(At(t, 2)), HexValue(At(t, 3)))
    case (Some(a), Some(b), Some(c), Some(d)) =>
      if |t| >= 4 then Some((HexSum(a, b, c, d), t[4..])) else None
    case _ => None
  }

  function HexChar(v: bv16): Byte { if v & 0xF < 10 then 0x30 + (v & 0xF) as Byte else 0x41 + ((v & 0xF) - 10) as Byte }

  function WriteHex16(v: bv16): (r: Text)
    ensures |r| == 4
  {
    [HexChar(v >> 12), HexChar(v >> 8), HexChar(v >> 4), HexChar(v)]
  }

  lemma HexDigitInverse(v: bv16)
    ensures HexValue(HexChar(v)) == Some(v & 0xF) && HexChar(v) != 0
  {}

  lemma HexJoined(v: bv16)
    ensures (((((((v >> 12) & 0xF) << 4) + ((v >> 8) & 0xF)) << 4) + ((v >> 4) & 0xF)) << 4) + (v & 0xF) == v
  {}

  lemma HexInverse(v: bv16, rest: Text)
    ensures ParseHex16(WriteHex16(v) + rest) == Some((v, rest))
  {
    hide HexValue, HexChar;
    var t := WriteHex16(v) + rest;
    HexDigitInverse(v >> 12);
    HexDigitInverse(v >> 8);
    HexDigitInverse(v >> 4);
    HexDigitInverse(v);
    HexJoined(v);
    assert t[4..] == rest;
  }

  function Widen(uc: bv16): CodePoint { uc as bv32 }

  predicate IsSurrogate(uc: bv16) { 0xD800 <= uc <= 0xDFFF }

  /** The code point of a `\\u` escape behind its two introducing characters: a surrogate pair
      takes a second escape, and U+0000 is refused. */
  function EscapedCode(t: Text): (r: Option<(CodePoint, Text)>)
    ensures r.Some? ==> |r.value.1| < |t|
  {
    match ParseHex16(t)
    case None => None
    case Some((uc, s)) =>
      if IsSurrogate(uc) then
        if At(s, 0) != BACKSLASH || At(s, 1) != LETTER_U then None
        else match ParseHex16(s[2..])
          case None => None
          case Some((lc, s')) =>
            match FromSurrogates(uc, lc) case None => None case Some(u) => Some((u, s'))
      else if uc == 0 then None
      else Some((Widen(uc), s))
  }

  function ParseUnicode(t: Text): (r: Option<(Text, Text)>)
    ensures r.Some? ==> |r.value.1| < |t|
  {
    match EscapedCode(t)
    case None => None
    case Some((u, s)) => match WriteChar(u) case None => None case Some(w) => Some((w, s))
  }

  // ---------- Parsing ----------

  function EscapeValue(e: Byte): Option<Byte> {
    if e == QUOTE || e == BACKSLASH || e == 0x2F then Some(e)
    else if e == 0x62 then Some(0x08)
    else if e == 0x66 then Some(0x0C)
    else if e == 0x6E then Some(0x0A)
    else if e == 0x72 then Some(0x0D)
    else if e == 0x74 then Some(0x09)
    else None
  }

  /** One character or escape: the bytes it stands for and the remaining text. */
  function ParseChar(t: Text): (r: Option<(Text, Text)>)
    ensures r.Some? ==> |r.value.1| < |t|
  {
    var c := At(t, 0);
    if c == BACKSLASH then
      var e := At(t, 1);
      if e == LETTER_U then ParseUnicode(t[2..])
      else match EscapeValue(e)
        case None => None
        case Some(b) => Some(([b], t[2..]))
    else if c <= 0x1F then None
    else
      ValidateCharInside(t);
      var n := ValidateChar(t);
      if n == 0 then None else Some((t[..n], t[n..]))
  }

  /** The characters up to and including the closing quote. */
  function ParseChars(t: Text): (r: Option<(Text, Text)>)
    ensures r.Some? ==> |r.value.1| < |t|
    decreases |t|
  {
    if At(t, 0) == QUOTE then Some(([], t[1..]))
    else match ParseChar(t)
      case None => None
      case Some((c, s)) =>
        match ParseChars(s)
        case None => None
        case Some((cs, rest)) => Some((c + cs, rest))
  }

  function ParseString(t: Text): (r: Option<(Text, Text)>)
    ensures r.Some? ==> |r.value.1| < |t|
  {
    if At(t, 0) != QUOTE then None else ParseChars(t[1..])
  }

  /** The loop of the parser: a cursor, and a buffer that grows by one character at a time. */
  method ParseStringLoop(t: Text) returns (r: Option<(Text, Text)>)
    ensures r == ParseString(t)
  {
    hide ParseChar;
    if At(t, 0) != QUOTE { return None; }
    var s, b := t[1..], [];
    assert forall cs: Text :: b + cs == cs;
    while At(s, 0) != QUOTE
      invariant ParseString(t) == match ParseChars(s) case None => None case Some((cs, rest)) => Some((b + cs, rest))
      decreases |s|
    {
      var p := ParseChar(s);
      if p.None? { return None; }
      var rest := ParseChars(p.value.1);
      assert rest.Some? ==> b + (p.value.0 + rest.value.0) == (b + p.value.0) + rest.value.0;
      b, s := b + p.value.0, p.value.1;
    }
    assert b + [] == b;
    return Some((b, s[1..]));
  }

  // ---------- What is accepted ----------

  /** Only valid, NUL-free UTF-8 comes out of the parser, escapes included. */
  lemma {:induction false} ParsedIsValid(t: Text)
    requires ParseChars(t).Some?
    ensures Validate(ParseChars(t).value.0) && 0 !in ParseChars(t).value.0
    decreases |t|
  {
    hide ParseChar;
    if At(t, 0) != QUOTE {
      var (c, s) := ParseChar(t).value;
      ParsedCharIsValid(t);
      ParsedIsValid(s);
      ValidateConcat(c, ParseChars(s).value.0);
    }
  }

  lemma WrittenIsValid(u: CodePoint)
    requires IsScalar(u) && u != 0
    ensures var w := WriteChar(u).value; Validate(w) && 0 !in w
  {
    var w := WriteChar(u).value;
    ReadWritten(u, []);
    assert w + [] == w && w[|w|..] == [];
    assert Validate(w[|w|..]);
    WrittenNonzero(u);
  }

  lemma WrittenNonzero(u: CodePoint)
    requires IsScalar(u) && u != 0
    ensures 0 !in WriteChar(u).value
  {
    if u <= 0x7F { assert Low(u) != 0; }
    else {
      NonzeroBytes(u);
    }
  }

  lemma NonzeroBytes(u: CodePoint)
    ensures u <= 0x10FFFF ==> Low(0xC0 | (u >> 6)) != 0 || u > 0x7FF
    ensures Low(0x80 | (u & 0x3F)) != 0 && Low(0x80 | ((u >> 6) & 0x3F)) != 0 && Low(0x80 | ((u >> 12) & 0x3F)) != 0
    ensures u <= 0xFFFF ==> Low(0xE0 | (u >> 12)) != 0
    ensures u <= 0x10FFFF ==> Low(0xF0 | (u >> 18)) != 0
  {}

  lemma ParsedCharIsValid(t: Text)
    requires ParseChar(t).Some?
    ensures Validate(ParseChar(t).value.0) && 0 !in ParseChar(t).value.0
  {
    hide ValidateChar, WriteChar, FromSurrogates, ParseHex16;
    var c := At(t, 0);
    if c == BACKSLASH {
      var e := At(t, 1);
      if e == LETTER_U {
        ParsedUnicodeIsValid(t[2..]);
      } else {
        AsciiIsValid(EscapeValue(e).value);
      }
    } else {
      RawCharIsValid(t);
    }
  }

  lemma AsciiIsValid(b: Byte)
    requires b <= 0x7F
    ensures Validate([b])
  {
    assert ValidateChar([b]) == 1 && [b][1..] == [];
  }

  lemma JoinIsScalar(uc: bv16, lc: bv16)
    requires FromSurrogates(uc, lc).Some?
    ensures IsScalar(FromSurrogates(uc, lc).value) && FromSurrogates(uc, lc).value != 0
  {}

  lemma BmpIsScalar(uc: bv16)
    requires uc != 0 && !IsSurrogate(uc)
    ensures IsScalar(Widen(uc)) && Widen(uc) != 0
  {}

  lemma EscapedCodeIsScalar(t: Text)
    requires EscapedCode(t).Some?
    ensures IsScalar(EscapedCode(t).value.0) && EscapedCode(t).value.0 != 0
  {
    hide ParseHex16, FromSurrogates, IsScalar, Widen, IsSurrogate;
    var (uc, s) := ParseHex16(t).value;
    if IsSurrogate(uc) {
      var (lc, _) := ParseHex16(s[2..]).value;
      JoinIsScalar(uc, lc);
    } else {
      BmpIsScalar(uc);
    }
  }

  lemma ParsedUnicodeIsValid(t: Text)
    requires ParseUnicode(t).Some?
    ensures Validate(ParseUnicode(t).value.0) && 0 !in ParseUnicode(t).value.0
  {
    hide WriteChar, EscapedCode, Validate, IsScalar;
    EscapedCodeIsScalar(t);
    WrittenIsValid(EscapedCode(t).value.0);
  }

  lemma RawCharIsValid(t: Text)
    requires t != [] && t[0] > 0x1F && ValidateChar(t) != 0
    ensures ValidateChar(t) <= |t|
    ensures var w := t[..ValidateChar(t)]; Validate(w) && 0 !in w && 0x1F !in w
  {
    hide WriteChar, CharLength, ValidateChar;
    ValidateCharInside(t);
    var n := ValidateChar(t);
    var w := t[..n];
    RawBytes(t);
    assert forall i :: 0 <= i < n ==> At(w, i) == At(t, i);
    ValidateLocal(t, w);
    assert w[n..] == [] && Validate(w[n..]);
  }

  lemma RawBytes(t: Text)
    requires t != [] && t[0] > 0x1F && ValidateChar(t) != 0
    ensures forall i :: 0 <= i < ValidateChar(t) ==> i < |t| && t[i] > 0x1F
  {
    hide CharLength;
    ValidateCharInside(t);
    HighBytes(At(t, 0), At(t, 1), At(t, 2), At(t, 3));
    assert forall i :: 0 < i < ValidateChar(t) ==> t[i] == At(t, i);
  }

  /** The bytes after the first of a longer character have their top bit set, and so has the first. */
  lemma HighBytes(c0: Byte, c1: Byte, c2: Byte, c3: Byte)
    ensures var n := CharLength(c0, c1, c2, c3);
            && (n > 1 ==> c0 > 0x7F && c1 > 0x7F) && (n > 2 ==> c2 > 0x7F)
            && (n > 3 ==> c3 > 0x7F) && (n == 1 ==> c0 <= 0x7F)
  {}

  // ---------- Printing ----------

  /** The letter of a two-character escape. */
  function EscapeLetter(c: Byte): (e: Option<Byte>)
    ensures e.Some? ==> EscapeValue(e.value) == Some(c) && e.value != LETTER_U
  {
    if c == QUOTE then Some(QUOTE)
    else if c == BACKSLASH then Some(BACKSLASH)
    else if c == 0x08 then Some(0x62)
    else if c == 0x0C then Some(0x66)
    else if c == 0x0A then Some(0x6E)
    else if c == 0x0D then Some(0x72)
    else if c == 0x09 then Some(0x74)
    else None
  }

  /** One character printed: the text for it, and how many bytes of `s` it used. */
  function EmitChar(s: Text): (r: (Text, nat))
    requires s != [] && ValidateChar(s) != 0
    ensures 0 < r.1 <= |s|
  {
    ValidateCharInside(s);
    var c := s[0];
    match EscapeLetter(c)
    case Some(e) => ([BACKSLASH, e], 1)
    case None =>
      if c < 0x1F then
        var (u, n) := ReadChar(s).value;
        ([BACKSLASH, LETTER_U] + WriteHex16((u & 0xFFFF) as bv16), n)
      else (s[..ValidateChar(s)], ValidateChar(s))
  }

  lemma EmitCharRest(s: Text)
    requires s != [] && Validate(s)
    ensures ValidateChar(s) != 0 && Validate(s[EmitChar(s).1..])
  {
    if s[0] <= 0x7F { assert ValidateChar(s) == 1; }
  }

  lemma AsciiChar(s: Text)
    requires s != [] && s[0] <= 0x7F
    ensures ReadChar(s) == Some((s[0] as bv32, 1))
  {}

  function EmitChars(s: Text): Text
    requires Validate(s)
    decreases |s|
  {
    if s == [] then []
    else
      EmitCharRest(s);
      var (out, n) := EmitChar(s);
      out + EmitChars(s[n..])
  }

  /** The printed string; nothing if the string is not valid UTF-8. */
  function EmitString(s: Text): (r: Option<Text>)
    ensures r.Some? <==> Validate(s)
  {
    if Validate(s) then Some([QUOTE] + EmitChars(s) + [QUOTE]) else None
  }

  method EmitStringLoop(str: Text) returns (r: Option<Text>)
    ensures r == EmitString(str)
  {
    hide EmitChar;
    if !Validate(str) { return None; }
    var out, s := [QUOTE], str;
    while s != []
      invariant Validate(s) && out + EmitChars(s) == [QUOTE] + EmitChars(str)
      decreases |s|
    {
      EmitCharRest(s);
      var (text, n) := EmitChar(s);
      assert out + (text + EmitChars(s[n..])) == (out + text) + EmitChars(s[n..]);
      out, s := out + text, s[n..];
    }
    assert out + [] == out;
    return Some(out + [QUOTE]);
  }

  /** Reading one printed character back: it works unless the character is U+001F. */
  lemma EmittedCharParses(s: Text, rest: Text)
    requires s != [] && Validate(s) && s[0] != 0 && ValidateChar(s) != 0
    ensures var (out, n) := EmitChar(s);
            && out != [] && out[0] != QUOTE
            && ParseChar(out + rest) == (if s[0] == 0x1F then None else Some((s[..n], rest)))
            && (0x1F in s[..n] <==> s[0] == 0x1F)
  {
    hide WriteHex16, ValidateChar, Validate, ParseUnicode, CharCode;
    var (out, n) := EmitChar(s);
    var c := s[0];
    var t := out + rest;
    assert t[0] == out[0];
    if EscapeLetter(c).Some? {
      assert t[2..] == rest && At(t, 1) == EscapeLetter(c).value;
      assert s[..1] == [c];
    } else if c < 0x1F {
      assert At(t, 1) == LETTER_U && t[2..] == out[2..] + rest;
      EmittedControlParses(c, rest);
      AsciiChar(s);
      assert out[2..] == WriteHex16(((c as bv32) & 0xFFFF) as bv16);
      assert s[..1] == [c];
    } else if c == 0x1F {
      UnitSeparator(s);
    } else {
      RawCharIsValid(s);
      assert forall i :: 0 <= i < n ==> At(t, i) == At(s, i);
      ValidateLocal(s, t);
      assert t[..n] == s[..n] && t[n..] == rest;
    }
  }

  lemma UnitSeparator(s: Text)
    requires s != [] && s[0] == 0x1F
    ensures ValidateChar(s) == 1 && s[..1] == [0x1F]
  {}

  lemma EmittedControlParses(c: Byte, rest: Text)
    requires 0 < c < 0x1F
    ensures ParseUnicode(WriteHex16(((c as bv32) & 0xFFFF) as bv16) + rest) == Some(([c], rest))
  {
    hide ParseHex16, WriteHex16;
    ControlCode(c);
    HexInverse(((c as bv32) & 0xFFFF) as bv16, rest);
  }

  lemma ControlCode(c: Byte)
    requires 0 < c < 0x1F
    ensures var v := ((c as bv32) & 0xFFFF) as bv16; 0 < v < 0x1F && WriteChar(v as bv32) == Some([c])
  {}

  /** Print then parse is the identity on valid NUL-free strings exactly when U+001F does not occur;
      otherwise the printed string does not parse at all. */
  lemma {:induction false} EmittedStringParses(s: Text, rest: Text)
    requires Validate(s) && 0 !in s
    ensures ParseChars(EmitChars(s) + [QUOTE] + rest) == if 0x1F in s then None else Some((s, rest))
    decreases |s|
  {
    hide ParseChar, EmitChar, ValidateChar;
    var text := EmitChars(s) + [QUOTE] + rest;
    if s == [] {
      assert text == [QUOTE] + rest && text[1..] == rest;
    } else {
      EmitCharRest(s);
      var (out, n) := EmitChar(s);
      var more := EmitChars(s[n..]) + [QUOTE] + rest;
      assert text == out + more;
      EmittedCharParses(s, more);
      assert text[0] == out[0];
      assert s == s[..n] + s[n..];
      EmittedStringParses(s[n..], rest);
    }
  }

  lemma StringRoundTrip(s: Text, rest: Text)
    requires Validate(s) && 0 !in s
    ensures ParseString(EmitString(s).value + rest) == if 0x1F in s then None else Some((s, rest))
  {
    var text := EmitString(s).value + rest;
    assert text[1..] == EmitChars(s) + [QUOTE] + rest;
    EmittedStringParses(s, rest);
  }

  // ---------- Validate only ----------

  /** The same parser without an output buffer. */
  function ScanString(t: Text): Option<Text> {
    if At(t, 0) != QUOTE then None else ScanChars(t[1..])
  }

  function ScanChars(t: Text): Option<Text>
    decreases |t|
  {
    if At(t, 0) == QUOTE then Some(t[1..])
    else match ParseChar(t)
      case None => None
      case Some((_, s)) => ScanChars(s)
  }

  lemma {:induction false} ScanCharsAgrees(t: Text)
    ensures ScanChars(t) == match ParseChars(t) case None => None case Some((_, rest)) => Some(rest)
    decreases |t|
  {
    hide ParseChar;
    if At(t, 0) != QUOTE && ParseChar(t).Some? { ScanCharsAgrees(ParseChar(t).value.1); }
  }

  /** `r` is what remains of `t` after some characters. */
  ghost predicate Remains(r: Text, t: Text) { |r| <= |t| && r == t[|t| - |r|..] }

  lemma RemainsTransitive(a: Text, b: Text, c: Text)
    requires Remains(a, b) && Remains(b, c)
    ensures Remains(a, c)
  {}

  lemma EscapedCodeRemains(t: Text)
    requires EscapedCode(t).Some?
    ensures Remains(EscapedCode(t).value.1, t)
  {
    hide FromSurrogates, ParseHex16, IsSurrogate, Widen;
    var (uc, s) := ParseHex16(t).value;
    if IsSurrogate(uc) {
      assert s[2..] == t[6..] && s[2..][4..] == t[10..];
    }
  }

  lemma ParseCharRemains(t: Text)
    requires ParseChar(t).Some?
    ensures Remains(ParseChar(t).value.1, t)
  {
    hide ValidateChar, WriteChar, EscapedCode;
    if At(t, 0) == BACKSLASH {
      assert |t| >= 2 && Remains(t[2..], t);
      if At(t, 1) == LETTER_U {
        EscapedCodeRemains(t[2..]);
        RemainsTransitive(ParseChar(t).value.1, t[2..], t);
      }
    } else {
      ValidateCharInside(t);
      assert Remains(t[ValidateChar(t)..], t);
    }
  }

  lemma {:induction false} ParseCharsRemains(t: Text)
    requires ParseChars(t).Some?
    ensures Remains(ParseChars(t).value.1, t)
    decreases |t|
  {
    hide ParseChar;
    if At(t, 0) != QUOTE {
      ParseCharRemains(t);
      ParseCharsRemains(ParseChar(t).value.1);
    }
  }
}
