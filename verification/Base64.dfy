/** Base64 in its standard and URL-safe forms (sections 4 and 5 of RFC 4648): the encoding and decoding loops
    and what they undo. */
module Base64 {
  type Byte = bv8

  datatype Alphabet = Standard | Url

  const PAD: Byte := 61

  // ---------- Digits ----------

  /** The character that stands for the 6-bit value `v`. */
  function Glyph(a: Alphabet, v: Byte): Byte {
    if v < 26 then 65 + v
    else if v < 52 then 97 + (v - 26)
    else if v < 62 then 48 + (v - 52)
    else if v == 62 then (if a.Standard? then 43 else 45)
    else if a.Standard? then 47 else 95
  }

  /** The value a character stands for, or 64; the URL-safe form also accepts the standard signs. */
  function Lookup(a: Alphabet, c: Byte): Byte {
    if 65 <= c <= 90 then c - 65
    else if 97 <= c <= 122 then c - 97 + 26
    else if 48 <= c <= 57 then c - 48 + 52
    else if c == 43 then 62
    else if c == 47 then 63
    else if a.Url? && c == 45 then 62
    else if a.Url? && c == 95 then 63
    else 64
  }

  lemma LookupGlyph(a: Alphabet, v: Byte)
    requires v < 64
    ensures Lookup(a, Glyph(a, v)) == v && Glyph(a, v) != PAD
  {}

  lemma GlyphLookup(c: Byte)
    requires Lookup(Standard, c) != 64
    ensures Lookup(Standard, c) < 64 && Glyph(Standard, Lookup(Standard, c)) == c && c != PAD
  {}

  // The four 6-bit values of three bytes, and the three bytes of four values.
  function Six0(x: Byte): Byte { (x & 0xFC) >> 2 }
  function Six1(x: Byte, y: Byte): Byte { ((x & 0x03) << 4) | ((y & 0xF0) >> 4) }
  function Six2(y: Byte, z: Byte): Byte { ((y & 0x0F) << 2) | ((z & 0xC0) >> 6) }
  function Six3(z: Byte): Byte { z & 0x3F }
  function Join0(p: Byte, q: Byte): Byte { (p << 2) | (q >> 4) }
  function Join1(q: Byte, r: Byte): Byte { (q << 4) | (r >> 2) }
  function Join2(r: Byte, s: Byte): Byte { (r << 6) | s }

  lemma SixesSmall(x: Byte, y: Byte, z: Byte)
    ensures Six0(x) < 64 && Six1(x, y) < 64 && Six2(y, z) < 64 && Six3(z) < 64
  {}

  lemma JoinSix(x: Byte, y: Byte, z: Byte)
    ensures Join0(Six0(x), Six1(x, y)) == x
    ensures Join1(Six1(x, y), Six2(y, z)) == y
    ensures Join2(Six2(y, z), Six3(z)) == z
  {}

  lemma SixJoin(p: Byte, q: Byte, r: Byte, s: Byte)
    requires p < 64 && q < 64 && r < 64 && s < 64
    ensures Six0(Join0(p, q)) == p
    ensures Six1(Join0(p, q), Join1(q, r)) == q
    ensures Six2(Join1(q, r), Join2(r, s)) == r
    ensures Six3(Join2(r, s)) == s
    ensures Six1(Join0(p, q), 0) == q <==> q & 0x0F == 0
    ensures Six2(Join1(q, r), 0) == r <==> r & 0x03 == 0
  {}

  // ---------- Encoding ----------

  function Quad(a: Alphabet, x: Byte, y: Byte, z: Byte): seq<Byte> {
    [Glyph(a, Six0(x)), Glyph(a, Six1(x, y)), Glyph(a, Six2(y, z)), Glyph(a, Six3(z))]
  }

  /** The text for `b`; only the standard form is padded. */
  function Encoded(a: Alphabet, b: seq<Byte>): seq<Byte> {
    if |b| == 0 then []
    else if |b| == 1 then
      [Glyph(a, Six0(b[0])), Glyph(a, Six1(b[0], 0))] + if a.Standard? then [PAD, PAD] else []
    else if |b| == 2 then
      [Glyph(a, Six0(b[0])), Glyph(a, Six1(b[0], b[1])), Glyph(a, Six2(b[1], 0))] + if a.Standard? then [PAD] else []
    else Quad(a, b[0], b[1], b[2]) + Encoded(a, b[3..])
  }

  /** The exact length of the text, for each remainder mod 3. */
  lemma {:induction false} EncodedLength(a: Alphabet, b: seq<Byte>)
    ensures |Encoded(a, b)| == |b| / 3 * 4 + (if |b| % 3 == 0 then 0 else if a.Standard? then 4 else |b| % 3 + 1)
    ensures |Encoded(a, b)| + 1 <= 2 + (|b| + 2) / 3 * 4
  {
    if |b| >= 3 {
      EncodedLength(a, b[3..]);
      assert |b[3..]| % 3 == |b| % 3 && |b[3..]| / 3 == |b| / 3 - 1;
    }
  }

  // The forms used at the end of the text, and for the first digit of the URL-safe form.
  function Low2(x: Byte): Byte { (x & 0x03) << 4 }
  function Low4(x: Byte): Byte { (x & 0x0F) << 2 }
  function High6(x: Byte): Byte { (x >> 2) & 0x3F }

  lemma OnlyLow(x: Byte)
    ensures Low2(x) == Six1(x, 0) && Low4(x) == Six2(x, 0) && High6(x) == Six0(x)
  {}

  lemma EncodedStep(a: Alphabet, b: seq<Byte>, i: nat)
    requires i + 3 <= |b|
    ensures Encoded(a, b[i..]) == Quad(a, b[i], b[i + 1], b[i + 2]) + Encoded(a, b[i + 3..])
  {
    hide Quad;
    assert b[i..][3..] == b[i + 3..];
  }

  lemma EncodedEnd(a: Alphabet, b: seq<Byte>, i: nat)
    requires i <= |b| < i + 3
    ensures |b| == i ==> Encoded(a, b[i..]) == []
    ensures |b| == i + 1 ==>
              Encoded(a, b[i..]) ==
              [Glyph(a, Six0(b[i])), Glyph(a, Six1(b[i], 0))] + if a.Standard? then [PAD, PAD] else []
    ensures |b| == i + 2 ==>
              Encoded(a, b[i..]) == [Glyph(a, Six0(b[i])), Glyph(a, Six1(b[i], b[i + 1])), Glyph(a, Six2(b[i + 1], 0))]
                                    + if a.Standard? then [PAD] else []
  {}

  /** Standard encoding into an empty buffer. */
  method Encode(data: seq<Byte>) returns (out: seq<Byte>)
    ensures out == Encoded(Standard, data)
  {
    hide Six0, Six1, Six2, Six3, Low2, Low4, High6, Glyph;
    out := [];
    var at, sz := 0, |data|;
    while sz >= 3
      invariant 0 <= sz && 0 <= at && at + sz == |data|
                && out + Encoded(Standard, data[at..]) == Encoded(Standard, data)
    {
      EncodedStep(Standard, data, at);
      out := out + Quad(Standard, data[at], data[at + 1], data[at + 2]);
      at, sz := at + 3, sz - 3;
    }
    if sz == 1 {
      OnlyLow(data[at]);
      out := out + [Glyph(Standard, Six0(data[at])), Glyph(Standard, Low2(data[at])), PAD, PAD];
    } else if sz == 2 {
      OnlyLow(data[at + 1]);
      out := out + [Glyph(Standard, Six0(data[at])), Glyph(Standard, Six1(data[at], data[at + 1])),
                    Glyph(Standard, Low4(data[at + 1])), PAD];
    }
  }

  /** URL-safe encoding into an empty buffer, of a length that an int can hold. */
  method UrlEncode(b: seq<Byte>) returns (out: seq<Byte>)
    requires |b| < 0x8000_0000
    ensures out == Encoded(Url, b)
  {
    hide Six0, Six1, Six2, Six3, Low2, Low4, High6, Glyph, Encoded;
    assert b[0..] == b;
    out := [];
    var i := 0;
    while i < |b| - 2
      invariant i <= |b| && out + Encoded(Url, b[i..]) == Encoded(Url, b)
    {
      EncodedStep(Url, b, i);
      OnlyLow(b[i]);
      var quad := [Glyph(Url, High6(b[i])), Glyph(Url, Six1(b[i], b[i + 1])), Glyph(Url, Six2(b[i + 1], b[i + 2])),
                   Glyph(Url, Six3(b[i + 2]))];
      assert quad == Quad(Url, b[i], b[i + 1], b[i + 2]);
      out := out + quad;
      i := i + 3;
    }
    EncodedEnd(Url, b, i);
    if i < |b| {
      OnlyLow(b[i]);
      out := out + [Glyph(Url, High6(b[i]))];
      if i == |b| - 1 {
        out := out + [Glyph(Url, Low2(b[i]))];
      } else {
        OnlyLow(b[i + 1]);
        out := out + [Glyph(Url, Six1(b[i], b[i + 1])), Glyph(Url, Low4(b[i + 1]))];
      }
    }
  }

  // ---------- Decoding ----------

  datatype Decoded =
    | Bytes(b: seq<Byte>)
    | Invalid
    | Astray    // the size underflows and the reads leave the text and its terminator

  /** The text with the terminator behind it. */
  function At(t: seq<Byte>, i: nat): Byte { if i < |t| then t[i] else 0 }

  function Values(a: Alphabet, t: seq<Byte>): (r: (Byte, Byte, Byte, Byte)) {
    (Lookup(a, At(t, 0)), Lookup(a, At(t, 1)), Lookup(a, At(t, 2)), Lookup(a, At(t, 3)))
  }

  /** The first `n` - 1 of the three bytes that four values give. */
  function Joined(v: (Byte, Byte, Byte, Byte), n: int): (b: seq<Byte>)
    ensures |b| == if n < 2 then 0 else if n > 3 then 3 else n - 1
  {
    (if n > 1 then [Join0(v.0, v.1)] else [])
    + (if n > 2 then [Join1(v.1, v.2)] else [])
    + (if n > 3 then [Join2(v.2, v.3)] else [])
  }

  predicate Bad(v: (Byte, Byte, Byte, Byte)) { v.0 == 64 || v.1 == 64 || v.2 == 64 || v.3 == 64 }

  function Prepend(b: seq<Byte>, d: Decoded): Decoded { if d.Bytes? then Bytes(b + d.b) else d }

  /** How many of the first characters are digits. */
  function Digits(t: seq<Byte>): (i: nat)
    ensures i <= |t|
  {
    if t == [] || Lookup(Standard, t[0]) == 64 then 0 else 1 + Digits(t[1..])
  }

  /** The last group, of at most four characters. */
  function Tail(t: seq<Byte>): Decoded
    requires |t| <= 4
  {
    var i := Digits(t);
    if i != |t| && t[i] != PAD then Invalid
    else
      var sz := |t| - (4 - i);
      if sz >= 0 then Bytes(Joined(Values(Standard, t), sz))
      else if |t| < 3 then Astray
      else Bytes(Joined(Values(Standard, t), 4))
  }

  function DecodedStd(t: seq<Byte>): Decoded {
    if |t| > 4 then
      if Bad(Values(Standard, t)) then Invalid else Prepend(Joined(Values(Standard, t), 4), DecodedStd(t[4..]))
    else Tail(t)
  }

  /** The last group is not checked in the URL-safe form. */
  function DecodedUrl(t: seq<Byte>): Decoded {
    if |t| > 4 then
      if Bad(Values(Url, t)) then Invalid else Prepend(Joined(Values(Url, t), 4), DecodedUrl(t[4..]))
    else Bytes(Joined(Values(Url, t), |t|))
  }

  lemma StdStep(t: seq<Byte>, i: nat, data: seq<Byte>)
    requires i + 4 < |t|
    ensures Prepend(data, DecodedStd(t[i..])) ==
              if Bad(Values(Standard, t[i..])) then Invalid
              else Prepend(data + Joined(Values(Standard, t[i..]), 4), DecodedStd(t[i + 4..]))
  {
    hide Values, Bad, Joined;
    assert t[i..][4..] == t[i + 4..];
    Regroup(data, Joined(Values(Standard, t[i..]), 4), DecodedStd(t[i + 4..]));
  }

  lemma UrlStep(t: seq<Byte>, i: nat, data: seq<Byte>)
    requires i + 4 < |t|
    ensures Prepend(data, DecodedUrl(t[i..])) ==
              if Bad(Values(Url, t[i..])) then Invalid
              else Prepend(data + Joined(Values(Url, t[i..]), 4), DecodedUrl(t[i + 4..]))
  {
    hide Values, Bad, Joined;
    assert t[i..][4..] == t[i + 4..];
    Regroup(data, Joined(Values(Url, t[i..]), 4), DecodedUrl(t[i + 4..]));
  }

  lemma Nothing(d: Decoded)
    ensures Prepend([], d) == d
  {
    if d.Bytes? { assert [] + d.b == d.b; }
  }

  lemma Regroup(x: seq<Byte>, y: seq<Byte>, d: Decoded)
    ensures Prepend(x, Prepend(y, d)) == Prepend(x + y, d)
  {
    if d.Bytes? { assert x + (y + d.b) == (x + y) + d.b; }
  }

  method Decode(t: seq<Byte>) returns (r: Decoded)
    ensures r == DecodedStd(t)
  {
    hide Lookup, Joined, Values, Bad, At, Tail;
    var data: seq<Byte> := [];
    var it, sz := 0, |t|;
    assert t[0..] == t;
    Nothing(DecodedStd(t));
    while sz > 4
      invariant 0 <= sz && 0 <= it && it + sz == |t| && Prepend(data, DecodedStd(t[it..])) == DecodedStd(t)
    {
      StdStep(t, it, data);
      var v := Values(Standard, t[it..]);
      if Bad(v) {
        return Invalid;
      }
      data := data + Joined(v, 4);
      sz, it := sz - 4, it + 4;
    }
    var last := DecodeTail(t[it..]);
    match last
    case Bytes(b) => return Bytes(data + b);
    case Invalid => return Invalid;
    case Astray => return Astray;
  }

  method DecodeTail(last: seq<Byte>) returns (r: Decoded)
    requires |last| <= 4
    ensures r == Tail(last)
  {
    hide Lookup, Joined, Values;
    NulIsNoDigit();
    var i, sz := 0, |last|;
    while At(last, i) != PAD && Lookup(Standard, At(last, i)) != 64 && i < 4
      invariant i <= |last| && Digits(last) == i + Digits(last[i..])
      decreases 4 - i
    {
      assert last[i..][0] == At(last, i) && last[i..][1..] == last[i + 1..];
      i := i + 1;
    }
    assert Digits(last) == i by {
      assert i < |last| ==> last[i..][0] == At(last, i);
    }
    if sz - i != 0 && At(last, i) != PAD {
      return Invalid;
    }
    if sz < 4 - i && sz < 3 {
      return Astray;
    }
    var n := if sz < 4 - i then 4 else sz - (4 - i);
    return Bytes(Joined(Values(Standard, last), n));
  }

  lemma NulIsNoDigit()
    ensures Lookup(Standard, 0) == 64 && Lookup(Standard, PAD) == 64
  {}

  method UrlDecode(t: seq<Byte>) returns (r: Decoded)
    ensures r == DecodedUrl(t)
  {
    hide Lookup, Joined, Values, Bad, At, Tail;
    var data: seq<Byte> := [];
    var it, sz := 0, |t|;
    assert t[0..] == t;
    Nothing(DecodedUrl(t));
    while sz > 4
      invariant 0 <= sz && 0 <= it && it + sz == |t| && Prepend(data, DecodedUrl(t[it..])) == DecodedUrl(t)
    {
      UrlStep(t, it, data);
      var v := Values(Url, t[it..]);
      if Bad(v) {
        return Invalid;
      }
      data := data + Joined(v, 4);
      sz, it := sz - 4, it + 4;
    }
    return Bytes(data + Joined(Values(Url, t[it..]), sz));
  }

  // ---------- Round trips ----------

  lemma QuadValues(a: Alphabet, x: Byte, y: Byte, z: Byte, rest: seq<Byte>)
    ensures var v := Values(a, Quad(a, x, y, z) + rest);
            v == (Six0(x), Six1(x, y), Six2(y, z), Six3(z)) && !Bad(v) && Joined(v, 4) == [x, y, z]
  {
    hide Six0, Six1, Six2, Six3, Glyph, Lookup, Join0, Join1, Join2;
    SixesSmall(x, y, z);
    LookupGlyph(a, Six0(x));
    LookupGlyph(a, Six1(x, y));
    LookupGlyph(a, Six2(y, z));
    LookupGlyph(a, Six3(z));
    JoinSix(x, y, z);
  }

  /** The digits at the front of a text, from how it starts. */
  lemma DigitsOf(t: seq<Byte>, i: nat)
    requires i <= |t| && forall j :: 0 <= j < i ==> Lookup(Standard, t[j]) != 64
    requires i < |t| ==> t[i] == PAD
    ensures Digits(t) == i
  {
    hide Lookup;
    NulIsNoDigit();
    if i > 0 {
      DigitsOf(t[1..], i - 1);
    }
  }

  /** The last group of the standard form. */
  lemma StdTail(b: seq<Byte>)
    requires 0 < |b| <= 3
    ensures |Encoded(Standard, b)| == 4 && Tail(Encoded(Standard, b)) == Bytes(b)
  {
    hide Six0, Six1, Six2, Six3, Glyph, Lookup, Join0, Join1, Join2, Digits;
    hide Values, Joined, Tail;
    if |b| == 1 {
      TailOne(b[0]);
      assert b == [b[0]];
    } else if |b| == 2 {
      TailTwo(b[0], b[1]);
      assert b == [b[0], b[1]];
    } else {
      TailThree(b[0], b[1], b[2]);
      assert b == [b[0], b[1], b[2]];
      assert b[3..] == [] && Encoded(Standard, b[3..]) == [];
    }
  }

  lemma TailOne(x: Byte)
    ensures Tail([Glyph(Standard, Six0(x)), Glyph(Standard, Six1(x, 0))] + [PAD, PAD]) == Bytes([x])
  {
    hide Six0, Six1, Six2, Six3, Glyph, Lookup, Join0, Join1, Join2, Digits;
    var t := [Glyph(Standard, Six0(x)), Glyph(Standard, Six1(x, 0))] + [PAD, PAD];
    SixesSmall(x, 0, 0);
    LookupGlyph(Standard, Six0(x));
    LookupGlyph(Standard, Six1(x, 0));
    JoinSix(x, 0, 0);
    DigitsOf(t, 2);
  }

  lemma TailTwo(x: Byte, y: Byte)
    ensures Tail([Glyph(Standard, Six0(x)), Glyph(Standard, Six1(x, y)), Glyph(Standard, Six2(y, 0))] + [PAD]) ==
            Bytes([x, y])
  {
    hide Six0, Six1, Six2, Six3, Glyph, Lookup, Join0, Join1, Join2, Digits;
    var t := [Glyph(Standard, Six0(x)), Glyph(Standard, Six1(x, y)), Glyph(Standard, Six2(y, 0))] + [PAD];
    SixesSmall(x, y, 0);
    LookupGlyph(Standard, Six0(x));
    LookupGlyph(Standard, Six1(x, y));
    LookupGlyph(Standard, Six2(y, 0));
    JoinSix(x, y, 0);
    DigitsOf(t, 3);
  }

  lemma TailThree(x: Byte, y: Byte, z: Byte)
    ensures Tail(Quad(Standard, x, y, z) + []) == Bytes([x, y, z])
  {
    hide Six0, Six1, Six2, Six3, Glyph, Lookup, Digits, Joined, Values, Join0, Join1, Join2;
    var t := Quad(Standard, x, y, z) + [];
    QuadValues(Standard, x, y, z, []);
    SixesSmall(x, y, z);
    LookupGlyph(Standard, Six0(x));
    LookupGlyph(Standard, Six1(x, y));
    LookupGlyph(Standard, Six2(y, z));
    LookupGlyph(Standard, Six3(z));
    DigitsOf(t, 4);
  }

  /** Decoding gives back every encoded byte string but the empty one, whose decoding goes astray. */
  lemma {:induction false} StdRoundTrip(b: seq<Byte>)
    ensures DecodedStd(Encoded(Standard, b)) == if b == [] then Astray else Bytes(b)
  {
    hide Six0, Six1, Six2, Six3, Glyph, Lookup, Quad, Values, Joined;
    if |b| > 3 {
      var rest := Encoded(Standard, b[3..]);
      EncodedLength(Standard, b[3..]);
      QuadValues(Standard, b[0], b[1], b[2], rest);
      StdRoundTrip(b[3..]);
      assert |Quad(Standard, b[0], b[1], b[2])| == 4 by { QuadLength(Standard, b[0], b[1], b[2]); }
      assert (Quad(Standard, b[0], b[1], b[2]) + rest)[4..] == rest;
      assert [b[0], b[1], b[2]] + b[3..] == b;
    } else if b != [] {
      StdTail(b);
    } else {
      NulIsNoDigit();
    }
  }

  lemma QuadLength(a: Alphabet, x: Byte, y: Byte, z: Byte)
    ensures |Quad(a, x, y, z)| == 4
  {}

  lemma UrlTail(b: seq<Byte>)
    requires |b| <= 3
    ensures var t := Encoded(Url, b); |t| <= 4 && Joined(Values(Url, t), |t|) == b
  {
    hide Six0, Six1, Six2, Six3, Glyph, Lookup, Join0, Join1, Join2;
    if b != [] {
      var x, y, z := b[0], if |b| > 1 then b[1] else 0, if |b| > 2 then b[2] else 0;
      SixesSmall(x, y, z);
      LookupGlyph(Url, Six0(x));
      LookupGlyph(Url, Six1(x, y));
      LookupGlyph(Url, Six2(y, z));
      LookupGlyph(Url, Six3(z));
      JoinSix(x, y, z);
      if |b| == 3 { assert Encoded(Url, b[3..]) == []; }
    }
  }

  /** The URL-safe form gives back every byte string. */
  lemma {:induction false} UrlRoundTrip(b: seq<Byte>)
    ensures DecodedUrl(Encoded(Url, b)) == Bytes(b)
  {
    hide Six0, Six1, Six2, Six3, Glyph, Lookup, Quad, Values, Joined;
    if |b| > 3 {
      var rest := Encoded(Url, b[3..]);
      EncodedLength(Url, b[3..]);
      QuadValues(Url, b[0], b[1], b[2], rest);
      UrlRoundTrip(b[3..]);
      QuadLength(Url, b[0], b[1], b[2]);
      assert (Quad(Url, b[0], b[1], b[2]) + rest)[4..] == rest;
      assert [b[0], b[1], b[2]] + b[3..] == b;
    } else {
      UrlTail(b);
    }
  }

  /** Different byte strings have different texts. */
  lemma EncodedInjective(a: Alphabet, b: seq<Byte>, c: seq<Byte>)
    requires Encoded(a, b) == Encoded(a, c)
    ensures b == c
  {
    if a.Standard? {
      StdRoundTrip(b);
      StdRoundTrip(c);
    } else {
      UrlRoundTrip(b);
      UrlRoundTrip(c);
    }
  }

  // ---------- Which texts are encodings ----------

  /** Letters, digits, plus and solidus. */
  predicate IsDigit(c: Byte) { 65 <= c <= 90 || 97 <= c <= 122 || 48 <= c <= 57 || c == 43 || c == 47 }

  /** A last group of four characters: digits, with at most two padding signs and no stray low bits. */
  predicate CanonicalEnd(t: seq<Byte>)
    requires |t| == 4
  {
    && IsDigit(t[0]) && IsDigit(t[1])
    && (IsDigit(t[2]) || (t[2] == PAD && t[3] == PAD && Lookup(Standard, t[1]) & 0x0F == 0))
    && (IsDigit(t[3]) || (t[3] == PAD && (IsDigit(t[2]) ==> Lookup(Standard, t[2]) & 0x03 == 0)))
  }

  predicate Canonical(t: seq<Byte>) {
    if |t| > 4 then IsDigit(t[0]) && IsDigit(t[1]) && IsDigit(t[2]) && IsDigit(t[3]) && Canonical(t[4..])
    else |t| == 0 || (|t| == 4 && CanonicalEnd(t))
  }

  lemma SixesCanonical(x: Byte, y: Byte, z: Byte)
    ensures IsDigit(Glyph(Standard, Six0(x))) && IsDigit(Glyph(Standard, Six1(x, y)))
    ensures IsDigit(Glyph(Standard, Six2(y, z))) && IsDigit(Glyph(Standard, Six3(z)))
    ensures Lookup(Standard, Glyph(Standard, Six1(x, 0))) & 0x0F == 0
    ensures Lookup(Standard, Glyph(Standard, Six2(y, 0))) & 0x03 == 0
  {
    SixesSmall(x, y, z);
    SixesSmall(x, 0, 0);
    SixesSmall(0, y, 0);
    LowZero(x);
    LowZero(y);
    hide Six0, Six1, Six2, Six3, Glyph, Lookup;
    LookupGlyph(Standard, Six0(x));
    LookupGlyph(Standard, Six1(x, y));
    LookupGlyph(Standard, Six2(y, z));
    LookupGlyph(Standard, Six3(z));
    LookupGlyph(Standard, Six1(x, 0));
    LookupGlyph(Standard, Six2(y, 0));
    DigitIs(Glyph(Standard, Six0(x)));
    DigitIs(Glyph(Standard, Six1(x, y)));
    DigitIs(Glyph(Standard, Six2(y, z)));
    DigitIs(Glyph(Standard, Six3(z)));
  }

  lemma LowZero(x: Byte)
    ensures Six1(x, 0) & 0x0F == 0 && Six2(x, 0) & 0x03 == 0
  {}

  lemma {:induction false} EncodedCanonical(b: seq<Byte>)
    ensures Canonical(Encoded(Standard, b))
  {
    hide Six0, Six1, Six2, Six3, Glyph, Lookup, IsDigit;
    NulIsNoDigit();
    var x, y, z := if |b| > 0 then b[0] else 0, if |b| > 1 then b[1] else 0, if |b| > 2 then b[2] else 0;
    SixesCanonical(x, y, z);
    if |b| >= 3 {
      EncodedCanonical(b[3..]);
      EncodedLength(Standard, b[3..]);
      assert Encoded(Standard, b)[4..] == Encoded(Standard, b[3..]);
    } else if |b| == 2 {
      PadIsNoDigit();
    } else if |b| == 1 {
      PadIsNoDigit();
    }
  }

  lemma PadIsNoDigit()
    ensures !IsDigit(PAD)
  {}

  /** Four digits are the encoding of the three bytes they join to. */
  lemma QuadOf(t: seq<Byte>)
    requires |t| >= 4 && IsDigit(t[0]) && IsDigit(t[1]) && IsDigit(t[2]) && IsDigit(t[3])
    ensures var v := Values(Standard, t);
            !Bad(v) && Quad(Standard, Join0(v.0, v.1), Join1(v.1, v.2), Join2(v.2, v.3)) == t[..4]
  {
    hide Six0, Six1, Six2, Six3, Glyph, Lookup, Join0, Join1, Join2;
    var v := Values(Standard, t);
    DigitIs(t[0]);
    DigitIs(t[1]);
    DigitIs(t[2]);
    DigitIs(t[3]);
    GlyphLookup(t[0]);
    GlyphLookup(t[1]);
    GlyphLookup(t[2]);
    GlyphLookup(t[3]);
    SixJoin(v.0, v.1, v.2, v.3);
  }

  lemma EndTwo(t: seq<Byte>)
    requires |t| == 4 && CanonicalEnd(t) && !IsDigit(t[2])
    ensures Tail(t).Bytes? && Tail(t).b != [] && Encoded(Standard, Tail(t).b) == t
  {
    hide Six0, Six1, Six2, Six3, Glyph, Lookup, Join0, Join1, Join2, Digits;
    var v := Values(Standard, t);
    PadIsNoDigit();
    DigitIs(t[0]);
    GlyphLookup(t[0]);
    DigitIs(t[1]);
    GlyphLookup(t[1]);
    DigitsOf(t, 2);
    SixJoin(v.0, v.1, 0, 0);
  }

  lemma EndThree(t: seq<Byte>)
    requires |t| == 4 && CanonicalEnd(t) && IsDigit(t[2]) && !IsDigit(t[3])
    ensures Tail(t).Bytes? && Tail(t).b != [] && Encoded(Standard, Tail(t).b) == t
  {
    hide Six0, Six1, Six2, Six3, Glyph, Lookup, Join0, Join1, Join2, Digits;
    var v := Values(Standard, t);
    DigitIs(t[0]);
    GlyphLookup(t[0]);
    DigitIs(t[1]);
    GlyphLookup(t[1]);
    DigitIs(t[2]);
    GlyphLookup(t[2]);
    DigitsOf(t, 3);
    SixJoin(v.0, v.1, v.2, 0);
  }

  lemma EndFour(t: seq<Byte>)
    requires |t| == 4 && IsDigit(t[0]) && IsDigit(t[1]) && IsDigit(t[2]) && IsDigit(t[3])
    ensures Tail(t).Bytes? && Tail(t).b != [] && Encoded(Standard, Tail(t).b) == t
  {
    hide Six0, Six1, Six2, Six3, Glyph, Lookup, Join0, Join1, Join2, Digits, Values, Quad;
    DigitIs(t[0]);
    DigitIs(t[1]);
    DigitIs(t[2]);
    DigitIs(t[3]);
    forall j | 0 <= j < 4 ensures Lookup(Standard, t[j]) != 64 { assert j == 0 || j == 1 || j == 2 || j == 3; }
    DigitsOf(t, 4);
    QuadOf(t);
    var b := Tail(t).b;
    assert b[3..] == [] && t[..4] == t;
    assert Encoded(Standard, b) == Quad(Standard, b[0], b[1], b[2]) + Encoded(Standard, b[3..]);
  }

  lemma EndDecodes(t: seq<Byte>)
    requires |t| == 4 && CanonicalEnd(t)
    ensures Tail(t).Bytes? && Tail(t).b != [] && Encoded(Standard, Tail(t).b) == t
  {
    hide IsDigit, Tail, Encoded;
    PadIsNoDigit();
    if !IsDigit(t[2]) {
      EndTwo(t);
    } else if !IsDigit(t[3]) {
      EndThree(t);
    } else {
      EndFour(t);
    }
  }

  lemma {:induction false} CanonicalDecodes(t: seq<Byte>)
    requires Canonical(t) && t != []
    ensures DecodedStd(t).Bytes? && DecodedStd(t).b != [] && Encoded(Standard, DecodedStd(t).b) == t
  {
    hide Six0, Six1, Six2, Six3, Glyph, Lookup, Join0, Join1, Join2, CanonicalEnd, IsDigit, Quad, Values, Bad, Tail,
         Encoded;
    if |t| > 4 {
      CanonicalDecodes(t[4..]);
      QuadOf(t);
      var v, more := Values(Standard, t), DecodedStd(t[4..]).b;
      var b := DecodedStd(t).b;
      assert b == [Join0(v.0, v.1), Join1(v.1, v.2), Join2(v.2, v.3)] + more;
      assert b[0..] == b && b[3..] == more;
      EncodedStep(Standard, b, 0);
      assert t == t[..4] + t[4..];
    } else {
      EndDecodes(t);
    }
  }

  /** Encoding undoes decoding on exactly the canonical texts; other accepted texts have unused low bits or
      unread padding that decoding drops. */
  lemma CanonicalIff(t: seq<Byte>)
    requires t != []
    ensures DecodedStd(t).Bytes? && Encoded(Standard, DecodedStd(t).b) == t <==> Canonical(t)
  {
    if Canonical(t) {
      CanonicalDecodes(t);
    }
    if DecodedStd(t).Bytes? {
      EncodedCanonical(DecodedStd(t).b);
    }
  }

  /** What decoding produces fits the space reserved for it. */
  lemma {:induction false} DecodedFits(t: seq<Byte>)
    ensures DecodedStd(t).Bytes? ==> |DecodedStd(t).b| <= |t| / 4 * 3 + 4
    ensures DecodedUrl(t).Bytes? ==> |DecodedUrl(t).b| <= |t| / 4 * 3 + 4
  {
    hide Values, Bad, Digits, Joined;
    if |t| > 4 {
      DecodedFits(t[4..]);
      assert |t[4..]| / 4 == |t| / 4 - 1;
    }
  }

  // ---------- The alphabets ----------

  /** Tables 1 and 2 of RFC 4648, in runs. */
  const RUNS: string := "ABCDEFGHIJKLMNOPQRSTUVWXYZ" + "abcdefghijklmnopqrstuvwxyz" + "0123456789"

  /** The character for each value is that of the table, and padding is the equals sign. */
  lemma AlphabetIs(a: Alphabet, v: Byte)
    requires v < 64
    ensures |RUNS| == 62
    ensures v < 62 ==> Glyph(a, v) as int == RUNS[v as int] as int
    ensures Glyph(Standard, 62) as int == '+' as int && Glyph(Standard, 63) as int == '/' as int
    ensures Glyph(Url, 62) as int == '-' as int && Glyph(Url, 63) as int == '_' as int
    ensures PAD as int == '=' as int
  {
    var n, x, y, z := v as int, "ABCDEFGHIJKLMNOPQRSTUVWXYZ", "abcdefghijklmnopqrstuvwxyz", "0123456789";
    if n < 26 {
      assert RUNS[n] == x[n];
      UpperRun(n);
    } else if n < 52 {
      assert RUNS[n] == y[n - 26];
      LowerRun(n - 26);
    } else if n < 62 {
      assert RUNS[n] == z[n - 52];
    }
  }

  lemma UpperRun(n: nat)
    requires n < 26
    ensures "ABCDEFGHIJKLMNOPQRSTUVWXYZ"[n] as int == 65 + n
  {}

  lemma LowerRun(n: nat)
    requires n < 26
    ensures "abcdefghijklmnopqrstuvwxyz"[n] as int == 97 + n
  {}

  /** Some of the test vectors of section 10 of RFC 4648, and the two signs in which the forms differ. */
  lemma TestVectors()
    ensures Encoded(Standard, [0x66]) == [0x5A, 0x67, 0x3D, 0x3D]                       // f, Zg==
    ensures Encoded(Standard, [0x66, 0x6F]) == [0x5A, 0x6D, 0x38, 0x3D]                 // fo, Zm8=
    ensures Encoded(Standard, [0x66, 0x6F, 0x6F]) == [0x5A, 0x6D, 0x39, 0x76]           // foo, Zm9v
    ensures Encoded(Url, [0x66]) == [0x5A, 0x67] && Encoded(Url, [0x66, 0x6F]) == [0x5A, 0x6D, 0x38]
    ensures Encoded(Standard, [0xFB, 0xEF, 0xFF]) == [0x2B, 0x2B, 0x2F, 0x2F]           // ++//
    ensures Encoded(Url, [0xFB, 0xEF, 0xFF]) == [0x2D, 0x2D, 0x5F, 0x5F]                // --__
  {
    assert [0x66, 0x6F, 0x6F][3..] == [] && [0xFB, 0xEF, 0xFF][3..] == [];
  }

  // ---------- Which texts are refused ----------

  /** In the URL-safe form also minus and underscore. */
  predicate UrlDigit(c: Byte) { IsDigit(c) || c == 45 || c == 95 }

  lemma DigitIs(c: Byte)
    ensures Lookup(Standard, c) != 64 <==> IsDigit(c)
    ensures Lookup(Url, c) != 64 <==> UrlDigit(c)
  {}

  /** Where the last group of a text begins; it has one to four characters, or none in an empty text. */
  function LastGroup(t: seq<Byte>): (i: nat)
    ensures i <= |t|
  {
    if |t| <= 4 then 0 else 4 + LastGroup(t[4..])
  }

  lemma {:induction false} LastGroupIs(t: seq<Byte>)
    ensures LastGroup(t) % 4 == 0 && |t| - LastGroup(t) <= 4 && (t != [] ==> LastGroup(t) < |t|)
  {
    if |t| > 4 { LastGroupIs(t[4..]); }
  }

  /** A character that makes the standard form refuse the text: no digit, in a group before the last one; or the first
      that is no digit of the last group, when it is no padding. */
  predicate Refuses(t: seq<Byte>, i: nat) {
    i < |t| && !IsDigit(t[i])
    && (i >= LastGroup(t) ==> t[i] != 0x3D && forall j :: LastGroup(t) <= j < i ==> IsDigit(t[j]))
  }

  /** The standard form refuses a text exactly when it has such a character; padding ends the digits of the last group,
      and nothing behind it is looked at. */
  lemma {:induction false} InvalidIff(t: seq<Byte>)
    ensures DecodedStd(t).Invalid? <==> exists i: nat :: Refuses(t, i)
    decreases |t|
  {
    hide Lookup, Joined, IsDigit, Tail;
    if |t| > 4 {
      DigitIs(t[0]);
      DigitIs(t[1]);
      DigitIs(t[2]);
      DigitIs(t[3]);
      InvalidIff(t[4..]);
      LastGroupIs(t[4..]);
      if i: nat :| Refuses(t[4..], i) { assert Refuses(t, i + 4) by { Later(t, i); } }
      if i: nat :| Refuses(t, i) {
        if i >= 4 { Later(t, i - 4); } else { assert i == 0 || i == 1 || i == 2 || i == 3; }
      }
      if Bad(Values(Standard, t)) {
        var k := if !IsDigit(t[0]) then 0 else if !IsDigit(t[1]) then 1 else if !IsDigit(t[2]) then 2 else 3;
        assert Refuses(t, k);
      }
    } else {
      TailInvalidIff(t);
    }
  }

  lemma Later(t: seq<Byte>, i: nat)
    requires |t| > 4
    ensures Refuses(t, i + 4) <==> Refuses(t[4..], i)
  {
    hide IsDigit;
    var l := LastGroup(t[4..]);
    if i + 4 < |t| {
      assert t[4..][i] == t[i + 4];
      assert forall j :: l <= j < i ==> t[4..][j] == t[j + 4];
      if forall j :: l + 4 <= j < i + 4 ==> IsDigit(t[j]) {
        forall j | l <= j < i ensures IsDigit(t[4..][j]) { assert t[4..][j] == t[j + 4]; }
      }
      if forall j :: l <= j < i ==> IsDigit(t[4..][j]) {
        forall j | l + 4 <= j < i + 4 ensures IsDigit(t[j]) { assert t[4..][j - 4] == t[j]; }
      }
    }
  }

  lemma TailInvalidIff(t: seq<Byte>)
    requires |t| <= 4
    ensures Tail(t).Invalid? <==> exists i: nat :: Refuses(t, i)
  {
    hide Lookup, Joined, IsDigit;
    var k := Digits(t);
    DigitsEnd(t);
    if k < |t| && t[k] != PAD { assert Refuses(t, k); }
    if i: nat :| Refuses(t, i) {
      assert i == k;
    }
  }

  lemma {:induction false} DigitsEnd(t: seq<Byte>)
    ensures var k := Digits(t); (forall j :: 0 <= j < k ==> IsDigit(t[j])) && (k < |t| ==> !IsDigit(t[k]))
  {
    hide Lookup, IsDigit;
    if t != [] {
      DigitIs(t[0]);
      DigitsEnd(t[1..]);
      forall j | 0 <= j < Digits(t) ensures IsDigit(t[j]) { if j > 0 { assert t[j] == t[1..][j - 1]; } }
    }
  }

  /** The URL-safe form refuses a text exactly when a group before the last one has a character that is no digit. */
  lemma {:induction false} UrlInvalidIff(t: seq<Byte>)
    ensures DecodedUrl(t).Invalid? <==> exists i :: 0 <= i < LastGroup(t) && !UrlDigit(t[i])
    ensures !DecodedUrl(t).Astray?
    decreases |t|
  {
    hide Lookup, Joined, UrlDigit;
    if |t| > 4 {
      DigitIs(t[0]);
      DigitIs(t[1]);
      DigitIs(t[2]);
      DigitIs(t[3]);
      UrlInvalidIff(t[4..]);
      if i :| 0 <= i < LastGroup(t[4..]) && !UrlDigit(t[4..][i]) { assert t[4..][i] == t[i + 4]; }
      if i :| 0 <= i < LastGroup(t) && !UrlDigit(t[i]) {
        if i >= 4 { assert t[4..][i - 4] == t[i]; }
      }
    }
  }
}
