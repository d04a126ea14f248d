/**
 The UTF-8 and UTF-16 codecs of the JSON library, bit for bit: the byte-pattern validator,
 the reader, the writer and the surrogate helpers (sections 3 and 4 of RFC 3629).
 A C string is the sequence of its bytes; its end is the terminating NUL.
 */
module JsonUtf8 {
  import opened Options

  type Byte = bv8
  type Text = seq<Byte>
  type CodePoint = bv32

  /** The byte at offset `i`, the terminator at and beyond the end. */
  function At(s: Text, i: nat): Byte { if i < |s| then s[i] else 0 }

  predicate IsContinuation(b: Byte) { b & 0xC0 == 0x80 }

  /** The length of the valid UTF-8 character that starts with these bytes, or 0. */
  function CharLength(c0: Byte, c1: Byte, c2: Byte, c3: Byte): (n: nat)
    ensures n <= 4
  {
    if c0 <= 0x7F then 1
    else if c0 <= 0xC1 then 0
    else if c0 <= 0xDF then
      if !IsContinuation(c1) then 0 else 2
    else if c0 <= 0xEF then
      if c0 == 0xE0 && c1 < 0xA0 then 0
      else if c0 == 0xED && c1 > 0x9F then 0
      else if !IsContinuation(c1) then 0
      else if !IsContinuation(c2) then 0
      else 3
    else if c0 <= 0xF4 then
      if c0 == 0xF0 && c1 < 0x90 then 0
      else if c0 == 0xF4 && c1 > 0x8F then 0
      else if !IsContinuation(c1) then 0
      else if !IsContinuation(c2) then 0
      else if !IsContinuation(c3) then 0
      else 4
    else 0
  }

  /** The length of the valid UTF-8 character at the start of `s`, or 0. */
  function ValidateChar(s: Text): (n: nat)
    ensures n <= 4
  {
    CharLength(At(s, 0), At(s, 1), At(s, 2), At(s, 3))
  }

  /** A valid character lies inside the string: no continuation byte is the terminator. */
  lemma ValidateCharInside(s: Text)
    requires s != []
    ensures ValidateChar(s) <= |s|
  {
    assert !IsContinuation(0);
  }

  /** Whether a whole string is valid UTF-8. */
  predicate Validate(s: Text)
    decreases |s|
  {
    s == [] || (
      var n := ValidateChar(s);
      n != 0 && n <= |s| && Validate(s[n..]))
  }

  predicate IsScalar(u: CodePoint) { u <= 0x10FFFF && !(0xD800 <= u <= 0xDFFF) }

  function Join2(a: bv32, b: bv32): bv32 { (a << 6) | b }
  function Join3(a: bv32, b: bv32, c: bv32): bv32 { (a << 12) | (b << 6) | c }
  function Join4(a: bv32, b: bv32, c: bv32, d: bv32): bv32 { (a << 18) | (b << 12) | (c << 6) | d }

  /** The code point spelled by the bytes of a valid character. */
  function CharCode(b0: Byte, b1: Byte, b2: Byte, b3: Byte): CodePoint {
    var c0, c1, c2, c3 := b0 as bv32, b1 as bv32, b2 as bv32, b3 as bv32;
    if b0 <= 0x7F then c0
    else if b0 <= 0xDF then Join2(c0 & 0x1F, c1 & 0x3F)
    else if b0 <= 0xEF then Join3(c0 & 0xF, c1 & 0x3F, c2 & 0x3F)
    else Join4(c0 & 0x7, c1 & 0x3F, c2 & 0x3F, c3 & 0x3F)
  }

  /** The code point of the character at the start of `s` and its length; refuses invalid input. */
  function ReadChar(s: Text): Option<(CodePoint, nat)> {
    var n := ValidateChar(s);
    if n == 0 then None else Some((CharCode(At(s, 0), At(s, 1), At(s, 2), At(s, 3)), n))
  }

  function Low(u: CodePoint): Byte { (u & 0xFF) as bv8 }

  /** The bytes of a code point; refuses surrogates and numbers beyond U+10FFFF. */
  function WriteChar(u: CodePoint): (r: Option<Text>)
    ensures r.Some? <==> IsScalar(u)
  {
    if !IsScalar(u) then None
    else if u <= 0x7F then Some([Low(u)])
    else if u <= 0x7FF then Some([Low(0xC0 | (u >> 6)), Low(0x80 | (u & 0x3F))])
    else if u <= 0xFFFF then Some([Low(0xE0 | (u >> 12)), Low(0x80 | ((u >> 6) & 0x3F)), Low(0x80 | (u & 0x3F))])
    else Some([Low(0xF0 | (u >> 18)), Low(0x80 | ((u >> 12) & 0x3F)), Low(0x80 | ((u >> 6) & 0x3F)),
               Low(0x80 | (u & 0x3F))])
  }

  /** The reader inverts the writer on every scalar value, whatever follows. */
  lemma ReadWritten(u: CodePoint, rest: Text)
    requires IsScalar(u)
    ensures var w := WriteChar(u).value;
            ValidateChar(w + rest) == |w| && ReadChar(w + rest) == Some((u, |w|))
  {
    hide CharLength, CharCode;
    var w := WriteChar(u).value;
    var s := w + rest;
    assert forall i :: 0 <= i < |w| ==> At(s, i) == w[i];
    if u <= 0x7F { Written1(u, At(s, 1), At(s, 2), At(s, 3)); }
    else if u <= 0x7FF { Written2(u, At(s, 2), At(s, 3)); }
    else if u <= 0xFFFF { Written3Length(u, At(s, 3)); Written3Code(u, At(s, 3)); }
    else { Written4Length(u); Written4Code(u); }
  }

  lemma Written1(u: CodePoint, c1: Byte, c2: Byte, c3: Byte)
    requires u <= 0x7F
    ensures CharLength(Low(u), c1, c2, c3) == 1 && CharCode(Low(u), c1, c2, c3) == u
  {}

  lemma Written2(u: CodePoint, c2: Byte, c3: Byte)
    requires 0x7F < u <= 0x7FF
    ensures var b0, b1 := Low(0xC0 | (u >> 6)), Low(0x80 | (u & 0x3F));
            CharLength(b0, b1, c2, c3) == 2 && CharCode(b0, b1, c2, c3) == u
  {}

  lemma Written3Length(u: CodePoint, c3: Byte)
    requires 0x7FF < u <= 0xFFFF && IsScalar(u)
    ensures CharLength(Low(0xE0 | (u >> 12)), Low(0x80 | ((u >> 6) & 0x3F)), Low(0x80 | (u & 0x3F)), c3) == 3
  {}

  lemma Written3Code(u: CodePoint, c3: Byte)
    requires 0x7FF < u <= 0xFFFF
    ensures CharCode(Low(0xE0 | (u >> 12)), Low(0x80 | ((u >> 6) & 0x3F)), Low(0x80 | (u & 0x3F)), c3) == u
  {}

  lemma Written4Length(u: CodePoint)
    requires 0xFFFF < u <= 0x10FFFF
    ensures CharLength(Low(0xF0 | (u >> 18)), Low(0x80 | ((u >> 12) & 0x3F)), Low(0x80 | ((u >> 6) & 0x3F)),
                       Low(0x80 | (u & 0x3F))) == 4
  {
    var b0, b1 := Low(0xF0 | (u >> 18)), Low(0x80 | ((u >> 12) & 0x3F));
    assert 0xEF < b0 <= 0xF4 && IsContinuation(b1);
    assert !(b0 == 0xF0 && b1 < 0x90);
    assert !(b0 == 0xF4 && b1 > 0x8F);
    Continues(u);
    Continues(u >> 6);
  }

  lemma Continues(u: CodePoint)
    ensures IsContinuation(Low(0x80 | (u & 0x3F))) && (Low(0x80 | (u & 0x3F)) as bv32) & 0x3F == u & 0x3F
  {}

  lemma Lead4(u: CodePoint)
    requires 0xFFFF < u <= 0x10FFFF
    ensures var b0 := Low(0xF0 | (u >> 18)); b0 > 0xEF && (b0 as bv32) & 0x7 == u >> 18
  {}

  lemma Written4Code(u: CodePoint)
    requires 0xFFFF < u <= 0x10FFFF
    ensures CharCode(Low(0xF0 | (u >> 18)), Low(0x80 | ((u >> 12) & 0x3F)), Low(0x80 | ((u >> 6) & 0x3F)),
                     Low(0x80 | (u & 0x3F))) == u
  {
    hide Low, IsContinuation, Join4;
    Continues(u >> 12);
    Continues(u >> 6);
    Continues(u);
    Lead4(u);
    Reassembled(u);
  }

  lemma Reassembled(u: CodePoint)
    requires u <= 0x10FFFF
    ensures Join4(u >> 18, (u >> 12) & 0x3F, (u >> 6) & 0x3F, u & 0x3F) == u
  {}

  /** What the validator accepts is exactly what the writer produces: the character read is a
      scalar value, and writing it gives the accepted bytes back. */
  lemma ValidIsWritten(s: Text)
    requires s != [] && ValidateChar(s) != 0
    ensures var (u, n) := ReadChar(s).value;
            n == ValidateChar(s) <= |s| && IsScalar(u) && WriteChar(u) == Some(s[..n])
  {
    hide CharCode, WriteChar;
    ValidateCharInside(s);
    var n := ValidateChar(s);
    if n == 1 { Accepted1(At(s, 0), At(s, 1), At(s, 2), At(s, 3)); assert s[..1] == [s[0]]; }
    else if n == 2 { Accepted2(At(s, 0), At(s, 1), At(s, 2), At(s, 3)); assert s[..2] == [s[0], s[1]]; }
    else if n == 3 { Accepted3(At(s, 0), At(s, 1), At(s, 2), At(s, 3)); assert s[..3] == [s[0], s[1], s[2]]; }
    else { Accepted4(At(s, 0), At(s, 1), At(s, 2), At(s, 3)); assert s[..4] == [s[0], s[1], s[2], s[3]]; }
  }

  lemma Accepted1(c0: Byte, c1: Byte, c2: Byte, c3: Byte)
    requires CharLength(c0, c1, c2, c3) == 1
    ensures WriteChar(CharCode(c0, c1, c2, c3)) == Some([c0])
  {}

  /** The six-bit pieces of a number can be told apart again. */
  lemma Pieces3(a: bv32, b: bv32, c: bv32)
    requires a < 0x10 && b < 0x40 && c < 0x40
    ensures var u := Join3(a, b, c);
            u <= 0xFFFF && u >> 12 == a && (u >> 6) & 0x3F == b && u & 0x3F == c
  {}

  lemma Pieces4(a: bv32, b: bv32, c: bv32, d: bv32)
    requires a < 0x8 && b < 0x40 && c < 0x40 && d < 0x40
    ensures var u := Join4(a, b, c, d);
            u >> 18 == a && (u >> 12) & 0x3F == b && (u >> 6) & 0x3F == c && u & 0x3F == d
  {}

  lemma Payload(c: Byte)
    requires IsContinuation(c)
    ensures (c as bv32) & 0x3F < 0x40 && Low(0x80 | ((c as bv32) & 0x3F)) == c
  {}

  lemma Range3(c0: Byte, c1: Byte, c2: Byte, c3: Byte)
    requires CharLength(c0, c1, c2, c3) == 3
    ensures var u := Join3((c0 as bv32) & 0xF, (c1 as bv32) & 0x3F, (c2 as bv32) & 0x3F);
            u > 0x7FF && !(0xD800 <= u <= 0xDFFF)
    ensures (c0 as bv32) & 0xF < 0x10 && Low(0xE0 | ((c0 as bv32) & 0xF)) == c0
  {}

  lemma Range4(c0: Byte, c1: Byte, c2: Byte, c3: Byte)
    requires CharLength(c0, c1, c2, c3) == 4
    ensures (c0 as bv32) & 0x7 < 0x8 && Low(0xF0 | ((c0 as bv32) & 0x7)) == c0
    ensures 0x10 <= Join2((c0 as bv32) & 0x7, (c1 as bv32) & 0x3F) <= 0x10F
  {}

  lemma Range4Whole(a: bv32, b: bv32, c: bv32, d: bv32)
    requires a < 0x8 && b < 0x40 && c < 0x40 && d < 0x40
    requires 0x10 <= Join2(a, b) <= 0x10F
    ensures 0xFFFF < Join4(a, b, c, d) <= 0x10FFFF
  {}

  lemma WriteOf3(u: CodePoint, c0: Byte, c1: Byte, c2: Byte)
    requires 0x7FF < u <= 0xFFFF && IsScalar(u)
    requires c0 == Low(0xE0 | (u >> 12)) && c1 == Low(0x80 | ((u >> 6) & 0x3F)) && c2 == Low(0x80 | (u & 0x3F))
    ensures WriteChar(u) == Some([c0, c1, c2])
  {}

  lemma WriteOf4(u: CodePoint, c0: Byte, c1: Byte, c2: Byte, c3: Byte)
    requires 0xFFFF < u <= 0x10FFFF
    requires c0 == Low(0xF0 | (u >> 18)) && c1 == Low(0x80 | ((u >> 12) & 0x3F))
    requires c2 == Low(0x80 | ((u >> 6) & 0x3F)) && c3 == Low(0x80 | (u & 0x3F))
    ensures WriteChar(u) == Some([c0, c1, c2, c3])
  {}

  lemma Continuations(c0: Byte, c1: Byte, c2: Byte, c3: Byte)
    ensures CharLength(c0, c1, c2, c3) == 3 ==> 0xDF < c0 <= 0xEF && IsContinuation(c1) && IsContinuation(c2)
    ensures CharLength(c0, c1, c2, c3) == 4 ==>
              0xEF < c0 && IsContinuation(c1) && IsContinuation(c2) && IsContinuation(c3)
  {}

  lemma Lead2(c0: Byte, c1: Byte)
    requires 0xC1 < c0 <= 0xDF && IsContinuation(c1)
    ensures var u := Join2((c0 as bv32) & 0x1F, (c1 as bv32) & 0x3F); 0x7F < u <= 0x7FF
    ensures var u := Join2((c0 as bv32) & 0x1F, (c1 as bv32) & 0x3F); Low(0xC0 | (u >> 6)) == c0
    ensures var u := Join2((c0 as bv32) & 0x1F, (c1 as bv32) & 0x3F); u & 0x3F == (c1 as bv32) & 0x3F
  {}

  lemma Accepted2(c0: Byte, c1: Byte, c2: Byte, c3: Byte)
    requires CharLength(c0, c1, c2, c3) == 2
    ensures WriteChar(CharCode(c0, c1, c2, c3)) == Some([c0, c1])
  {
    hide Low, IsContinuation, Join2;
    Lead2(c0, c1);
    Payload(c1);
  }

  lemma Accepted3(c0: Byte, c1: Byte, c2: Byte, c3: Byte)
    requires CharLength(c0, c1, c2, c3) == 3
    ensures WriteChar(CharCode(c0, c1, c2, c3)) == Some([c0, c1, c2])
  {
    hide Low, WriteChar, CharLength, IsContinuation, Join2, Join3, Join4;
    Continuations(c0, c1, c2, c3);
    Range3(c0, c1, c2, c3);
    Payload(c1);
    Payload(c2);
    Pieces3((c0 as bv32) & 0xF, (c1 as bv32) & 0x3F, (c2 as bv32) & 0x3F);
    WriteOf3(CharCode(c0, c1, c2, c3), c0, c1, c2);
  }

  lemma Accepted4(c0: Byte, c1: Byte, c2: Byte, c3: Byte)
    requires CharLength(c0, c1, c2, c3) == 4
    ensures WriteChar(CharCode(c0, c1, c2, c3)) == Some([c0, c1, c2, c3])
  {
    hide Low, WriteChar, CharLength, IsContinuation, Join2, Join3, Join4;
    Continuations(c0, c1, c2, c3);
    Range4(c0, c1, c2, c3);
    Payload(c1);
    Payload(c2);
    Payload(c3);
    var x0, x1, x2, x3 := (c0 as bv32) & 0x7, (c1 as bv32) & 0x3F, (c2 as bv32) & 0x3F, (c3 as bv32) & 0x3F;
    Pieces4(x0, x1, x2, x3);
    Range4Whole(x0, x1, x2, x3);
    WriteOf4(CharCode(c0, c1, c2, c3), c0, c1, c2, c3);
  }

  // ---------- Surrogates ----------

  function FromSurrogates(uc: bv16, lc: bv16): Option<CodePoint> {
    if 0xD800 <= uc <= 0xDBFF && 0xDC00 <= lc <= 0xDFFF
    then Some(0x10000 + (((uc as bv32 & 0x3FF) << 10) | (lc as bv32 & 0x3FF)))
    else None
  }

  function ToSurrogates(u: CodePoint): Option<(bv16, bv16)> {
    if !(0x10000 <= u <= 0x10FFFF) then None
    else
      var n := u - 0x10000;
      Some(((((n >> 10) & 0x3FF) | 0xD800) as bv16, ((n & 0x3FF) | 0xDC00) as bv16))
  }

  /** Splitting and joining surrogates are inverse, and exactly the astral code points have a pair. */
  lemma SurrogatesInverse(u: CodePoint, uc: bv16, lc: bv16)
    ensures ToSurrogates(u).Some? <==> 0x10000 <= u <= 0x10FFFF
    ensures ToSurrogates(u).Some? ==> FromSurrogates(ToSurrogates(u).value.0, ToSurrogates(u).value.1) == Some(u)
    ensures FromSurrogates(uc, lc).Some? ==> ToSurrogates(FromSurrogates(uc, lc).value) == Some((uc, lc))
  {
    hide FromSurrogates;
    if 0x10000 <= u <= 0x10FFFF { SplitThenJoin(u); }
    if FromSurrogates(uc, lc).Some? { JoinThenSplit(uc, lc); }
  }

  lemma SplitThenJoin(u: CodePoint)
    requires 0x10000 <= u <= 0x10FFFF
    ensures FromSurrogates(ToSurrogates(u).value.0, ToSurrogates(u).value.1) == Some(u)
  {}

  lemma JoinRange(uc: bv16, lc: bv16)
    ensures 0x10000 <= 0x10000 + (((uc as bv32 & 0x3FF) << 10) | (lc as bv32 & 0x3FF)) <= 0x10FFFF
  {}

  lemma JoinPieces(uc: bv16, lc: bv16)
    requires 0xD800 <= uc <= 0xDBFF && 0xDC00 <= lc <= 0xDFFF
    ensures var n := ((uc as bv32 & 0x3FF) << 10) | (lc as bv32 & 0x3FF);
            (((n >> 10) & 0x3FF) | 0xD800) as bv16 == uc && ((n & 0x3FF) | 0xDC00) as bv16 == lc
  {}

  lemma JoinThenSplit(uc: bv16, lc: bv16)
    requires FromSurrogates(uc, lc).Some?
    ensures ToSurrogates(FromSurrogates(uc, lc).value) == Some((uc, lc))
  {
    JoinRange(uc, lc);
    JoinPieces(uc, lc);
    var n := ((uc as bv32 & 0x3FF) << 10) | (lc as bv32 & 0x3FF);
    assert (0x10000 + n) - 0x10000 == n;
  }

  // ---------- Whole strings ----------

  lemma {:induction false} ValidateConcat(s: Text, t: Text)
    requires Validate(s) && Validate(t)
    ensures Validate(s + t)
    decreases |s|
  {
    hide CharLength;
    if s == [] {
      assert s + t == t;
    } else {
      var n := ValidateChar(s);
      ValidateConcat(s[n..], t);
      assert (s + t)[n..] == s[n..] + t;
      assert forall i :: 0 <= i < n ==> At(s + t, i) == At(s, i);
      ValidateLocal(s, s + t);
    }
  }

  /** The validator looks only at the bytes of the character. */
  lemma ValidateLocal(s: Text, t: Text)
    requires ValidateChar(s) != 0 && forall i :: 0 <= i < ValidateChar(s) ==> At(t, i) == At(s, i)
    ensures ValidateChar(t) == ValidateChar(s)
  {
    assert At(t, 0) == At(s, 0);
  }
}
