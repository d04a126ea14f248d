/**
 Base58 text of a byte string: one '1' for each leading zero byte, then the base-58 digits of
 the big-endian value. The buffer is allocated for `len * 138 / 100 + 2` characters.
 */
module Base58 {
  type Byte = b: nat | b < 256

  import opened Options
  import opened Powers

  const ALPHABET: string := "123456789" + "ABCDEFGH" + "JKLMN" + "PQRSTUVWXYZ" + "abcdefghijk" + "mnopqrstuvwxyz"

  // ---------- Values ----------

  /** The big-endian value of a byte string. */
  function Big(bytes: seq<Byte>): nat {
    if bytes == [] then 0 else Big(bytes[..|bytes|-1]) * 256 + bytes[|bytes|-1]
  }

  function LeadingZeros(bytes: seq<Byte>): (z: nat)
    ensures z <= |bytes|
    ensures forall j :: 0 <= j < z ==> bytes[j] == 0
    ensures z < |bytes| ==> bytes[z] != 0
  {
    if bytes == [] || bytes[0] != 0 then 0 else 1 + LeadingZeros(bytes[1..])
  }

  /** The digits of a number in base 58, least significant first. */
  function Digits(x: nat): (ds: seq<nat>)
    ensures forall i :: 0 <= i < |ds| ==> ds[i] < 58
  {
    if x == 0 then [] else [x % 58] + Digits(x / 58)
  }

  /** The value of base-58 digits, least significant first. */
  function Undigits(ds: seq<nat>): nat {
    if ds == [] then 0 else ds[0] + 58 * Undigits(ds[1..])
  }

  lemma {:induction false} UndigitsDigits(x: nat)
    ensures Undigits(Digits(x)) == x
    decreases x
  {
    if x > 0 {
      UndigitsDigits(x / 58);
      assert Digits(x)[1..] == Digits(x / 58);
    }
  }

  /** No leading zero digit. */
  lemma {:induction false} TopDigitNonzero(x: nat)
    requires x > 0
    ensures var ds := Digits(x); ds != [] && ds[|ds|-1] != 0
    decreases x
  {
    if x / 58 > 0 {
      TopDigitNonzero(x / 58);
    } else {
      assert Digits(x) == [x % 58];
    }
  }

  lemma {:induction false} DigitsLowerBound(x: nat)
    requires x > 0
    ensures Pow(58, |Digits(x)| - 1) <= x
    decreases x
  {
    if x / 58 > 0 {
      DigitsLowerBound(x / 58);
      var n := |Digits(x / 58)|;
      TopDigitNonzero(x / 58);
      assert Pow(58, n) == 58 * Pow(58, n - 1);
    } else {
      assert Digits(x) == [x % 58];
    }
  }

  lemma {:induction false} BigUpperBound(bytes: seq<Byte>)
    ensures Big(bytes) < Pow(256, |bytes|)
    decreases |bytes|
  {
    if bytes != [] {
      BigUpperBound(bytes[..|bytes|-1]);
    }
  }

  lemma {:induction false} BigDropZeros(bytes: seq<Byte>, z: nat)
    requires z <= |bytes| && forall j :: 0 <= j < z ==> bytes[j] == 0
    ensures Big(bytes) == Big(bytes[z..])
    decreases |bytes|
  {
    if z < |bytes| {
      BigDropZeros(bytes[..|bytes|-1], z);
      assert bytes[..|bytes|-1][z..] == bytes[z..][..|bytes[z..]|-1];
    } else if bytes != [] {
      BigDropZeros(bytes[..|bytes|-1], z - 1);
      assert bytes[z..] == [] && bytes[..|bytes|-1][z-1..] == [];
    }
  }

  // ---------- The digits fit ----------

  /** 58^11 >= 256^8, lifted to all lengths: ceil(11 m / 8) digits suffice for m bytes. */
  lemma {:induction false} PowersCompare(m: nat)
    ensures Pow(256, m) <= Pow(58, (11 * m + 7) / 8)
    decreases m
  {
    hide Pow;
    if m < 8 {
      PowersCompareSmall(m);
    } else {
      PowersCompare(m - 8);
      PowersCompareEight();
      PowAdd(256, 8, m - 8);
      PowAdd(58, 11, (11 * (m - 8) + 7) / 8);
      assert (11 * m + 7) / 8 == 11 + (11 * (m - 8) + 7) / 8;
      ProductMonotone(Pow(256, 8), Pow(256, m - 8), Pow(58, 11), Pow(58, (11 * (m - 8) + 7) / 8));
    }
  }

  lemma ProductMonotone(a: nat, b: nat, c: nat, d: nat)
    requires a <= c && b <= d
    ensures a * b <= c * d
  {
    assert a * b <= c * b;
    assert c * b <= c * d;
  }

  lemma PowersCompareEight()
    ensures Pow(256, 8) <= Pow(58, 11)
  {
    assert Pow(256, 4) == 4294967296;
    PowAdd(256, 4, 4);
    assert Pow(58, 4) == 11316496;
    assert Pow(58, 3) == 195112;
    PowAdd(58, 4, 4);
    PowAdd(58, 8, 3);
  }

  lemma PowersCompareSmall(m: nat)
    requires m < 8
    ensures Pow(256, m) <= Pow(58, (11 * m + 7) / 8)
  {
    assert Pow(256, 0) == 1 && Pow(256, 1) == 256 && Pow(256, 2) == 65536 && Pow(256, 3) == 16777216;
    assert Pow(256, 4) == 4294967296;
    PowAdd(256, 4, 1); PowAdd(256, 4, 2); PowAdd(256, 4, 3);
    assert Pow(58, 2) == 3364 && Pow(58, 3) == 195112 && Pow(58, 4) == 11316496;
    PowAdd(58, 4, 1); PowAdd(58, 4, 2); PowAdd(58, 4, 3);
    PowAdd(58, 5, 4); PowAdd(58, 7, 3);
    assert Pow(58, 1) == 58;
  }

  /** For every byte string, leading-zero characters and digits leave room for the terminator. */
  lemma DigitsFit(bytes: seq<Byte>)
    ensures LeadingZeros(bytes) + |Digits(Big(bytes))| <= |bytes| * 138 / 100 + 1
  {
    var z, x := LeadingZeros(bytes), Big(bytes);
    var m := |bytes| - z;
    BigDropZeros(bytes, z);
    BigUpperBound(bytes[z..]);
    if x > 0 {
      DigitsLowerBound(x);
      PowersCompare(m);
      if |Digits(x)| - 1 >= (11 * m + 7) / 8 {
        PowMonotone(58, (11 * m + 7) / 8, |Digits(x)| - 1);
      }
    }
  }

  // ---------- The alphabet ----------

  /** The alphabet as runs of consecutive characters. */
  function Glyph(d: nat): char
    requires d < 58
  {
    if d < 9 then '1' + d as char
    else if d < 17 then 'A' + (d - 9) as char
    else if d < 22 then 'J' + (d - 17) as char
    else if d < 33 then 'P' + (d - 22) as char
    else if d < 44 then 'a' + (d - 33) as char
    else 'm' + (d - 44) as char
  }

  lemma AlphabetGlyph(d: nat)
    requires d < 58
    ensures |ALPHABET| == 58 && ALPHABET[d] == Glyph(d)
  {
    var a, b, c, e, f, g := "123456789", "ABCDEFGH", "JKLMN", "PQRSTUVWXYZ", "abcdefghijk", "mnopqrstuvwxyz";
    if d < 9 { assert ALPHABET[d] == a[d]; }
    else if d < 17 { assert ALPHABET[d] == b[d - 9]; }
    else if d < 22 { assert ALPHABET[d] == c[d - 17]; }
    else if d < 33 { assert ALPHABET[d] == e[d - 22]; }
    else if d < 44 { assert ALPHABET[d] == f[d - 33]; }
    else { assert ALPHABET[d] == g[d - 44]; }
  }

  /** The digit a character stands for. */
  function DigitOf(c: char): (d: Option<nat>)
    ensures d.Some? ==> d.value < 58 && Glyph(d.value) == c
  {
    if '1' <= c <= '9' then Some((c - '1') as nat)
    else if 'A' <= c <= 'H' then Some(9 + (c - 'A') as nat)
    else if 'J' <= c <= 'N' then Some(17 + (c - 'J') as nat)
    else if 'P' <= c <= 'Z' then Some(22 + (c - 'P') as nat)
    else if 'a' <= c <= 'k' then Some(33 + (c - 'a') as nat)
    else if 'm' <= c <= 'z' then Some(44 + (c - 'm') as nat)
    else None
  }

  lemma DigitOfGlyph(d: nat)
    requires d < 58
    ensures DigitOf(Glyph(d)) == Some(d) && (Glyph(d) == '1' <==> d == 0)
  {}

  /** The alphabet is the letters and digits but for 0, O, I and l, in ascending order. */
  lemma AlphabetIs(c: char)
    ensures DigitOf(c).Some? <==>
              ('0' <= c <= '9' || 'A' <= c <= 'Z' || 'a' <= c <= 'z') && c != '0' && c != 'O' && c != 'I' && c != 'l'
    ensures forall d, e :: 0 <= d < e < 58 ==> Glyph(d) < Glyph(e)
  {}

  // ---------- The text ----------

  function Reversed<T>(s: seq<T>): (r: seq<T>)
    ensures |r| == |s| && forall k :: 0 <= k < |s| ==> r[k] == s[|s| - 1 - k]
  {
    if s == [] then [] else Reversed(s[1..]) + [s[0]]
  }

  /** The characters of digits, in the same order. */
  function Glyphs(ds: seq<nat>): (r: string)
    requires forall i :: 0 <= i < |ds| ==> ds[i] < 58
    ensures |r| == |ds| && forall i :: 0 <= i < |r| ==> r[i] == Glyph(ds[i])
  {
    seq(|ds|, i requires 0 <= i < |ds| => Glyph(ds[i]))
  }

  function Ones(n: nat): (r: string)
    ensures |r| == n && forall i :: 0 <= i < n ==> r[i] == '1'
  {
    seq(n, _ => '1')
  }

  /** What the text must be: one '1' for each leading zero byte, then the digits, most significant first. */
  function Text(bytes: seq<Byte>): string {
    Ones(LeadingZeros(bytes)) + Reversed(Glyphs(Digits(Big(bytes))))
  }

  /** Swaps the first `len` characters end for end, in place. */
  method Reverse(data: array<char>, len: nat)
    requires len <= data.Length
    modifies data
    ensures data[..len] == Reversed(old(data[..len]))
    ensures data[len..] == old(data[len..])
  {
    var stop := len / 2;
    var i := 0;
    while i < stop
      invariant i <= stop
      invariant forall k :: 0 <= k < i ==> data[k] == old(data[len - 1 - k]) && data[len - 1 - k] == old(data[k])
      invariant forall k :: i <= k < len - i ==> data[k] == old(data[k])
      invariant data[len..] == old(data[len..])
    {
      data[i], data[len - i - 1] := data[len - i - 1], data[i];
      i := i + 1;
    }
    assert forall k :: 0 <= k < len ==> data[k] == old(data[len - 1 - k]);
  }

  lemma GlyphsStep(x: nat)
    requires x > 0
    ensures Glyphs(Digits(x)) == [Glyph(x % 58)] + Glyphs(Digits(x / 58))
  {}

  /** The division loop: writes the digits of `x`, least significant first, and leaves the rest of the buffer. */
  method WriteDigits(str: array<char>, number: nat) returns (i: nat)
    requires |Digits(number)| < str.Length
    modifies str
    ensures i == |Digits(number)| && str[..i] == Glyphs(Digits(number)) && str[i..] == old(str[i..])
  {
    hide Digits, Glyphs, Glyph;
    i := 0;
    var x := number;
    ghost var all := Glyphs(Digits(number));
    while x != 0
      invariant i + |Digits(x)| == |all| < str.Length
      invariant all == str[..i] + Glyphs(Digits(x))
      invariant str[i..] == old(str[i..])
      decreases x
    {
      ghost var before := str[..i];
      var r := x % 58;
      AlphabetGlyph(r);
      GlyphsStep(x);
      x := x / 58;
      str[i] := ALPHABET[r];
      i := i + 1;
      assert str[..i] == before + [Glyph(r)];
    }
    NoDigits();
  }

  /** The zero loop: appends one '1' for each leading zero byte. */
  method WriteOnes(str: array<char>, bytes: seq<Byte>, start: nat) returns (i: nat)
    requires start + LeadingZeros(bytes) < str.Length
    modifies str
    ensures i == start + LeadingZeros(bytes)
    ensures str[..i] == old(str[..start]) + Ones(LeadingZeros(bytes)) && str[i..] == old(str[i..])
  {
    hide Ones;
    i := start;
    var j := 0;
    while j < |bytes| && bytes[j] == 0
      invariant j <= LeadingZeros(bytes) && i == start + j
      invariant str[..i] == old(str[..start]) + Ones(j)
      invariant str[i..] == old(str[i..])
    {
      ghost var before := str[..i];
      str[i] := '1';
      i := i + 1;
      j := j + 1;
      assert str[..i] == before + ['1'];
      assert Ones(j) == Ones(j - 1) + ['1'];
    }
  }

  /** The whole conversion. Every write is inside the buffer, and the terminator behind the text survives. */
  method ComputeBase58(bytes: seq<Byte>) returns (text: string)
    ensures text == Text(bytes)
  {
    hide Digits, Big, Text, Reversed, Glyphs, Glyph, Ones, LeadingZeros;
    var strLen := |bytes| * 138 / 100 + 2;
    var str := new char[strLen](_ => '\0');
    DigitsFit(bytes);
    var i := WriteDigits(str, Big(bytes));
    var end := WriteOnes(str, bytes, i);
    ghost var written := str[..end];
    Reverse(str, end);
    TextShape(bytes, written);
    assert str[end] == str[end..][0];
    assert str[..end] == Text(bytes);
    assert forall k :: 0 <= k < end ==> str[k] == str[..end][k];
    text := UpToNul(str, end);
  }

  lemma NoDigits()
    ensures Digits(0) == [] && Glyphs([]) == ""
  {}

  lemma TextShape(bytes: seq<Byte>, written: string)
    requires written == Glyphs(Digits(Big(bytes))) + Ones(LeadingZeros(bytes))
    ensures Reversed(written) == Text(bytes) && '\0' !in Text(bytes)
  {
    hide Glyphs, Digits, Big, LeadingZeros, Ones, Glyph, Reversed;
    var gs, os := Glyphs(Digits(Big(bytes))), Ones(LeadingZeros(bytes));
    ReversedConcat(gs, os);
    ReversedOnes(LeadingZeros(bytes));
    NoNul(Digits(Big(bytes)), LeadingZeros(bytes));
  }

  lemma ReversedConcat(a: string, b: string)
    ensures Reversed(a + b) == Reversed(b) + Reversed(a)
  {}

  lemma ReversedOnes(n: nat)
    ensures Reversed(Ones(n)) == Ones(n)
  {}

  lemma NoNul(ds: seq<nat>, n: nat)
    requires forall i :: 0 <= i < |ds| ==> ds[i] < 58
    ensures '\0' !in Ones(n) + Reversed(Glyphs(ds))
  {}

  /** The C string at the start of the buffer. */
  method UpToNul(str: array<char>, ghost len: nat) returns (text: string)
    requires len < str.Length && str[len] == '\0' && forall k :: 0 <= k < len ==> str[k] != '\0'
    ensures text == str[..len]
  {
    var n := 0;
    while str[n] != '\0'
      invariant n <= len
      decreases len - n
    {
      n := n + 1;
    }
    text := str[..n];
  }

  // ---------- Reading the text back ----------

  function CountOnes(text: string): (z: nat)
    ensures z <= |text|
  {
    if text == "" || text[0] != '1' then 0 else 1 + CountOnes(text[1..])
  }

  /** The digits of a text, in the same order; nothing if a character is not in the alphabet. */
  function DigitsOf(text: string): (ds: Option<seq<nat>>)
    ensures ds.Some? ==> |ds.value| == |text| && forall i :: 0 <= i < |text| ==>
              ds.value[i] < 58 && Glyph(ds.value[i]) == text[i]
  {
    if text == "" then Some([])
    else match (DigitOf(text[0]), DigitsOf(text[1..]))
      case (Some(d), Some(ds)) => Some([d] + ds)
      case _ => None
  }

  /** The shortest big-endian bytes of a number. */
  function Bytes(x: nat): seq<Byte> {
    if x == 0 then [] else Bytes(x / 256) + [x % 256]
  }

  function Zeros(n: nat): (r: seq<Byte>)
    ensures |r| == n && forall i :: 0 <= i < n ==> r[i] == 0
  {
    seq(n, _ => 0)
  }

  /** A decoder written from the definition: leading ones are zero bytes, the rest is a number. */
  function Decode(text: string): Option<seq<Byte>> {
    var z := CountOnes(text);
    match DigitsOf(text[z..])
    case None => None
    case Some(ds) => Some(Zeros(z) + Bytes(Undigits(Reversed(ds))))
  }

  lemma BytesSnoc(front: seq<Byte>, last: Byte)
    requires Big(front + [last]) > 0
    ensures Bytes(Big(front + [last])) == Bytes(Big(front)) + [last]
  {
    var bytes := front + [last];
    assert bytes[..|bytes|-1] == front && bytes[|bytes|-1] == last;
    assert Big(bytes) / 256 == Big(front) && Big(bytes) % 256 == last;
  }

  lemma {:induction false} BytesBig(bytes: seq<Byte>)
    ensures Bytes(Big(bytes)) == bytes[LeadingZeros(bytes)..]
    decreases |bytes|
  {
    hide Bytes, LeadingZeros, Big;
    var z := LeadingZeros(bytes);
    ZerosBound(bytes);
    if z == |bytes| {
      BigDropZeros(bytes, z);
      assert bytes[z..] == [];
      BigNone();
      NoBytes();
    } else {
      var front, last := bytes[..|bytes|-1], bytes[|bytes|-1];
      assert bytes == front + [last];
      BigPositive(bytes);
      BytesSnoc(front, last);
      BytesBig(front);
      ZerosOfFront(front, last);
      assert bytes[z..] == front[LeadingZeros(front)..] + [last];
    }
  }

  lemma BigNone()
    ensures Big([]) == 0
  {}

  lemma ZerosBound(bytes: seq<Byte>)
    ensures forall j :: 0 <= j < LeadingZeros(bytes) ==> bytes[j] == 0
  {}

  lemma {:induction false} ZerosOfFront(front: seq<Byte>, last: Byte)
    ensures LeadingZeros(front + [last]) ==
      if LeadingZeros(front) < |front| then LeadingZeros(front) else if last == 0 then |front| + 1 else |front|
    decreases |front|
  {
    if front != [] {
      assert (front + [last])[1..] == front[1..] + [last];
      ZerosOfFront(front[1..], last);
    } else {
      assert (front + [last])[1..] == [];
    }
  }

  lemma {:induction false} BigPositive(bytes: seq<Byte>)
    requires LeadingZeros(bytes) < |bytes|
    ensures Big(bytes) > 0
    decreases |bytes|
  {
    var z := LeadingZeros(bytes);
    if z < |bytes| - 1 {
      ZerosOfFront(bytes[..|bytes|-1], bytes[|bytes|-1]);
      assert bytes == bytes[..|bytes|-1] + [bytes[|bytes|-1]];
      assert bytes[..|bytes|-1][z] != 0;
      BigPositive(bytes[..|bytes|-1]);
    }
  }

  lemma {:induction false} DigitsOfGlyphs(ds: seq<nat>)
    requires forall i :: 0 <= i < |ds| ==> ds[i] < 58
    ensures DigitsOf(Glyphs(ds)) == Some(ds)
    decreases |ds|
  {
    if ds != [] {
      assert Glyphs(ds)[1..] == Glyphs(ds[1..]);
      DigitOfGlyph(ds[0]);
      DigitsOfGlyphs(ds[1..]);
      assert [ds[0]] + ds[1..] == ds;
    }
  }

  lemma {:induction false} CountOnesSplit(z: nat, rest: string)
    requires rest == "" || rest[0] != '1'
    ensures CountOnes(Ones(z) + rest) == z
    decreases z
  {
    if z > 0 {
      assert (Ones(z) + rest)[1..] == Ones(z - 1) + rest;
      CountOnesSplit(z - 1, rest);
    } else {
      assert Ones(0) + rest == rest;
    }
  }

  lemma ReversedTwice<T>(s: seq<T>)
    ensures Reversed(Reversed(s)) == s
  {
    var r := Reversed(Reversed(s));
    assert |r| == |s| && forall k :: 0 <= k < |s| ==> r[k] == s[k];
  }

  lemma GlyphsReversed(ds: seq<nat>)
    requires forall i :: 0 <= i < |ds| ==> ds[i] < 58
    ensures forall i :: 0 <= i < |ds| ==> Reversed(ds)[i] < 58
    ensures Reversed(Glyphs(ds)) == Glyphs(Reversed(ds))
  {
    hide Glyphs, Reversed, Glyph;
    var a, b := Reversed(Glyphs(ds)), Reversed(ds);
    assert forall i :: 0 <= i < |ds| ==> b[i] == ds[|ds| - 1 - i];
    var c := Glyphs(b);
    assert forall i :: 0 <= i < |ds| ==> a[i] == c[i];
  }

  /** Behind its ones, the text reads back as its number. */
  lemma DigitsRead(x: nat)
    ensures var rest := Reversed(Glyphs(Digits(x)));
            (rest == "" || rest[0] != '1')
            && DigitsOf(rest).Some? && Undigits(Reversed(DigitsOf(rest).value)) == x
  {
    hide Glyphs, Reversed, DigitsOf, Digits, Undigits;
    var ds := Digits(x);
    GlyphsReversed(ds);
    if x > 0 {
      TopDigitNonzero(x);
      DigitOfGlyph(ds[|ds|-1]);
      assert Reversed(Glyphs(ds))[0] == Glyph(ds[|ds|-1]);
    } else { NoDigits(); }
    DigitsOfGlyphs(Reversed(ds));
    ReversedTwice(ds);
    UndigitsDigits(x);
  }

  /** Base58 is invertible: decoding the text gives the bytes back, leading zeros included. */
  lemma DecodeText(bytes: seq<Byte>)
    ensures Decode(Text(bytes)) == Some(bytes)
  {
    hide Digits, Glyphs, Reversed, Big, Bytes, DigitsOf, Undigits, CountOnes, LeadingZeros;
    var z, x := LeadingZeros(bytes), Big(bytes);
    var rest := Reversed(Glyphs(Digits(x)));
    DigitsRead(x);
    CountOnesSplit(z, rest);
    assert (Ones(z) + rest)[z..] == rest;
    BytesBig(bytes);
    assert Zeros(z) + bytes[z..] == bytes;
  }

  /** Different byte strings have different texts. */
  lemma TextInjective(a: seq<Byte>, b: seq<Byte>)
    requires Text(a) == Text(b)
    ensures a == b
  {
    DecodeText(a);
    DecodeText(b);
  }

  // ---------- Every text over the alphabet is some byte string's text ----------

  lemma {:induction false} DigitsUndigits(ds: seq<nat>)
    requires forall i :: 0 <= i < |ds| ==> ds[i] < 58
    requires ds != [] ==> ds[|ds|-1] != 0
    ensures Digits(Undigits(ds)) == ds
    decreases |ds|
  {
    if ds != [] {
      var v := Undigits(ds[1..]);
      DigitsUndigits(ds[1..]);
      assert Undigits(ds) % 58 == ds[0] && Undigits(ds) / 58 == v;
      assert v == 0 ==> ds[1..] == [];
      assert Undigits(ds) > 0;
    }
  }

  lemma {:induction false} BigBytes(x: nat)
    ensures Big(Bytes(x)) == x
    ensures x > 0 ==> Bytes(x) != [] && Bytes(x)[0] != 0
    decreases x
  {
    if x > 0 {
      BigBytes(x / 256);
      assert Bytes(x)[..|Bytes(x)|-1] == Bytes(x / 256);
      if x / 256 == 0 { assert Bytes(x) == [x % 256]; }
    }
  }

  lemma {:induction false} LeadingZerosSplit(z: nat, rest: seq<Byte>)
    requires rest == [] || rest[0] != 0
    ensures LeadingZeros(Zeros(z) + rest) == z
    decreases z
  {
    if z > 0 {
      assert (Zeros(z) + rest)[1..] == Zeros(z - 1) + rest;
      LeadingZerosSplit(z - 1, rest);
    } else {
      assert Zeros(0) + rest == rest;
    }
  }

  lemma {:induction false} CountOnesPrefix(text: string)
    ensures var z := CountOnes(text); text == Ones(z) + text[z..] && (z < |text| ==> text[z] != '1')
    decreases |text|
  {
    var z := CountOnes(text);
    if z > 0 {
      CountOnesPrefix(text[1..]);
      assert text == [text[0]] + text[1..];
      assert Ones(z) == ['1'] + Ones(z - 1);
      assert text[1..][z - 1..] == text[z..];
    } else {
      assert Ones(0) + text == text;
    }
  }

  /** The text of `z` zero bytes before the bytes of `x`. */
  lemma PartsText(z: nat, x: nat)
    ensures Text(Zeros(z) + Bytes(x)) == Ones(z) + Reversed(Glyphs(Digits(x)))
  {
    hide Digits, Glyphs, Reversed, Big, Bytes, Zeros, Ones;
    var bytes := Zeros(z) + Bytes(x);
    BigBytes(x);
    if x == 0 { NoBytes(); }
    LeadingZerosSplit(z, Bytes(x));
    BigDropZeros(bytes, z);
    assert bytes[z..] == Bytes(x);
  }

  /** Digits read from a text without a leading one are the digits of their number. */
  lemma DigitsBack(text: string)
    requires DigitsOf(text).Some? && (text == "" || text[0] != '1')
    ensures var ds := Reversed(DigitsOf(text).value);
            Digits(Undigits(ds)) == ds && Reversed(Glyphs(ds)) == text
  {
    hide Digits, Glyph, DigitOf, DigitsOf, Undigits;
    var d := DigitsOf(text).value;
    var ds := Reversed(d);
    if ds != [] {
      assert ds[|ds|-1] == d[0];
      DigitOfGlyph(d[0]);
    }
    DigitsUndigits(ds);
    GlyphsReversed(ds);
    ReversedTwice(d);
    assert Glyphs(d) == text;
  }

  /** Encoding is onto the strings over the alphabet: each decodes, and to bytes it is the text of. */
  lemma TextDecode(text: string)
    ensures Decode(text).Some? <==> DigitsOf(text[CountOnes(text)..]).Some?
    ensures Decode(text).Some? ==> Text(Decode(text).value) == text
  {
    hide Digits, Glyphs, Reversed, Bytes, DigitsOf, Undigits, Text, Ones, Zeros, CountOnes;
    var z := CountOnes(text);
    var d := DigitsOf(text[z..]);
    if d.Some? {
      CountOnesPrefix(text);
      DigitsBack(text[z..]);
      PartsText(z, Undigits(Reversed(d.value)));
    }
  }

  lemma NoBytes()
    ensures Bytes(0) == []
  {}
}
