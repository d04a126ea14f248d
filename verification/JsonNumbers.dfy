/** JSON numbers as lexemes: the strict parser against the grammar of section 6 of RFC 8259. */
module JsonNumbers {
  import opened Options
  import opened JsonUtf8

  const MINUS: Byte := 0x2D
  const PLUS: Byte := 0x2B
  const ZERO: Byte := 0x30
  const POINT: Byte := 0x2E

  predicate IsDigit(c: Byte) { 0x30 <= c <= 0x39 }
  predicate IsExponentMark(c: Byte) { c == 0x45 || c == 0x65 }

  // ---------- The grammar, in the numbers of RFC 8259 ----------

  ghost predicate AllDigits(l: Text) { l != [] && forall i :: 0 <= i < |l| ==> 0x30 <= l[i] <= 0x39 }
  ghost predicate IsSign(l: Text) { l == [] || l == [0x2D] }
  ghost predicate IsInt(l: Text) { AllDigits(l) && (l[0] == 0x30 ==> l == [0x30]) }
  ghost predicate IsFrac(l: Text) { l == [] || (l[0] == 0x2E && AllDigits(l[1..])) }

  ghost predicate IsExp(l: Text) {
    l == [] || ((l[0] == 0x65 || l[0] == 0x45) &&
      (AllDigits(l[1..]) || (|l| > 1 && (l[1] == 0x2D || l[1] == 0x2B) && AllDigits(l[2..]))))
  }

  /** number = [ minus ] int [ frac ] [ exp ] */
  ghost predicate IsNumberAs(l: Text, sign: Text, int_: Text, frac: Text, exp: Text) {
    l == sign + int_ + frac + exp && IsSign(sign) && IsInt(int_) && IsFrac(frac) && IsExp(exp)
  }

  ghost predicate IsNumber(l: Text) {
    exists sign, int_, frac, exp :: IsNumberAs(l, sign, int_, frac, exp)
  }

  // ---------- The parser ----------

  /** The number of digits at the start. */
  function DigitRun(t: Text): (n: nat)
    ensures n <= |t| && forall i :: 0 <= i < n ==> IsDigit(t[i])
    ensures !IsDigit(At(t, n))
  {
    if t == [] || !IsDigit(t[0]) then (assert !IsDigit(0); 0) else 1 + DigitRun(t[1..])
  }

  /** Lengths of the parts at the start of a text; nothing where the code gives up. */
  function SignLength(t: Text): nat { if At(t, 0) == MINUS then 1 else 0 }

  function IntLength(t: Text): Option<nat> {
    if At(t, 0) == ZERO then Some(1) else if !IsDigit(At(t, 0)) then None else Some(DigitRun(t))
  }

  function FracLength(t: Text): Option<nat> {
    if At(t, 0) != POINT then Some(0)
    else if !IsDigit(At(t, 1)) then None
    else Some(1 + DigitRun(t[1..]))
  }

  function ExpLength(t: Text): Option<nat> {
    if !IsExponentMark(At(t, 0)) then Some(0)
    else
      var m := if At(t, 1) == PLUS || At(t, 1) == MINUS then 2 else 1;
      if !IsDigit(At(t, m)) then None else Some(m + DigitRun(t[m..]))
  }

  /** The length of the number at the start of the text. */
  function NumberLength(t: Text): (r: Option<nat>)
    ensures r.Some? ==> 0 < r.value <= |t|
  {
    var a := SignLength(t);
    match IntLength(t[a..])
    case None => None
    case Some(b) =>
      match FracLength(t[a + b..])
      case None => None
      case Some(c) =>
        match ExpLength(t[a + b + c..])
        case None => None
        case Some(d) => Some(a + b + c + d)
  }

  function ParseNumber(t: Text): (r: Option<(Text, Text)>)
    ensures r.Some? ==> |r.value.1| < |t| && t == r.value.0 + r.value.1
  {
    match NumberLength(t) case None => None case Some(n) => Some((t[..n], t[n..]))
  }

  /** The cursor walk of the source. */
  method ParseNumberLoop(t: Text) returns (r: Option<(Text, Text)>)
    ensures r == ParseNumber(t)
  {
    hide DigitRun, IsDigit, IsExponentMark, At, IntLength, FracLength, ExpLength;
    NoDigitAtEnd();
    var i := 0;
    if At(t, i) == MINUS { i := i + 1; }
    var b := IntPart(t, i);
    if b.None? { return None; }
    i := b.value;
    var c := FracPart(t, i);
    if c.None? { return None; }
    i := c.value;
    var d := ExpPart(t, i);
    if d.None? { return None; }
    i := d.value;
    return Some((t[..i], t[i..]));
  }

  lemma NoDigitAtEnd()
    ensures forall t: Text, i: nat ::
              IsDigit(At(t, i)) || IsExponentMark(At(t, i)) || At(t, i) in [POINT, MINUS, PLUS] ==> i < |t|
  {}

  method IntPart(t: Text, start: nat) returns (end: Option<nat>)
    requires start <= |t|
    ensures IntLength(t[start..]) ==
            match end
            case None => None
            case Some(e) => if start <= e <= |t| then Some(e - start) else None
    ensures end.Some? ==> start <= end.value <= |t|
  {
    if At(t, start) == ZERO { return Some(start + 1); }
    if !IsDigit(At(t, start)) { return None; }
    var i := SkipDigits(t, start);
    return Some(i);
  }

  method FracPart(t: Text, start: nat) returns (end: Option<nat>)
    requires start <= |t|
    ensures FracLength(t[start..]) ==
            match end
            case None => None
            case Some(e) => if start <= e <= |t| then Some(e - start) else None
    ensures end.Some? ==> start <= end.value <= |t|
  {
    if At(t, start) != POINT { return Some(start); }
    if !IsDigit(At(t, start + 1)) { return None; }
    assert t[start..][1..] == t[start + 1..];
    var i := SkipDigits(t, start + 1);
    return Some(i);
  }

  method ExpPart(t: Text, start: nat) returns (end: Option<nat>)
    requires start <= |t|
    ensures ExpLength(t[start..]) ==
            match end
            case None => None
            case Some(e) => if start <= e <= |t| then Some(e - start) else None
    ensures end.Some? ==> start <= end.value <= |t|
  {
    if !IsExponentMark(At(t, start)) { return Some(start); }
    var i := start + 1;
    if At(t, i) == PLUS || At(t, i) == MINUS { i := i + 1; }
    if !IsDigit(At(t, i)) { return None; }
    assert t[start..][i - start..] == t[i..];
    i := SkipDigits(t, i);
    return Some(i);
  }

  /** Advances over digits. */
  method SkipDigits(t: Text, start: nat) returns (i: nat)
    requires start < |t|
    ensures start <= i <= |t| && i == start + DigitRun(t[start..])
  {
    i := start;
    while IsDigit(At(t, i))
      invariant start <= i <= |t|
      invariant DigitRun(t[start..]) == i - start + DigitRun(t[i..])
      decreases |t| - i
    {
      assert !IsDigit(0);
      assert t[i..][1..] == t[i + 1..];
      i := i + 1;
    }
  }

  // ---------- Soundness ----------

  lemma DigitRunAll(t: Text)
    requires IsDigit(At(t, 0))
    ensures AllDigits(t[..DigitRun(t)])
  {
    assert !IsDigit(0);
  }

  lemma IntSound(t: Text)
    requires IntLength(t).Some?
    ensures var b := IntLength(t).value; b <= |t| && IsInt(t[..b])
  {
    if At(t, 0) == ZERO { assert t[..1] == [ZERO] && IsDigit(ZERO); } else { DigitRunAll(t); }
  }

  lemma FracSound(t: Text)
    requires FracLength(t).Some?
    ensures var c := FracLength(t).value; c <= |t| && IsFrac(t[..c])
  {
    if At(t, 0) == POINT {
      DigitRunAll(t[1..]);
      assert t[..FracLength(t).value][1..] == t[1..][..DigitRun(t[1..])];
    }
  }

  lemma ExpSound(t: Text)
    requires ExpLength(t).Some?
    ensures var d := ExpLength(t).value; d <= |t| && IsExp(t[..d])
  {
    if IsExponentMark(At(t, 0)) {
      assert !IsDigit(0);
      var m := if At(t, 1) == PLUS || At(t, 1) == MINUS then 2 else 1;
      assert At(t[m..], 0) == At(t, m);
      DigitRunAll(t[m..]);
      assert t[..ExpLength(t).value][m..] == t[m..][..DigitRun(t[m..])];
    }
  }

  lemma FourPieces(t: Text, a: nat, b: nat, c: nat, d: nat)
    requires a + b + c + d <= |t|
    ensures t[..a + b + c + d] == t[..a] + t[a..][..b] + t[a + b..][..c] + t[a + b + c..][..d]
  {}

  /** What is consumed is a number of the grammar. */
  lemma NumberSound(t: Text)
    requires NumberLength(t).Some?
    ensures IsNumber(t[..NumberLength(t).value])
  {
    hide IsInt, IsFrac, IsExp, IntLength, FracLength, ExpLength, IsDigit, AllDigits;
    var a := SignLength(t);
    var b := IntLength(t[a..]).value;
    var c := FracLength(t[a + b..]).value;
    var d := ExpLength(t[a + b + c..]).value;
    IntSound(t[a..]);
    FracSound(t[a + b..]);
    ExpSound(t[a + b + c..]);
    var l := t[..a + b + c + d];
    assert t[..a] == if a == 1 then [MINUS] else [];
    FourPieces(t, a, b, c, d);
    assert NumberLength(t) == Some(a + b + c + d);
    assert IsNumberAs(l, t[..a], t[a..][..b], t[a + b..][..c], t[a + b + c..][..d]);
  }

  // ---------- Maximal munch ----------

  lemma {:induction false} DigitRunAtLeast(t: Text, l: Text)
    requires AllDigits(l) && l <= t
    ensures |l| <= DigitRun(t)
    decreases |l|
  {
    assert t[0] == l[0];
    if |l| > 1 {
      assert l[1..] <= t[1..];
      DigitRunAtLeast(t[1..], l[1..]);
    }
  }

  /** The parts of any number that starts the text are no longer than the parsed ones, and where
      they are shorter nothing follows them. */
  lemma PartsBounded(t: Text, l: Text, sign: Text, int_: Text, frac: Text, exp: Text)
    requires IsNumberAs(l, sign, int_, frac, exp) && l <= t && NumberLength(t).Some?
    ensures |l| <= NumberLength(t).value
  {
    hide IsInt, IsFrac, IsExp, IntLength, FracLength, ExpLength, IsDigit, AllDigits, IsSign, SignLength, IsExponentMark;
    var a := SignLength(t);
    var b := IntLength(t[a..]).value;
    var c := FracLength(t[a + b..]).value;
    SignFixed(t, l, sign, int_, frac, exp);
    assert t == l + t[|l|..];
    assert t[a..] == (int_ + (frac + exp)) + t[|l|..];
    MarksStart(frac, exp);
    IntBounded(t[a..], int_, frac + exp);
    if |int_| == b {
      assert t[a + b..] == (frac + exp) + t[|l|..];
      FracBounded(t[a + b..], frac, exp);
      if |frac| == c {
        assert t[a + b + c..] == exp + t[|l|..];
        ExpBounded(t[a + b + c..], exp);
      }
    }
  }

  lemma MarksStart(frac: Text, exp: Text)
    requires IsFrac(frac) && IsExp(exp)
    ensures frac + exp == [] || (frac + exp)[0] == POINT || IsExponentMark((frac + exp)[0])
  {
    if frac == [] { assert frac + exp == exp; }
  }

  lemma SignFixed(t: Text, l: Text, sign: Text, int_: Text, frac: Text, exp: Text)
    requires IsNumberAs(l, sign, int_, frac, exp) && l <= t
    ensures SignLength(t) == |sign|
  {
    assert l[|sign|] == int_[0] && !IsDigit(MINUS);
    assert sign == [MINUS] ==> l[0] == sign[0];
  }

  lemma IntBounded(t: Text, int_: Text, more: Text)
    requires IsInt(int_) && int_ + more <= t && IntLength(t).Some?
    requires more == [] || more[0] == POINT || IsExponentMark(more[0])
    ensures |int_| == IntLength(t).value || (|int_| < IntLength(t).value && more == [])
  {
    assert int_ <= t by { assert (int_ + more)[..|int_|] == int_; }
    assert t[0] == int_[0];
    if int_[0] != ZERO {
      DigitRunAtLeast(t, int_);
      assert !IsDigit(POINT) && !IsDigit(0x45) && !IsDigit(0x65);
      if more != [] { assert t[|int_|] == (int_ + more)[|int_|] == more[0]; }
    }
  }

  lemma FracBounded(t: Text, frac: Text, exp: Text)
    requires IsFrac(frac) && IsExp(exp) && frac + exp <= t && FracLength(t).Some?
    ensures |frac| == FracLength(t).value || (|frac| < FracLength(t).value && exp == [])
  {
    if frac == [] {
      if exp != [] { assert t[0] == (frac + exp)[0] == exp[0]; }
    } else {
      assert t[0] == (frac + exp)[0] == frac[0];
      assert frac[1..] <= t[1..] by { assert (frac + exp)[1..|frac|] == frac[1..]; }
      DigitRunAtLeast(t[1..], frac[1..]);
      assert !IsDigit(0x45) && !IsDigit(0x65);
      if exp != [] { assert t[1..][|frac| - 1] == t[|frac|] == (frac + exp)[|frac|] == exp[0]; }
    }
  }

  lemma ExpBounded(t: Text, exp: Text)
    requires IsExp(exp) && exp <= t && ExpLength(t).Some?
    ensures |exp| <= ExpLength(t).value
  {
    if exp != [] {
      assert t[0] == exp[0] && t[1] == exp[1];
      assert !IsDigit(PLUS) && !IsDigit(MINUS);
      if AllDigits(exp[1..]) {
        assert IsDigit(exp[1..][0]) && exp[1..][0] == exp[1];
        DigitRunAtLeast(t[1..], exp[1..]);
      } else {
        DigitRunAtLeast(t[2..], exp[2..]);
      }
    }
  }

  /** Maximal munch: no longer prefix of the text is a number. */
  lemma NumberMaximal(t: Text, l: Text)
    requires NumberLength(t).Some? && l <= t && IsNumber(l)
    ensures |l| <= NumberLength(t).value
  {
    var sign, int_, frac, exp :| IsNumberAs(l, sign, int_, frac, exp);
    PartsBounded(t, l, sign, int_, frac, exp);
  }

  // ---------- Completeness ----------

  /** What may follow a number: anything that cannot continue it. */
  predicate Stops(rest: Text) {
    !IsDigit(At(rest, 0)) && At(rest, 0) != POINT && !IsExponentMark(At(rest, 0))
  }

  lemma {:induction false} DigitRunExact(l: Text, rest: Text)
    requires (forall i :: 0 <= i < |l| ==> IsDigit(l[i])) && !IsDigit(At(rest, 0))
    ensures DigitRun(l + rest) == |l|
    decreases |l|
  {
    if l == [] {
      assert l + rest == rest;
    } else {
      assert (l + rest)[1..] == l[1..] + rest;
      DigitRunExact(l[1..], rest);
    }
  }

  lemma IntExact(int_: Text, rest: Text)
    requires IsInt(int_) && !IsDigit(At(rest, 0))
    ensures IntLength(int_ + rest) == Some(|int_|)
  {
    DigitRunExact(int_, rest);
  }

  lemma FracExact(frac: Text, rest: Text)
    requires IsFrac(frac) && !IsDigit(At(rest, 0)) && At(rest, 0) != POINT
    ensures FracLength(frac + rest) == Some(|frac|)
  {
    if frac == [] {
      assert frac + rest == rest;
    } else {
      assert (frac + rest)[1..] == frac[1..] + rest;
      assert At(frac + rest, 1) == frac[1..][0];
      DigitRunExact(frac[1..], rest);
    }
  }

  lemma ExpExact(exp: Text, rest: Text)
    requires IsExp(exp) && !IsDigit(At(rest, 0)) && !IsExponentMark(At(rest, 0))
    ensures ExpLength(exp + rest) == Some(|exp|)
  {
    if exp == [] {
      assert exp + rest == rest;
    } else {
      assert !IsDigit(PLUS) && !IsDigit(MINUS);
      var m := if AllDigits(exp[1..]) then 1 else 2;
      assert (exp + rest)[m..] == exp[m..] + rest;
      assert At(exp + rest, m) == exp[m..][0] && At(exp + rest, 1) == exp[1];
      DigitRunExact(exp[m..], rest);
      if m == 1 { assert IsDigit(exp[1..][0]) && exp[1..][0] == exp[1]; }
    }
  }

  /** Every number followed by something that cannot continue it is parsed whole. */
  lemma NumberComplete(l: Text, rest: Text)
    requires IsNumber(l) && Stops(rest)
    ensures ParseNumber(l + rest) == Some((l, rest))
  {
    hide IntLength, FracLength, ExpLength, IsInt, IsFrac, IsExp, Stops, IsSign, IsDigit, IsExponentMark;
    var sign, int_, frac, exp :| IsNumberAs(l, sign, int_, frac, exp);
    var t := l + rest;
    SignFixed(t, l, sign, int_, frac, exp);
    NumberSlices(sign, int_, frac, exp, rest);
    MarksAreNoDigits(frac, exp, rest);
    IntExact(int_, frac + exp + rest);
    FracExact(frac, exp + rest);
    ExpExact(exp, rest);
    assert t[..|l|] == l && t[|l|..] == rest;
  }

  lemma NumberSlices(sign: Text, int_: Text, frac: Text, exp: Text, rest: Text)
    ensures var t := sign + int_ + frac + exp + rest;
            && t[|sign|..] == int_ + (frac + exp + rest)
            && t[|sign| + |int_|..] == frac + (exp + rest)
            && t[|sign| + |int_| + |frac|..] == exp + rest
  {
    var t := sign + int_ + frac + exp + rest;
    assert t == sign + (int_ + (frac + (exp + rest)));
    assert t == (sign + int_) + (frac + (exp + rest));
    assert t == (sign + int_ + frac) + (exp + rest);
  }

  lemma MarksAreNoDigits(frac: Text, exp: Text, rest: Text)
    requires IsFrac(frac) && IsExp(exp) && Stops(rest)
    ensures !IsDigit(At(frac + exp + rest, 0))
    ensures !IsDigit(At(exp + rest, 0)) && At(exp + rest, 0) != POINT
    ensures !IsDigit(At(rest, 0)) && !IsExponentMark(At(rest, 0))
  {
    assert !IsDigit(POINT) && !IsDigit(0x45) && !IsDigit(0x65);
    if frac == [] { assert frac + exp + rest == exp + rest; }
    if exp == [] { assert exp + rest == rest; }
  }

  /** A number starts with a minus sign or a digit. */
  lemma NumberStart(l: Text)
    requires IsNumber(l)
    ensures l != [] && (l[0] == MINUS || IsDigit(l[0]))
  {
    var sign, int_, frac, exp :| IsNumberAs(l, sign, int_, frac, exp);
    if sign == [] { assert l[0] == int_[0]; } else { assert l[0] == sign[0]; }
  }
}
