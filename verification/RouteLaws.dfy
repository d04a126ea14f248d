/**
 What rule texts and parameters mean, told apart from the tables and functions that compile and consume them.
 */
module RouteLaws {
  import opened Options
  import opened RouteRules
  import opened TrieNodes
  import opened TrieSearch

  // ---------- Rule texts ----------

  /** The names a placeholder of each type goes by. */
  function NamesOf(t: ParamType): seq<string> {
    match t
    case Int => ["{int}"]
    case Uint => ["{uint}"]
    case Double => ["{float}", "{double}"]
    case String => ["{str}", "{string}"]
    case Path => ["{path}"]
  }

  /** The text begins with a name of a parameter type. */
  ghost predicate BeginsWith(text: string, t: ParamType, name: string) { name in NamesOf(t) && name <= text }

  /** The text compiles to these tokens: a name to its parameter, any other character to itself, and a brace that
      begins no name to nothing. */
  ghost predicate Compiles(text: string, toks: seq<Token>)
    decreases |text|
  {
    if text == "" then toks == []
    else if text[0] != '{' then toks != [] && toks[0] == Lit(text[0]) && Compiles(text[1..], toks[1..])
    else if exists t, name :: BeginsWith(text, t, name) then
      toks != [] && exists t, name ::
        BeginsWith(text, t, name) && toks[0] == Par(t) && Compiles(text[|name|..], toks[1..])
    else Compiles(text[1..], toks)
  }

  lemma NamesAre(t: ParamType, name: string)
    requires name in NamesOf(t)
    ensures |name| >= 5 && name[0] == '{' && name[|name| - 1] == '}' && '}' !in name[..|name| - 1]
    ensures name[1] == match t case Int => 'i' case Uint => 'u' case Double => (if |name| == 7 then 'f' else 'd')
                       case String => 's' case Path => 'p'
  {
    assert name == NamesOf(t)[0] || (|NamesOf(t)| == 2 && name == NamesOf(t)[1]);
  }

  /** At most one name begins a text. */
  lemma OneName(text: string, t: ParamType, name: string, t': ParamType, name': string)
    requires BeginsWith(text, t, name) && BeginsWith(text, t', name')
    ensures t == t' && name == name'
  {
    NamesAre(t, name);
    NamesAre(t', name');
    assert name[|name| - 1] == text[|name| - 1] && name'[|name'| - 1] == text[|name'| - 1];
    Absent(name, 0, |name| - 1, '}');
    Absent(name', 0, |name'| - 1, '}');
  }

  lemma Absent(s: string, lo: nat, hi: nat, c: char)
    requires lo <= hi <= |s| && c !in s[lo..hi]
    ensures forall k :: lo <= k < hi ==> s[k] != c
  {
    forall k | lo <= k < hi ensures s[k] != c { assert s[lo..hi][k - lo] == s[k]; }
  }

  /** The table of spellings holds exactly the names. */
  lemma SpellingsAreNames()
    ensures forall k :: 0 <= k < |SPELLINGS| ==> SPELLINGS[k].1 in NamesOf(SPELLINGS[k].0)
    ensures forall t, name :: name in NamesOf(t) ==> exists k :: 0 <= k < |SPELLINGS| && SPELLINGS[k] == (t, name)
  {
    forall t, name | name in NamesOf(t) ensures exists k :: 0 <= k < |SPELLINGS| && SPELLINGS[k] == (t, name) {
      var k :=
        match t
        case Int => 0
        case Uint => 1
        case Double => (if name == "{float}" then 2 else 3)
        case String => (if name == "{str}" then 4 else 5)
        case Path => 6;
      assert SPELLINGS[k] == (t, name);
    }
  }

  lemma SpellingFound(rule: string, i: nat, from: nat, k: nat)
    requires i <= |rule| && from <= k < |SPELLINGS| && SPELLINGS[k].1 <= rule[i..]
    ensures SpellingAt(rule, i, from).Some?
    decreases |SPELLINGS| - from
  {
    hide SPELLINGS;
    if from < k { SpellingFound(rule, i, from + 1, k); }
  }

  /** The search of the table finds the name that begins the text, if there is one. */
  lemma SpellingIs(rule: string, i: nat)
    requires i <= |rule|
    ensures match SpellingAt(rule, i, 0)
            case Some(k) => BeginsWith(rule[i..], SPELLINGS[k].0, SPELLINGS[k].1)
            case None => forall t, name :: !BeginsWith(rule[i..], t, name)
  {
    hide SPELLINGS, NamesOf, SpellingAt;
    SpellingsAreNames();
    if SpellingAt(rule, i, 0).None? {
      forall t, name ensures !BeginsWith(rule[i..], t, name) {
        if BeginsWith(rule[i..], t, name) {
          var k :| 0 <= k < |SPELLINGS| && SPELLINGS[k] == (t, name);
          SpellingFound(rule, i, 0, k);
        }
      }
    }
  }

  lemma {:induction false} TokensFromIff(rule: string, i: nat, toks: seq<Token>)
    requires i <= |rule|
    ensures TokensFrom(rule, i) == toks <==> Compiles(rule[i..], toks)
    decreases |rule| - i
  {
    hide SPELLINGS, NamesOf, SpellingAt, BeginsWith, TokensFrom;
    TokensStep(rule, i);
    if i < |rule| {
      assert rule[i..][1..] == rule[i + 1..];
      SpellingIs(rule, i);
      if rule[i] != '{' {
        if toks != [] {
          TokensFromIff(rule, i + 1, toks[1..]);
          assert toks == [toks[0]] + toks[1..];
        }
      } else if SpellingAt(rule, i, 0).None? {
        TokensFromIff(rule, i + 1, toks);
      } else {
        var (t, name) := SPELLINGS[SpellingAt(rule, i, 0).value];
        assert BeginsWith(rule[i..], t, name);
        NameOnly(rule[i..], t, name);
        if toks != [] {
          assert rule[i..][|name|..] == rule[i + |name|..];
          TokensFromIff(rule, i + |name|, toks[1..]);
          assert toks == [toks[0]] + toks[1..];
        }
      }
    }
  }

  lemma NameOnly(text: string, t: ParamType, name: string)
    requires BeginsWith(text, t, name)
    ensures forall t', name' :: BeginsWith(text, t', name') ==> t' == t && name' == name
    ensures 0 < |name| <= |text|
  {
    NamesAre(t, name);
    forall t', name' | BeginsWith(text, t', name')
      ensures t' == t && name' == name
    {
      OneName(text, t, name, t', name');
    }
  }

  /** The tokens of a rule text are exactly those it compiles to. */
  lemma TokensIff(text: string, toks: seq<Token>)
    ensures Tokens(text) == toks <==> Compiles(text, toks)
  {
    assert text[0..] == text;
    TokensFromIff(text, 0, toks);
  }

  /** A text writes out the tokens: literals other than a brace as themselves, parameters by one of their names. */
  ghost predicate Writes(text: string, toks: seq<Token>)
    decreases |toks|
  {
    if toks == [] then text == ""
    else match toks[0]
      case Lit(c) => c != '{' && text != "" && text[0] == c && Writes(text[1..], toks[1..])
      case Par(t) => exists name :: BeginsWith(text, t, name) && Writes(text[|name|..], toks[1..])
  }

  /** Whatever tokens a text writes out, it compiles to them. */
  lemma {:induction false} WrittenTokens(text: string, toks: seq<Token>)
    requires Writes(text, toks)
    ensures Tokens(text) == toks
  {
    WrittenCompiles(text, toks);
    TokensIff(text, toks);
  }

  lemma {:induction false} WrittenCompiles(text: string, toks: seq<Token>)
    requires Writes(text, toks)
    ensures Compiles(text, toks)
    decreases |toks|
  {
    hide NamesOf;
    if toks != [] {
      match toks[0]
      case Lit(c) => WrittenCompiles(text[1..], toks[1..]);
      case Par(t) =>
        var name :| BeginsWith(text, t, name) && Writes(text[|name|..], toks[1..]);
        NamesAre(t, name);
        WrittenCompiles(text[|name|..], toks[1..]);
    }
  }

  // ---------- Parameters ----------

  /** How a parameter consumes a URL, told by the characters consumed and the value handed on. */
  ghost predicate Consumes(sc: Scanners, t: ParamType, url: string, pos: nat, next: nat, v: Value) {
    pos < |url| &&
    match t
    case Int => url[pos] in "0123456789+-" && sc.toInt(url, pos) == Some((next, v))
    case Uint => url[pos] in "0123456789+" && sc.toUint(url, pos) == Some((next, v))
    case Double => url[pos] in "0123456789+-." && sc.toDouble(url, pos) == Some((next, v))
    case String =>
      pos < next <= |url| && v == StrV(url[pos..next]) && '/' !in url[pos..next] && (next == |url| || url[next] == '/')
    case Path => next == |url| && v == StrV(url[pos..next])
  }

  lemma DigitsListed(c: char)
    ensures c in "0123456789+-" <==> Digit(c) || c == '+' || c == '-'
    ensures c in "0123456789+" <==> Digit(c) || c == '+'
    ensures c in "0123456789+-." <==> Digit(c) || c == '+' || c == '-' || c == '.'
  {
    var s := "0123456789+-.";
    forall i | 0 <= i < 13 && s[i] == c ensures Digit(c) || c in "+-." {}
    if Digit(c) {
      assert s[c as int - '0' as int] == c;
      assert "0123456789+"[c as int - '0' as int] == c && "0123456789+-"[c as int - '0' as int] == c;
    }
  }

  lemma ConsumeIff(sc: Scanners, t: ParamType, url: string, pos: nat, next: nat, v: Value)
    requires pos < |url|
    ensures Consume(sc, t, url, pos) == Some((next, v)) <==> Consumes(sc, t, url, pos, next, v)
  {
    DigitsListed(url[pos]);
    if t == String && Consumes(sc, t, url, pos, next, v) { SegmentIs(url, pos, next); }
    if t == Path { assert url[pos..] == url[pos..|url|]; }
  }

  lemma SegmentIs(url: string, pos: nat, next: nat)
    requires pos <= next <= |url| && '/' !in url[pos..next] && (next == |url| || url[next] == '/')
    ensures SegmentEnd(url, pos) == next
  {
    var e := SegmentEnd(url, pos);
    Absent(url, pos, next, '/');
    Absent(url, pos, e, '/');
  }

  /** The tokens consume the URL from `pos` to its end, one after the other, and hand on the values. */
  ghost predicate ConsumesAll(sc: Scanners, toks: seq<Token>, url: string, pos: nat, vals: seq<Value>)
    decreases |toks|
  {
    if toks == [] then pos == |url| && vals == []
    else match toks[0]
      case Lit(c) => pos < |url| && url[pos] == c && ConsumesAll(sc, toks[1..], url, pos + 1, vals)
      case Par(t) =>
        vals != [] && exists next: nat ::
          Consumes(sc, t, url, pos, next, vals[0]) && ConsumesAll(sc, toks[1..], url, next, vals[1..])
  }

  /** Tokens decode to values exactly when they consume the URL so. */
  lemma {:induction false} DecodeIff(sc: Scanners, toks: seq<Token>, url: string, pos: nat, vals: seq<Value>)
    requires pos <= |url|
    ensures Decode(sc, toks, url, pos) == Some(vals) <==> ConsumesAll(sc, toks, url, pos, vals)
    decreases |toks|, 1
  {
    hide Consume, Consumes;
    if toks != [] && pos < |url| {
      match toks[0]
      case Lit(c) => DecodeIff(sc, toks[1..], url, pos + 1, vals);
      case Par(t) => ParameterIff(sc, t, toks, url, pos, vals);
    } else if toks != [] && toks[0].Par? && vals != [] {
      NothingLeft(sc, toks[0].t, url, pos, vals[0]);
    }
  }

  lemma NothingLeft(sc: Scanners, t: ParamType, url: string, pos: nat, v: Value)
    requires pos >= |url|
    ensures forall next: nat :: !Consumes(sc, t, url, pos, next, v)
  {}

  lemma {:induction false} ParameterIff(sc: Scanners, t: ParamType, toks: seq<Token>, url: string, pos: nat,
                                        vals: seq<Value>)
    requires pos < |url| && toks != [] && toks[0] == Par(t)
    ensures Decode(sc, toks, url, pos) == Some(vals) <==> ConsumesAll(sc, toks, url, pos, vals)
    decreases |toks|, 0
  {
    hide Consume, Consumes;
    if vals != [] {
      forall next: nat
        ensures Consume(sc, t, url, pos) == Some((next, vals[0])) <==> Consumes(sc, t, url, pos, next, vals[0])
      {
        ConsumeIff(sc, t, url, pos, next, vals[0]);
      }
      match Consume(sc, t, url, pos)
      case Some((next, v)) =>
        DecodeIff(sc, toks[1..], url, next, vals[1..]);
        assert vals == [vals[0]] + vals[1..];
      case None =>
    }
  }

  /** The text a decoded token stands for, with the values of its parameters in their place. */
  function Filled(toks: seq<Token>, vals: seq<Value>): string {
    if toks == [] then ""
    else match toks[0]
      case Lit(c) => [c] + Filled(toks[1..], vals)
      case Par(_) =>
        if vals == [] then "" else (if vals[0].StrV? then vals[0].s else "") + Filled(toks[1..], vals[1..])
  }

  predicate Textual(toks: seq<Token>) {
    forall i :: 0 <= i < |toks| && toks[i].Par? ==> toks[i].t.String? || toks[i].t.Path?
  }

  lemma TextValue(sc: Scanners, t: ParamType, url: string, pos: nat, next: nat, v: Value)
    requires Consumes(sc, t, url, pos, next, v) && (t.String? || t.Path?)
    ensures pos < next <= |url| && v == StrV(url[pos..next])
  {}

  lemma {:induction false} ConsumedFills(sc: Scanners, toks: seq<Token>, url: string, pos: nat, vals: seq<Value>)
    requires pos <= |url| && Textual(toks) && ConsumesAll(sc, toks, url, pos, vals)
    ensures Filled(toks, vals) == url[pos..]
    decreases |toks|
  {
    hide Consumes;
    if toks != [] {
      assert Textual(toks[1..]);
      match toks[0]
      case Lit(c) =>
        ConsumedFills(sc, toks[1..], url, pos + 1, vals);
        assert url[pos..] == [c] + url[pos + 1..];
      case Par(t) =>
        var next: nat :| Consumes(sc, t, url, pos, next, vals[0]) && ConsumesAll(sc, toks[1..], url, next, vals[1..]);
        TextValue(sc, t, url, pos, next, vals[0]);
        ConsumedFills(sc, toks[1..], url, next, vals[1..]);
        assert url[pos..] == url[pos..next] + url[next..];
    }
  }

  /** Where all parameters are strings and paths, writing the decoded values back in their place gives exactly the
      URL that was consumed. */
  lemma DecodedFills(sc: Scanners, toks: seq<Token>, url: string, pos: nat)
    requires pos <= |url| && Textual(toks) && Decode(sc, toks, url, pos).Some?
    ensures Filled(toks, Decode(sc, toks, url, pos).value) == url[pos..]
  {
    var vals := Decode(sc, toks, url, pos).value;
    DecodeIff(sc, toks, url, pos, vals);
    ConsumedFills(sc, toks, url, pos, vals);
  }

  // ---------- The order of the search ----------

  /** Parameters are tried as int, uint, double, string, path, and literals after them. */
  lemma OrderIs(c: char)
    ensures Before([Par(Int)], [Par(Uint)]) && Before([Par(Uint)], [Par(Double)])
            && Before([Par(Double)], [Par(String)])
    ensures Before([Par(String)], [Par(Path)]) && Before([Par(Path)], [Lit(c)])
  {}
}
