/**
 What a route rule means, independently of any trie: the token sequence its text
 compiles to, and the way a token sequence consumes a URL.
 */
module RouteRules {
  import opened Options

  datatype ParamType = Int | Uint | Double | String | Path

  /** One step of a compiled rule: a literal character or a typed parameter. */
  datatype Token = Lit(c: char) | Par(t: ParamType)

  /** A decoded parameter value. */
  datatype Value = IntV(i: int) | UintV(u: nat) | DoubleV(d: real) | StrV(s: string)

  // ---------- Rule text to tokens ----------

  /** The placeholder spellings, in the order they are tried. */
  const SPELLINGS: seq<(ParamType, string)> := [
    (Int, "{int}"), (Uint, "{uint}"), (Double, "{float}"), (Double, "{double}"),
    (String, "{str}"), (String, "{string}"), (Path, "{path}")
  ]

  /** The first spelling at or after `from` that the text at position `i` starts with. */
  function SpellingAt(rule: string, i: nat, from: nat): (r: Option<nat>)
    requires i <= |rule| && from <= |SPELLINGS|
    ensures r.Some? ==> r.value < |SPELLINGS| && SPELLINGS[r.value].1 <= rule[i..]
    decreases |SPELLINGS| - from
  {
    if from == |SPELLINGS| then None
    else if SPELLINGS[from].1 <= rule[i..] then Some(from)
    else SpellingAt(rule, i, from + 1)
  }

  /** The tokens of the rule text from position `i` on. A `{` that starts no known
      placeholder yields no token at all. */
  function TokensFrom(rule: string, i: nat): (toks: seq<Token>)
    requires i <= |rule|
    decreases |rule| - i
  {
    if i == |rule| then []
    else if rule[i] != '{' then [Lit(rule[i])] + TokensFrom(rule, i + 1)
    else match SpellingAt(rule, i, 0)
      case None => TokensFrom(rule, i + 1)
      case Some(s) => [Par(SPELLINGS[s].0)] + TokensFrom(rule, i + |SPELLINGS[s].1|)
  }

  function Tokens(rule: string): seq<Token> { TokensFrom(rule, 0) }

  /** One step of compiling a text. */
  lemma TokensStep(s: string, i: nat)
    requires i <= |s|
    ensures TokensFrom(s, i) ==
            if i == |s| then []
            else if s[i] != '{' then [Lit(s[i])] + TokensFrom(s, i + 1)
            else match SpellingAt(s, i, 0)
              case None => TokensFrom(s, i + 1)
              case Some(k) => [Par(SPELLINGS[k].0)] + TokensFrom(s, i + |SPELLINGS[k].1|)
  {
    hide SpellingAt, SPELLINGS;
  }

  // ---------- Tokens against a URL ----------

  /** A number scanner: from a position it either fails or yields a value and a later position. */
  type Scanner = f: (string, nat) -> Option<(nat, Value)> |
    forall url: string, pos: nat :: f(url, pos).Some? ==> pos < f(url, pos).value.0 <= |url|
    witness (url, pos) => None

  /** The three C library conversions; everything below holds for any three scanners. */
  datatype Scanners = Scanners(toInt: Scanner, toUint: Scanner, toDouble: Scanner)

  predicate Digit(c: char) { '0' <= c <= '9' }

  /** The end of the run of non-slash characters that starts at `pos`. */
  function SegmentEnd(url: string, pos: nat): (e: nat)
    requires pos <= |url|
    ensures pos <= e <= |url|
    ensures '/' !in url[pos..e] && (e < |url| ==> url[e] == '/')
    decreases |url| - pos
  {
    if pos == |url| || url[pos] == '/' then pos else SegmentEnd(url, pos + 1)
  }

  /** How a parameter of type `t` consumes the URL at `pos`: the value and the next position. */
  function Consume(sc: Scanners, t: ParamType, url: string, pos: nat): (r: Option<(nat, Value)>)
    requires pos < |url|
    ensures r.Some? ==> pos < r.value.0 <= |url|
  {
    var c := url[pos];
    match t
    case Int => if Digit(c) || c == '+' || c == '-' then sc.toInt(url, pos) else None
    case Uint => if Digit(c) || c == '+' then sc.toUint(url, pos) else None
    case Double => if Digit(c) || c == '+' || c == '-' || c == '.' then sc.toDouble(url, pos) else None
    case String =>
      var e := SegmentEnd(url, pos);
      if e != pos then Some((e, StrV(url[pos..e]))) else None
    case Path => Some((|url|, StrV(url[pos..])))
  }

  /** The values decoded when `toks` consumes exactly the URL from `pos` to its end. */
  function Decode(sc: Scanners, toks: seq<Token>, url: string, pos: nat): (r: Option<seq<Value>>)
    requires pos <= |url|
    decreases |toks|
  {
    if toks == [] then (if pos == |url| then Some([]) else None)
    else if pos == |url| then None
    else match toks[0]
      case Lit(c) => if url[pos] == c then Decode(sc, toks[1..], url, pos + 1) else None
      case Par(t) =>
        match Consume(sc, t, url, pos)
        case None => None
        case Some((next, v)) =>
          match Decode(sc, toks[1..], url, next)
          case None => None
          case Some(vs) => Some([v] + vs)
  }

  ghost predicate Matches(sc: Scanners, toks: seq<Token>, url: string) { Decode(sc, toks, url, 0).Some? }

  /** The dictionary a list of rules denotes: the index stored under each token sequence. */
  type Rules = map<seq<Token>, nat>

  /** What a search must answer: the least nonzero index among the matching rules, 0 if there is none. */
  ghost predicate IsBest(sc: Scanners, rules: Rules, url: string, r: nat) {
    && (r != 0 ==> exists p :: p in rules && rules[p] == r && Matches(sc, p, url))
    && (forall p :: p in rules && rules[p] != 0 && Matches(sc, p, url) ==> r != 0 && r <= rules[p])
  }
}
