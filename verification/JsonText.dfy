/**
 JSON values: the recursive-descent parser, its validate-only form, and the compact and
 indented printers (sections 2 to 5 of RFC 8259). A number is the lexeme that spells it.
 */
module JsonText {
  import opened Options
  import opened JsonUtf8
  import opened JsonStrings
  import opened JsonNumbers

  datatype Json =
    | Null
    | Bool(b: bool)
    | Number(lexeme: Text)
    | String(s: Text)
    | Array(items: seq<Json>)
    | Object(members: seq<Member>)

  /** Members keep their order, and keys may repeat. */
  datatype Member = Member(key: Text, value: Json)

  const NULL_WORD: Text := [0x6E, 0x75, 0x6C, 0x6C]
  const TRUE_WORD: Text := [0x74, 0x72, 0x75, 0x65]
  const FALSE_WORD: Text := [0x66, 0x61, 0x6C, 0x73, 0x65]
  const OPEN_BRACKET: Byte := 0x5B
  const CLOSE_BRACKET: Byte := 0x5D
  const OPEN_BRACE: Byte := 0x7B
  const CLOSE_BRACE: Byte := 0x7D
  const COMMA: Byte := 0x2C
  const COLON: Byte := 0x3A

  predicate IsSpace(c: Byte) { c == 0x09 || c == 0x0A || c == 0x0D || c == 0x20 }

  function SkipSpace(t: Text): (r: Text)
    ensures |r| <= |t| && !IsSpace(At(r, 0))
  {
    if t != [] && IsSpace(t[0]) then SkipSpace(t[1..]) else (assert !IsSpace(0); t)
  }

  function ExpectLiteral(t: Text, word: Text): (r: Option<Text>)
    ensures r.Some? ==> |r.value| == |t| - |word|
  {
    if word <= t then Some(t[|word|..]) else None
  }

  // ---------- Parsing ----------

  function ParseValue(t: Text): (r: Option<(Json, Text)>)
    ensures r.Some? ==> |r.value.1| < |t|
    decreases |t|, 1
  {
    var c := At(t, 0);
    if c == 0x6E then match ExpectLiteral(t, NULL_WORD) case None => None case Some(s) => Some((Null, s))
    else if c == 0x66 then match ExpectLiteral(t, FALSE_WORD) case None => None case Some(s) => Some((Bool(false), s))
    else if c == 0x74 then match ExpectLiteral(t, TRUE_WORD) case None => None case Some(s) => Some((Bool(true), s))
    else if c == QUOTE then match ParseString(t) case None => None case Some((str, s)) => Some((String(str), s))
    else if c == OPEN_BRACKET then ParseArray(t)
    else if c == OPEN_BRACE then ParseObject(t)
    else match ParseNumber(t) case None => None case Some((lexeme, s)) => Some((Number(lexeme), s))
  }

  function ParseArray(t: Text): (r: Option<(Json, Text)>)
    ensures r.Some? ==> |r.value.1| < |t|
    decreases |t|, 0
  {
    if At(t, 0) != OPEN_BRACKET then None
    else
      var s := SkipSpace(t[1..]);
      if At(s, 0) == CLOSE_BRACKET then Some((Array([]), s[1..]))
      else match ParseItems(s) case None => None case Some((items, rest)) => Some((Array(items), rest))
  }

  /** The loop over elements, up to and including the closing bracket. */
  function ParseItems(t: Text): (r: Option<(seq<Json>, Text)>)
    ensures r.Some? ==> |r.value.1| < |t|
    decreases |t|, 2
  {
    match ParseValue(t)
    case None => None
    case Some((v, s0)) =>
      var s := SkipSpace(s0);
      if At(s, 0) == CLOSE_BRACKET then Some(([v], s[1..]))
      else if At(s, 0) != COMMA then None
      else match ParseItems(SkipSpace(s[1..])) case None => None case Some((vs, rest)) => Some(([v] + vs, rest))
  }

  function ParseObject(t: Text): (r: Option<(Json, Text)>)
    ensures r.Some? ==> |r.value.1| < |t|
    decreases |t|, 0
  {
    if At(t, 0) != OPEN_BRACE then None
    else
      var s := SkipSpace(t[1..]);
      if At(s, 0) == CLOSE_BRACE then Some((Object([]), s[1..]))
      else match ParseMembers(s) case None => None case Some((members, rest)) => Some((Object(members), rest))
  }

  /** One member: key, colon, value. */
  function ParseMember(t: Text): (r: Option<(Member, Text)>)
    ensures r.Some? ==> |r.value.1| < |t|
    decreases |t|, 2
  {
    match ParseString(t)
    case None => None
    case Some((key, s0)) =>
      var s := SkipSpace(s0);
      if At(s, 0) != COLON then None
      else match ParseValue(SkipSpace(s[1..])) case None => None case Some((v, rest)) => Some((Member(key, v), rest))
  }

  function ParseMembers(t: Text): (r: Option<(seq<Member>, Text)>)
    ensures r.Some? ==> |r.value.1| < |t|
    decreases |t|, 3
  {
    match ParseMember(t)
    case None => None
    case Some((m, s0)) =>
      var s := SkipSpace(s0);
      if At(s, 0) == CLOSE_BRACE then Some(([m], s[1..]))
      else if At(s, 0) != COMMA then None
      else match ParseMembers(SkipSpace(s[1..])) case None => None case Some((ms, rest)) => Some(([m] + ms, rest))
  }

  /** A whole document: nothing but white space around the value. */
  function Decode(t: Text): Option<Json> {
    match ParseValue(SkipSpace(t))
    case None => None
    case Some((v, s)) => if At(SkipSpace(s), 0) == 0 then Some(v) else None
  }

  // ---------- Printing ----------

  /** The compact layout, or the indented one with its indentation unit. */
  datatype Layout = Compact | Indented(space: Text)

  function Repeat(space: Text, n: nat): Text {
    if n == 0 then [] else space + Repeat(space, n - 1)
  }

  /** What goes before an item or a closing bracket at nesting depth `level`. */
  function Pad(lay: Layout, level: nat): Text {
    match lay case Compact => [] case Indented(space) => [0x0A] + Repeat(space, level)
  }

  function AfterColon(lay: Layout): Text { match lay case Compact => [] case Indented(_) => [0x20] }

  /** Every string and key is valid UTF-8; the printer refuses anything else. */
  predicate Printable(v: Json)
    decreases v
  {
    match v
    case String(s) => Validate(s)
    case Array(items) => forall i :: 0 <= i < |items| ==> Printable(items[i])
    case Object(members) => forall i :: 0 <= i < |members| ==> Validate(members[i].key) && Printable(members[i].value)
    case _ => true
  }

  function Print(v: Json, lay: Layout, level: nat): Text
    requires Printable(v)
    decreases v, 0
  {
    match v
    case Null => NULL_WORD
    case Bool(b) => if b then TRUE_WORD else FALSE_WORD
    case Number(lexeme) => lexeme
    case String(s) => EmitString(s).value
    case Array(items) =>
      if items == [] then [OPEN_BRACKET, CLOSE_BRACKET]
      else [OPEN_BRACKET] + PrintItems(items, lay, level + 1) + Pad(lay, level) + [CLOSE_BRACKET]
    case Object(members) =>
      if members == [] then [OPEN_BRACE, CLOSE_BRACE]
      else [OPEN_BRACE] + PrintMembers(members, lay, level + 1) + Pad(lay, level) + [CLOSE_BRACE]
  }

  function PrintItems(items: seq<Json>, lay: Layout, level: nat): Text
    requires items != [] && forall i :: 0 <= i < |items| ==> Printable(items[i])
    decreases items, 0
  {
    var first := Pad(lay, level) + Print(items[0], lay, level);
    if |items| == 1 then first else first + [COMMA] + PrintItems(items[1..], lay, level)
  }

  function PrintMember(m: Member, lay: Layout, level: nat): Text
    requires Validate(m.key) && Printable(m.value)
    decreases m, 0
  {
    EmitString(m.key).value + [COLON] + AfterColon(lay) + Print(m.value, lay, level)
  }

  function PrintMembers(members: seq<Member>, lay: Layout, level: nat): Text
    requires members != [] && forall i :: 0 <= i < |members| ==> Validate(members[i].key) && Printable(members[i].value)
    decreases members, 0
  {
    var first := Pad(lay, level) + PrintMember(members[0], lay, level);
    if |members| == 1 then first else first + [COMMA] + PrintMembers(members[1..], lay, level)
  }

  /** The printed document; nothing if some string is not valid UTF-8. */
  function Encode(v: Json, lay: Layout): Option<Text> {
    if Printable(v) then Some(Print(v, lay, 0)) else None
  }

  // ---------- Round trip ----------

  ghost predicate GoodText(s: Text) { Validate(s) && 0 !in s }

  /** A tree as the library can hold it: NUL-free valid strings, and numbers of the grammar. */
  ghost predicate Good(v: Json)
    decreases v
  {
    match v
    case Number(lexeme) => IsNumber(lexeme)
    case String(s) => GoodText(s)
    case Array(items) => forall i :: 0 <= i < |items| ==> Good(items[i])
    case Object(members) => forall i :: 0 <= i < |members| ==> GoodText(members[i].key) && Good(members[i].value)
    case _ => true
  }

  /** No string or key contains U+001F. */
  predicate Clean(v: Json)
    decreases v
  {
    match v
    case String(s) => 0x1F !in s
    case Array(items) => forall i :: 0 <= i < |items| ==> Clean(items[i])
    case Object(members) => forall i :: 0 <= i < |members| ==> 0x1F !in members[i].key && Clean(members[i].value)
    case _ => true
  }

  predicate Blank(lay: Layout) {
    lay.Indented? ==> forall i :: 0 <= i < |lay.space| ==> IsSpace(lay.space[i])
  }

  lemma {:induction false} GoodIsPrintable(v: Json)
    requires Good(v)
    ensures Printable(v)
    decreases v
  {
    match v
    case Array(items) =>
      forall i | 0 <= i < |items| ensures Printable(items[i]) { GoodIsPrintable(items[i]); }
    case Object(members) =>
      forall i | 0 <= i < |members| ensures Printable(members[i].value) { GoodIsPrintable(members[i].value); }
    case _ =>
  }

  lemma {:induction false} SkipBlank(w: Text, t: Text)
    requires forall i :: 0 <= i < |w| ==> IsSpace(w[i])
    ensures SkipSpace(w + t) == SkipSpace(t)
    decreases |w|
  {
    if w == [] {
      assert w + t == t;
    } else {
      assert (w + t)[1..] == w[1..] + t;
      SkipBlank(w[1..], t);
    }
  }

  lemma {:induction false} RepeatBlank(space: Text, n: nat)
    requires forall i :: 0 <= i < |space| ==> IsSpace(space[i])
    ensures forall i :: 0 <= i < |Repeat(space, n)| ==> IsSpace(Repeat(space, n)[i])
    decreases n
  {
    if n > 0 { RepeatBlank(space, n - 1); }
  }

  lemma SkipPad(lay: Layout, level: nat, t: Text)
    requires Blank(lay)
    ensures SkipSpace(Pad(lay, level) + t) == SkipSpace(t)
    ensures SkipSpace(AfterColon(lay) + t) == SkipSpace(t)
    ensures Stops(t) ==> Stops(Pad(lay, level) + t)
  {
    match lay
    case Compact =>
      assert Pad(lay, level) + t == t && AfterColon(lay) + t == t;
    case Indented(space) =>
      RepeatBlank(space, level);
      SkipBlank(Pad(lay, level), t);
      SkipBlank(AfterColon(lay), t);
  }

  /** Printed values begin with a character that is neither white space nor a closing bracket. */
  lemma PrintStart(v: Json, lay: Layout, level: nat)
    requires Good(v) && Printable(v)
    ensures var p := Print(v, lay, level); p != [] && !IsSpace(p[0]) && p[0] != CLOSE_BRACKET && p[0] != CLOSE_BRACE
  {
    if v.Number? { NumberStart(v.lexeme); }
  }

  lemma NoSkip(t: Text)
    requires t != [] && !IsSpace(t[0])
    ensures SkipSpace(t) == t
  {}

  ghost predicate AllGood(items: seq<Json>) { forall i :: 0 <= i < |items| ==> Good(items[i]) }
  predicate AllClean(items: seq<Json>) { forall i :: 0 <= i < |items| ==> Clean(items[i]) }

  ghost predicate AllGoodMembers(members: seq<Member>) {
    forall i :: 0 <= i < |members| ==> GoodText(members[i].key) && Good(members[i].value)
  }

  predicate AllCleanMembers(members: seq<Member>) {
    forall i :: 0 <= i < |members| ==> 0x1F !in members[i].key && Clean(members[i].value)
  }

  predicate AllPrintable(items: seq<Json>) { forall i :: 0 <= i < |items| ==> Printable(items[i]) }

  predicate AllPrintableMembers(members: seq<Member>) {
    forall i :: 0 <= i < |members| ==> Validate(members[i].key) && Printable(members[i].value)
  }

  lemma LiteralRoundTrip(word: Text, post: Text)
    ensures ExpectLiteral(word + post, word) == Some(post)
  {
    assert (word + post)[|word|..] == post;
  }

  /** Parsing a printed value gives it back, leaving what follows, exactly when no string or key
      contains U+001F; otherwise the text does not parse. */
  lemma {:induction false} ValueRoundTrip(v: Json, lay: Layout, level: nat, post: Text)
    requires Good(v) && Printable(v) && Blank(lay) && Stops(post)
    ensures ParseValue(Print(v, lay, level) + post) == if Clean(v) then Some((v, post)) else None
    decreases v, 1
  {
    hide ParseNumber, ParseString, ExpectLiteral, ParseItems, ParseMembers, ParseArray, ParseObject,
         PrintItems, PrintMembers, Stops, Validate, SkipSpace;
    var t := Print(v, lay, level) + post;
    match v
    case Null => LiteralRoundTrip(NULL_WORD, post); assert t[0] == NULL_WORD[0];
    case Bool(b) =>
      LiteralRoundTrip(if b then TRUE_WORD else FALSE_WORD, post);
      assert t[0] == (if b then TRUE_WORD else FALSE_WORD)[0];
    case Number(lexeme) =>
      NumberComplete(lexeme, post);
      NumberStart(lexeme);
      assert t[0] == lexeme[0];
    case String(s) =>
      StringRoundTrip(s, post);
      assert t[0] == QUOTE;
    case Array(items) =>
      assert t[0] == OPEN_BRACKET;
      ArrayRoundTrip(items, lay, level, post);
    case Object(members) =>
      assert t[0] == OPEN_BRACE;
      ObjectRoundTrip(members, lay, level, post);
  }

  lemma {:induction false} ArrayRoundTrip(items: seq<Json>, lay: Layout, level: nat, post: Text)
    requires AllGood(items) && AllPrintable(items) && Blank(lay)
    ensures ParseArray(Print(Array(items), lay, level) + post) ==
      if AllClean(items) then Some((Array(items), post)) else None
    decreases items, 2
  {
    hide ParseItems, PrintItems, Pad, Good, Clean, Blank;
    var t := Print(Array(items), lay, level) + post;
    if items == [] {
      assert t[1..] == [CLOSE_BRACKET] + post;
      NoSkip(t[1..]);
      assert t[1..][1..] == post;
    } else {
      var s := PrintItems(items, lay, level + 1) + (Pad(lay, level) + ([CLOSE_BRACKET] + post));
      assert t[1..] == s;
      ItemsStart(items, lay, level + 1, Pad(lay, level) + ([CLOSE_BRACKET] + post));
      ItemsRoundTrip(items, lay, level, post);
    }
  }

  /** Skipping the padding before the first item leaves the item itself. */
  lemma ItemsStart(items: seq<Json>, lay: Layout, level: nat, more: Text)
    requires items != [] && AllGood(items) && AllPrintable(items) && Blank(lay)
    ensures SkipSpace(PrintItems(items, lay, level) + more) ==
      Print(items[0], lay, level) + ((if |items| == 1 then [] else [COMMA] + PrintItems(items[1..], lay, level)) + more)
    ensures At(SkipSpace(PrintItems(items, lay, level) + more), 0) != CLOSE_BRACKET
  {
    hide Print, Pad, SkipSpace, Blank;
    var p := Print(items[0], lay, level);
    var r := (if |items| == 1 then [] else [COMMA] + PrintItems(items[1..], lay, level)) + more;
    PrintStart(items[0], lay, level);
    assert PrintItems(items, lay, level) + more == Pad(lay, level) + (p + r);
    SkipPad(lay, level, p + r);
    NoSkip(p + r);
  }

  lemma {:induction false} ItemsRoundTrip(items: seq<Json>, lay: Layout, level: nat, post: Text)
    requires items != [] && AllGood(items) && AllPrintable(items) && Blank(lay)
    ensures ParseItems(SkipSpace(PrintItems(items, lay, level + 1) + (Pad(lay, level) + ([CLOSE_BRACKET] + post)))) ==
      if AllClean(items) then Some((items, post)) else None
    decreases items, 1
  {
    hide Print, PrintItems, Pad, SkipSpace, Blank, ParseValue, Good, Printable, Clean;
    var more := Pad(lay, level) + ([CLOSE_BRACKET] + post);
    ItemsStart(items, lay, level + 1, more);
    var v := items[0];
    var s0 := (if |items| == 1 then [] else [COMMA] + PrintItems(items[1..], lay, level + 1)) + more;
    SkipPad(lay, level, [CLOSE_BRACKET] + post);
    assert Stops([CLOSE_BRACKET] + post);
    assert |items| == 1 ==> s0 == more;
    assert |items| > 1 ==> s0[0] == COMMA;
    assert Stops(s0);
    ValueRoundTrip(v, lay, level + 1, s0);
    if |items| == 1 {
      NoSkip([CLOSE_BRACKET] + post);
      assert ([CLOSE_BRACKET] + post)[1..] == post;
      assert items == [v];
    } else {
      NoSkip(s0);
      assert s0[1..] == PrintItems(items[1..], lay, level + 1) + more;
      ItemsRoundTrip(items[1..], lay, level, post);
      assert items == [v] + items[1..];
      AllCleanSplit(items);
    }
  }

  lemma AllCleanSplit(items: seq<Json>)
    requires items != []
    ensures AllClean(items) <==> Clean(items[0]) && AllClean(items[1..])
  {
    assert items == [items[0]] + items[1..];
    if Clean(items[0]) && AllClean(items[1..]) {
      forall i | 0 <= i < |items| ensures Clean(items[i]) { if i > 0 { assert items[i] == items[1..][i - 1]; } }
    }
  }

  lemma {:induction false} ObjectRoundTrip(members: seq<Member>, lay: Layout, level: nat, post: Text)
    requires AllGoodMembers(members) && AllPrintableMembers(members) && Blank(lay)
    ensures ParseObject(Print(Object(members), lay, level) + post) ==
      if AllCleanMembers(members) then Some((Object(members), post)) else None
    decreases members, 3
  {
    hide ParseMembers, PrintMembers, Pad, Good, Clean, Blank, Validate;
    var t := Print(Object(members), lay, level) + post;
    if members == [] {
      assert t[1..] == [CLOSE_BRACE] + post;
      NoSkip(t[1..]);
      assert t[1..][1..] == post;
    } else {
      var s := PrintMembers(members, lay, level + 1) + (Pad(lay, level) + ([CLOSE_BRACE] + post));
      assert t[1..] == s;
      MembersStart(members, lay, level + 1, Pad(lay, level) + ([CLOSE_BRACE] + post));
      MembersRoundTrip(members, lay, level, post);
    }
  }

  lemma MembersStart(members: seq<Member>, lay: Layout, level: nat, more: Text)
    requires members != [] && AllPrintableMembers(members) && Blank(lay)
    ensures SkipSpace(PrintMembers(members, lay, level) + more) ==
      PrintMember(members[0], lay, level)
        + ((if |members| == 1 then [] else [COMMA] + PrintMembers(members[1..], lay, level)) + more)
    ensures At(SkipSpace(PrintMembers(members, lay, level) + more), 0) != CLOSE_BRACE
  {
    hide PrintMember, Pad, SkipSpace, Blank, Validate;
    var p := PrintMember(members[0], lay, level);
    var r := (if |members| == 1 then [] else [COMMA] + PrintMembers(members[1..], lay, level)) + more;
    MemberStart(members[0], lay, level);
    assert PrintMembers(members, lay, level) + more == Pad(lay, level) + (p + r);
    SkipPad(lay, level, p + r);
    NoSkip(p + r);
  }

  lemma MemberStart(m: Member, lay: Layout, level: nat)
    requires Validate(m.key) && Printable(m.value)
    ensures PrintMember(m, lay, level) != [] && PrintMember(m, lay, level)[0] == QUOTE
  {}

  lemma {:induction false} MemberRoundTrip(m: Member, lay: Layout, level: nat, post: Text)
    requires GoodText(m.key) && Good(m.value) && Printable(m.value) && Blank(lay) && Stops(post)
    ensures ParseMember(PrintMember(m, lay, level) + post) ==
      if 0x1F !in m.key && Clean(m.value) then Some((m, post)) else None
    decreases m, 1
  {
    hide Print, Pad, SkipSpace, Blank, ParseValue, Good, Printable, Clean, Validate, ParseString, EmitString, Stops,
         AfterColon;
    var e, p := EmitString(m.key).value, Print(m.value, lay, level);
    var s := [COLON] + (AfterColon(lay) + (p + post));
    assert PrintMember(m, lay, level) + post == e + s;
    StringRoundTrip(m.key, s);
    NoSkip(s);
    assert s[1..] == AfterColon(lay) + (p + post);
    SkipPad(lay, level, p + post);
    PrintStart(m.value, lay, level);
    NoSkip(p + post);
    ValueRoundTrip(m.value, lay, level, post);
  }

  lemma {:induction false} MembersRoundTrip(members: seq<Member>, lay: Layout, level: nat, post: Text)
    requires members != [] && AllGoodMembers(members) && AllPrintableMembers(members) && Blank(lay)
    ensures ParseMembers(SkipSpace(PrintMembers(members, lay, level + 1)
                                   + (Pad(lay, level) + ([CLOSE_BRACE] + post)))) ==
      if AllCleanMembers(members) then Some((members, post)) else None
    decreases members, 2
  {
    hide PrintMember, PrintMembers, Pad, SkipSpace, Blank, ParseMember, Good, Printable, Clean, Validate, GoodText;
    var more := Pad(lay, level) + ([CLOSE_BRACE] + post);
    MembersStart(members, lay, level + 1, more);
    var m := members[0];
    var s0 := (if |members| == 1 then [] else [COMMA] + PrintMembers(members[1..], lay, level + 1)) + more;
    SkipPad(lay, level, [CLOSE_BRACE] + post);
    assert Stops([CLOSE_BRACE] + post);
    assert |members| == 1 ==> s0 == more;
    assert |members| > 1 ==> s0[0] == COMMA;
    assert Stops(s0);
    MemberRoundTrip(m, lay, level + 1, s0);
    if |members| == 1 {
      NoSkip([CLOSE_BRACE] + post);
      assert ([CLOSE_BRACE] + post)[1..] == post;
      assert members == [m];
    } else {
      NoSkip(s0);
      assert s0[1..] == PrintMembers(members[1..], lay, level + 1) + more;
      MembersRoundTrip(members[1..], lay, level, post);
      assert members == [m] + members[1..];
      AllCleanMembersSplit(members);
    }
  }

  lemma AllCleanMembersSplit(members: seq<Member>)
    requires members != []
    ensures AllCleanMembers(members) <==>
      0x1F !in members[0].key && Clean(members[0].value) && AllCleanMembers(members[1..])
  {
    assert members == [members[0]] + members[1..];
    if 0x1F !in members[0].key && Clean(members[0].value) && AllCleanMembers(members[1..]) {
      forall i | 0 <= i < |members| ensures 0x1F !in members[i].key && Clean(members[i].value) {
        if i > 0 { assert members[i] == members[1..][i - 1]; }
      }
    }
  }

  /** Print then parse: the identity on every tree the library can hold, in both layouts, if and
      only if no string or key contains U+001F; a tree with one prints to a text that is refused. */
  lemma DocumentRoundTrip(v: Json, lay: Layout)
    requires Good(v) && Blank(lay)
    ensures Encode(v, lay).Some?
    ensures Decode(Encode(v, lay).value) == if Clean(v) then Some(v) else None
  {
    hide ParseValue, Good, Printable, Clean, Print, Blank;
    GoodIsPrintable(v);
    var p := Print(v, lay, 0);
    PrintStart(v, lay, 0);
    NoSkip(p);
    assert Stops([]);
    ValueRoundTrip(v, lay, 0, []);
    assert p + [] == p;
  }

  /** The shortest string that does not come back: its text is refused in every layout. */
  lemma UnitSeparatorIsLost(lay: Layout)
    requires Blank(lay)
    ensures Good(String([0x1F])) && Encode(String([0x1F]), lay).Some?
    ensures Decode(Encode(String([0x1F]), lay).value) == None
  {
    hide ParseValue, Print;
    DocumentRoundTrip(String([0x1F]), lay);
  }

  // ---------- What parsing yields ----------

  lemma {:induction false} SkipSpaceRemains(t: Text)
    ensures Remains(SkipSpace(t), t)
    decreases |t|
  {
    if t != [] && IsSpace(t[0]) { SkipSpaceRemains(t[1..]); }
  }

  /** A step over `n` characters and white space. */
  lemma SkipRemains(s: Text, n: nat, t: Text)
    requires Remains(s, t) && n <= |s|
    ensures Remains(SkipSpace(s[n..]), t)
  {
    SkipSpaceRemains(s[n..]);
    assert Remains(s[n..], s);
    RemainsTransitive(s[n..], s, t);
    RemainsTransitive(SkipSpace(s[n..]), s[n..], t);
  }

  lemma ParsedStringGood(t: Text)
    requires ParseString(t).Some?
    ensures GoodText(ParseString(t).value.0) && Remains(ParseString(t).value.1, t)
  {
    ParsedIsValid(t[1..]);
    ParseCharsRemains(t[1..]);
    assert Remains(t[1..], t);
    RemainsTransitive(ParseString(t).value.1, t[1..], t);
  }

  /** What the parser builds is a tree it could print, and what it leaves is the rest of the text. */
  lemma {:induction false} ParsedGood(t: Text)
    requires ParseValue(t).Some?
    ensures Good(ParseValue(t).value.0) && Remains(ParseValue(t).value.1, t)
    decreases |t|, 1
  {
    hide ParseNumber, ParseString, ParseArray, ParseObject, Remains, GoodText;
    var c := At(t, 0);
    if c == 0x6E { LiteralRemains(t, NULL_WORD); }
    else if c == 0x66 { LiteralRemains(t, FALSE_WORD); }
    else if c == 0x74 { LiteralRemains(t, TRUE_WORD); }
    else if c == QUOTE { ParsedStringGood(t); }
    else if c == OPEN_BRACKET { ParsedArrayGood(t); }
    else if c == OPEN_BRACE { ParsedObjectGood(t); }
    else { ParsedNumberGood(t); }
  }

  lemma LiteralRemains(t: Text, word: Text)
    requires ExpectLiteral(t, word).Some?
    ensures Remains(ExpectLiteral(t, word).value, t)
  {}

  lemma ParsedNumberGood(t: Text)
    requires ParseNumber(t).Some?
    ensures IsNumber(ParseNumber(t).value.0) && Remains(ParseNumber(t).value.1, t)
  {
    NumberSound(t);
  }

  lemma {:induction false} ParsedArrayGood(t: Text)
    requires ParseArray(t).Some?
    ensures Good(ParseArray(t).value.0) && Remains(ParseArray(t).value.1, t)
    decreases |t|, 0
  {
    hide ParseItems, SkipSpace;
    var s := SkipSpace(t[1..]);
    SkipRemains(t, 1, t);
    if At(s, 0) == CLOSE_BRACKET {
      assert Remains(s[1..], s);
      RemainsTransitive(s[1..], s, t);
    } else {
      ParsedItemsGood(s);
      RemainsTransitive(ParseItems(s).value.1, s, t);
    }
  }

  lemma {:induction false} ParsedItemsGood(t: Text)
    requires ParseItems(t).Some?
    ensures AllGood(ParseItems(t).value.0) && Remains(ParseItems(t).value.1, t)
    decreases |t|, 2
  {
    hide ParseValue, SkipSpace, Good;
    ParsedGood(t);
    var (v, s0) := ParseValue(t).value;
    var s := SkipSpace(s0);
    assert s0[0..] == s0;
    SkipRemains(s0, 0, t);
    assert At(s, 0) != 0 ==> Remains(s[1..], s);
    if At(s, 0) == CLOSE_BRACKET {
      RemainsTransitive(s[1..], s, t);
    } else {
      SkipRemains(s, 1, t);
      ParsedItemsGood(SkipSpace(s[1..]));
      RemainsTransitive(ParseItems(t).value.1, SkipSpace(s[1..]), t);
    }
  }

  lemma {:induction false} ParsedObjectGood(t: Text)
    requires ParseObject(t).Some?
    ensures Good(ParseObject(t).value.0) && Remains(ParseObject(t).value.1, t)
    decreases |t|, 0
  {
    hide ParseMembers, SkipSpace, GoodText;
    var s := SkipSpace(t[1..]);
    SkipRemains(t, 1, t);
    if At(s, 0) == CLOSE_BRACE {
      assert Remains(s[1..], s);
      RemainsTransitive(s[1..], s, t);
    } else {
      ParsedMembersGood(s);
      RemainsTransitive(ParseMembers(s).value.1, s, t);
    }
  }

  lemma {:induction false} ParsedMemberGood(t: Text)
    requires ParseMember(t).Some?
    ensures GoodText(ParseMember(t).value.0.key) && Good(ParseMember(t).value.0.value)
            && Remains(ParseMember(t).value.1, t)
    decreases |t|, 2
  {
    hide ParseString, ParseValue, SkipSpace, GoodText, Good;
    ParsedStringGood(t);
    var (key, s0) := ParseString(t).value;
    var s := SkipSpace(s0);
    assert s0[0..] == s0;
    SkipRemains(s0, 0, t);
    SkipRemains(s, 1, t);
    ParsedGood(SkipSpace(s[1..]));
    RemainsTransitive(ParseMember(t).value.1, SkipSpace(s[1..]), t);
  }

  lemma {:induction false} ParsedMembersGood(t: Text)
    requires ParseMembers(t).Some?
    ensures AllGoodMembers(ParseMembers(t).value.0) && Remains(ParseMembers(t).value.1, t)
    decreases |t|, 3
  {
    hide ParseMember, SkipSpace, Good, GoodText;
    ParsedMemberGood(t);
    var (m, s0) := ParseMember(t).value;
    var s := SkipSpace(s0);
    assert s0[0..] == s0;
    SkipRemains(s0, 0, t);
    assert At(s, 0) != 0 ==> Remains(s[1..], s);
    if At(s, 0) == CLOSE_BRACE {
      RemainsTransitive(s[1..], s, t);
    } else {
      SkipRemains(s, 1, t);
      ParsedMembersGood(SkipSpace(s[1..]));
      RemainsTransitive(ParseMembers(t).value.1, SkipSpace(s[1..]), t);
    }
  }

  /** Whatever parses can be printed, and printing and parsing again gives the same tree unless a
      `\\u001F` escape brought in the one character the printer does not escape. */
  lemma ParsePrintParse(t: Text, lay: Layout)
    requires Decode(t).Some? && Blank(lay)
    ensures Good(Decode(t).value)
    ensures Encode(Decode(t).value, lay).Some?
    ensures Decode(Encode(Decode(t).value, lay).value) == if Clean(Decode(t).value) then Decode(t) else None
  {
    hide ParseValue, Good, Clean, Print, Blank;
    ParsedGood(SkipSpace(t));
    DocumentRoundTrip(Decode(t).value, lay);
  }

  // ---------- Validate only ----------

  /** The same parser called without a place for the result. */
  function ScanValue(t: Text): (r: Option<Text>)
    ensures r.Some? ==> |r.value| < |t|
    decreases |t|, 1
  {
    var c := At(t, 0);
    if c == 0x6E then ExpectLiteral(t, NULL_WORD)
    else if c == 0x66 then ExpectLiteral(t, FALSE_WORD)
    else if c == 0x74 then ExpectLiteral(t, TRUE_WORD)
    else if c == QUOTE then (ScanCharsAgrees(t[1..]); ScanString(t))
    else if c == OPEN_BRACKET then ScanArray(t)
    else if c == OPEN_BRACE then ScanObject(t)
    else match ParseNumber(t) case None => None case Some((_, s)) => Some(s)
  }

  function ScanArray(t: Text): (r: Option<Text>)
    ensures r.Some? ==> |r.value| < |t|
    decreases |t|, 0
  {
    if At(t, 0) != OPEN_BRACKET then None
    else
      var s := SkipSpace(t[1..]);
      if At(s, 0) == CLOSE_BRACKET then Some(s[1..]) else ScanItems(s)
  }

  function ScanItems(t: Text): (r: Option<Text>)
    ensures r.Some? ==> |r.value| < |t|
    decreases |t|, 2
  {
    match ScanValue(t)
    case None => None
    case Some(s0) =>
      var s := SkipSpace(s0);
      if At(s, 0) == CLOSE_BRACKET then Some(s[1..])
      else if At(s, 0) != COMMA then None
      else ScanItems(SkipSpace(s[1..]))
  }

  function ScanObject(t: Text): (r: Option<Text>)
    ensures r.Some? ==> |r.value| < |t|
    decreases |t|, 0
  {
    if At(t, 0) != OPEN_BRACE then None
    else
      var s := SkipSpace(t[1..]);
      if At(s, 0) == CLOSE_BRACE then Some(s[1..]) else ScanMembers(s)
  }

  function ScanMembers(t: Text): (r: Option<Text>)
    ensures r.Some? ==> |r.value| < |t|
    decreases |t|, 2
  {
    if At(t, 0) != QUOTE then None
    else (
      ScanCharsAgrees(t[1..]);
      match ScanString(t)
      case None => None
      case Some(k0) =>
        var k := SkipSpace(k0);
        if At(k, 0) != COLON then None
        else match ScanValue(SkipSpace(k[1..]))
          case None => None
          case Some(s0) =>
            var s := SkipSpace(s0);
            if At(s, 0) == CLOSE_BRACE then Some(s[1..])
            else if At(s, 0) != COMMA then None
            else ScanMembers(SkipSpace(s[1..])))
  }

  predicate ValidateDocument(t: Text) {
    match ScanValue(SkipSpace(t))
    case None => false
    case Some(s) => At(SkipSpace(s), 0) == 0
  }

  function Second<A>(r: Option<(A, Text)>): Option<Text> {
    match r case None => None case Some((_, s)) => Some(s)
  }

  /** Validating accepts the same language as building a tree, and stops at the same place. */
  lemma {:induction false} ScanValueAgrees(t: Text)
    ensures ScanValue(t) == Second(ParseValue(t))
    decreases |t|, 1
  {
    hide ParseNumber, ScanArray, ScanObject, ParseArray, ParseObject, ScanChars, ParseChars;
    var c := At(t, 0);
    if c == QUOTE { ScanCharsAgrees(t[1..]); }
    else if c == OPEN_BRACKET { ScanArrayAgrees(t); }
    else if c == OPEN_BRACE { ScanObjectAgrees(t); }
  }

  lemma {:induction false} ScanArrayAgrees(t: Text)
    ensures ScanArray(t) == Second(ParseArray(t))
    decreases |t|, 0
  {
    hide ScanItems, ParseItems, SkipSpace;
    if At(t, 0) == OPEN_BRACKET { ScanItemsAgrees(SkipSpace(t[1..])); }
  }

  lemma {:induction false} ScanItemsAgrees(t: Text)
    ensures ScanItems(t) == Second(ParseItems(t))
    decreases |t|, 2
  {
    hide ScanValue, ParseValue, SkipSpace;
    ScanValueAgrees(t);
    if ScanValue(t).Some? {
      var s := SkipSpace(ScanValue(t).value);
      if At(s, 0) == COMMA { ScanItemsAgrees(SkipSpace(s[1..])); }
    }
  }

  lemma {:induction false} ScanObjectAgrees(t: Text)
    ensures ScanObject(t) == Second(ParseObject(t))
    decreases |t|, 0
  {
    hide ScanMembers, ParseMembers, SkipSpace;
    if At(t, 0) == OPEN_BRACE { ScanMembersAgrees(SkipSpace(t[1..])); }
  }

  lemma {:induction false} ScanMembersAgrees(t: Text)
    ensures ScanMembers(t) == Second(ParseMembers(t))
    decreases |t|, 2
  {
    hide ScanValue, ParseValue, SkipSpace, ScanChars, ParseChars;
    if At(t, 0) == QUOTE {
      ScanCharsAgrees(t[1..]);
      if ScanString(t).Some? {
        var k := SkipSpace(ScanString(t).value);
        if At(k, 0) == COLON {
          var v := SkipSpace(k[1..]);
          ScanValueAgrees(v);
          if ScanValue(v).Some? {
            var s := SkipSpace(ScanValue(v).value);
            if At(s, 0) == COMMA { ScanMembersAgrees(SkipSpace(s[1..])); }
          }
        }
      }
    }
  }

  lemma ValidateAgrees(t: Text)
    ensures ValidateDocument(t) <==> Decode(t).Some?
  {
    hide ScanValue, ParseValue;
    ScanValueAgrees(SkipSpace(t));
  }
}
