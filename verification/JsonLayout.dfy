/**
 What the printer writes, told by the syntax trees of the grammar: which of the spellings of a value it chooses, and
 what white space it puts where in the compact and in the indented layout.
 */
module JsonLayout {
  import opened Options
  import opened JsonUtf8
  import opened JsonStrings
  import opened JsonNumbers
  import opened JsonText
  import opened JsonSyntax
  import opened JsonGrammar

  // ---------- The chosen spelling ----------

  /** Quotation marks, reverse solidi and control characters are escaped, with a letter where there is one and else
      with capital hexadecimal digits; all other characters stand for themselves, also the solidus. */
  ghost predicate Chosen(c: CharSyntax)
    requires CharOk(c)
  {
    match c
    case Plain(_) => true
    case Short(e, _) => e != 0x2F
    case Unicode(h) =>
      && HexNumber(h) < 0x1F && (forall i :: 0 <= i < 4 ==> h[i] < 0x61)
      && forall e, d :: Escapes(e, d) ==> HexNumber(h) != d as bv16
    case Pair(_, _) => false
  }

  ghost predicate AllChosen(cs: seq<CharSyntax>)
    requires CharsOk(cs)
  {
    forall i :: 0 <= i < |cs| ==> Chosen(cs[i])
  }

  /** `w` is `unit`, `n` times. */
  ghost predicate Times(w: Text, unit: Text, n: nat) {
    if n == 0 then w == [] else unit <= w && Times(w[|unit|..], unit, n - 1)
  }

  /** Nothing in the compact layout; in the indented one a line break and one unit for each level. */
  ghost predicate NewLine(lay: Layout, w: Text, level: nat) {
    match lay
    case Compact => w == []
    case Indented(unit) => w != [] && w[0] == 0x0A && Times(w[1..], unit, level)
  }

  /** Nothing in the compact layout, one space in the indented one. */
  ghost predicate OneSpace(lay: Layout, w: Text) {
    match lay case Compact => w == [] case Indented(_) => w == [0x20]
  }

  /** The white space of a value at nesting depth `level`: items and members on lines of their own one level deeper,
      the closing bracket on a line of its own, one space behind a colon, and none anywhere else. */
  ghost predicate Laid(x: Syntax, lay: Layout, level: nat)
    requires Ok(x)
    decreases x
  {
    match x
    case StringText(cs) => AllChosen(cs)
    case ArrayText(gap, items) => (items == [] ==> gap == []) && ItemsLaid(items, lay, level)
    case ObjectText(gap, entries) => (entries == [] ==> gap == []) && EntriesLaid(entries, lay, level)
    case _ => true
  }

  ghost predicate ItemsLaid(items: seq<Item>, lay: Layout, level: nat)
    requires ItemsOk(items)
    decreases items
  {
    forall i :: 0 <= i < |items| ==> ItemLaid(items[i], lay, level, i == |items| - 1)
  }

  ghost predicate ItemLaid(m: Item, lay: Layout, level: nat, last: bool)
    requires ItemOk(m)
    decreases m
  {
    && NewLine(lay, m.pre, level + 1) && Laid(m.value, lay, level + 1)
    && if last then NewLine(lay, m.post, level) else m.post == []
  }

  ghost predicate EntriesLaid(entries: seq<Entry>, lay: Layout, level: nat)
    requires EntriesOk(entries)
    decreases entries
  {
    forall i :: 0 <= i < |entries| ==> EntryLaid(entries[i], lay, level, i == |entries| - 1)
  }

  ghost predicate EntryLaid(e: Entry, lay: Layout, level: nat, last: bool)
    requires EntryOk(e)
    decreases e
  {
    assert ItemOk(e.item);
    && NewLine(lay, e.pre, level + 1) && AllChosen(e.key) && e.mid == []
    && OneSpace(lay, e.item.pre) && Laid(e.item.value, lay, level + 1)
    && if last then NewLine(lay, e.item.post, level) else e.item.post == []
  }

  // ---------- Strings ----------

  lemma MeaningValid(c: CharSyntax)
    requires CharOk(c)
    ensures Validate(CharMeaning(c)) && CharMeaning(c) != []
  {
    hide Validate, Utf8, HexNumber, IsHex, Scalar, PairCode, BasicCode, Leading, Trailing, WriteChar;
    match c
    case Plain(u) => ScalarValid(u);
    case Short(e, d) => ShortAscii(e, d); AsciiIsValid(d);
    case Unicode(h) =>
      BmpScalar(HexNumber(h));
      BasicNonzero(HexNumber(h));
      ScalarValid(BasicCode(HexNumber(h)));
    case Pair(h, l) =>
      SurrogatesAre(HexNumber(h), HexNumber(l));
      PairNonzero(HexNumber(h), HexNumber(l));
      ScalarValid(PairCode(HexNumber(h), HexNumber(l)));
  }

  lemma ShortAscii(e: Byte, d: Byte)
    requires Escapes(e, d)
    ensures 0 < d <= 0x7F
  {}

  lemma BasicNonzero(v: bv16)
    ensures v != 0 ==> BasicCode(v) != 0
  {}

  lemma PairNonzero(h: bv16, l: bv16)
    requires Leading(h) && Trailing(l)
    ensures PairCode(h, l) != 0
  {}

  lemma ScalarValid(u: CodePoint)
    requires Scalar(u) && u != 0
    ensures Validate(Utf8(u)) && Utf8(u) != []
  {
    hide Validate, Utf8, Scalar, IsScalar;
    WrittenUtf8(u);
    WrittenIsValid(u);
    ReadWritten(u, []);
    NonemptyUtf8(u);
  }

  lemma NonemptyUtf8(u: CodePoint)
    ensures Utf8(u) != []
  {}

  /** A chosen character is what the printer writes for its meaning. */
  lemma EmitsChosen(c: CharSyntax, rest: Text)
    requires CharOk(c) && Chosen(c)
    ensures var s := CharMeaning(c) + rest;
            s != [] && ValidateChar(s) != 0 && EmitChar(s) == (CharText(c), |CharMeaning(c)|)
  {
    hide ValidateChar, EmitChar, CharText, CharMeaning, Utf8;
    match c
    case Plain(u) => EmitsPlain(u, rest);
    case Short(e, d) => EmitsShort(e, d, rest);
    case Unicode(h) => EmitsUnicode(h, rest);
  }

  lemma EmitsPlain(u: CodePoint, rest: Text)
    requires CharOk(Plain(u))
    ensures var s := CharMeaning(Plain(u)) + rest;
            s != [] && ValidateChar(s) != 0 && EmitChar(s) == (CharText(Plain(u)), |CharMeaning(Plain(u))|)
  {
    hide ValidateChar, WriteChar, Utf8, Scalar, IsScalar, CharCode;
    var s := Utf8(u) + rest;
    WrittenUtf8(u);
    ReadWritten(u, rest);
    PlainStart(u);
    PlainUnescaped(s[0]);
    assert s[0] == Utf8(u)[0];
    assert s[..|Utf8(u)|] == Utf8(u);
  }

  lemma PlainUnescaped(b: Byte)
    ensures b > 0x1F && b != QUOTE && b != BACKSLASH ==> EscapeLetter(b).None? && !(b < 0x1F)
  {}

  lemma EmitsShort(e: Byte, d: Byte, rest: Text)
    requires Escapes(e, d) && e != 0x2F
    ensures var s := CharMeaning(Short(e, d)) + rest;
            s != [] && ValidateChar(s) != 0 && EmitChar(s) == (CharText(Short(e, d)), |CharMeaning(Short(e, d))|)
  {
    hide CharCode;
    ShortAscii(e, d);
    assert ([d] + rest)[0] == d && EscapeLetter(d) == Some(e);
  }

  lemma EmitsUnicode(h: Text, rest: Text)
    requires CharOk(Unicode(h)) && Chosen(Unicode(h))
    ensures var s := CharMeaning(Unicode(h)) + rest;
            s != [] && ValidateChar(s) != 0 && EmitChar(s) == (CharText(Unicode(h)), |CharMeaning(Unicode(h))|)
  {
    hide Utf8, HexNumber, IsHex, ReadChar, WriteHex16, EscapeLetter, BasicCode;
    var v := HexNumber(h);
    ControlMeaning(v);
    var b := Utf8(BasicCode(v))[0];
    var s := [b] + rest;
    assert CharMeaning(Unicode(h)) == [b];
    AsciiChar(s);
    NoLetter(b);
    CapitalDigits(h);
    assert s[0] == b;
  }

  lemma ControlMeaning(v: bv16)
    requires 0 < v < 0x1F
    ensures var w := Utf8(BasicCode(v));
            |w| == 1 && w[0] as bv16 == v && 0 < w[0] < 0x1F && ((w[0] as bv32) & 0xFFFF) as bv16 == v
  {}

  lemma NoLetter(b: Byte)
    requires b < 0x1F && forall e, d :: Escapes(e, d) ==> b as bv16 != d as bv16
    ensures EscapeLetter(b).None?
  {
    assert Escapes(0x62, 0x08) && Escapes(0x66, 0x0C) && Escapes(0x6E, 0x0A) && Escapes(0x72, 0x0D)
           && Escapes(0x74, 0x09);
  }

  lemma CapitalDigits(h: Text)
    requires IsHex(h) && HexNumber(h) < 0x1F && forall i :: 0 <= i < 4 ==> h[i] < 0x61
    ensures WriteHex16(HexNumber(h)) == h
  {
    hide HexDigit, HexChar;
    var a, b, c, d := HexDigit(h[0]).value, HexDigit(h[1]).value, HexDigit(h[2]).value, HexDigit(h[3]).value;
    HexDigitIs(h[0]);
    HexDigitIs(h[1]);
    HexDigitIs(h[2]);
    HexDigitIs(h[3]);
    DigitsOf(a, b, c, d);
    CapitalDigit(h[0], HexNumber(h) >> 12);
    CapitalDigit(h[1], HexNumber(h) >> 8);
    CapitalDigit(h[2], HexNumber(h) >> 4);
    CapitalDigit(h[3], HexNumber(h));
  }

  lemma DigitsOf(a: bv16, b: bv16, c: bv16, d: bv16)
    requires a < 16 && b < 16 && c < 16 && d < 16
    ensures var v := (a << 12) | (b << 8) | (c << 4) | d;
            (v >> 12) & 0xF == a && (v >> 8) & 0xF == b && (v >> 4) & 0xF == c && v & 0xF == d
  {}

  lemma CapitalDigit(c: Byte, v: bv16)
    requires c < 0x61 && HexDigit(c) == Some(v & 0xF)
    ensures HexChar(v) == c
  {}

  lemma {:induction false} EmitsAll(cs: seq<CharSyntax>)
    requires CharsOk(cs) && AllChosen(cs)
    ensures Validate(CharsMeaning(cs)) && EmitChars(CharsMeaning(cs)) == CharsText(cs)
    decreases |cs|
  {
    hide CharOk, Chosen, CharMeaning, CharText, EmitChar, ValidateChar;
    if cs != [] {
      var rest := CharsMeaning(cs[1..]);
      EmitsAll(cs[1..]);
      MeaningValid(cs[0]);
      ValidateConcat(CharMeaning(cs[0]), rest);
      EmitsChosen(cs[0], rest);
      var s := CharMeaning(cs[0]) + rest;
      assert s[|CharMeaning(cs[0])|..] == rest;
    }
  }

  lemma EmitsQuoted(cs: seq<CharSyntax>)
    requires CharsOk(cs) && AllChosen(cs)
    ensures EmitString(CharsMeaning(cs)) == Some(Quoted(cs))
  {
    hide EmitChars, CharsText, CharsMeaning, Validate;
    EmitsAll(cs);
    assert [QUOTE] + CharsText(cs) + [QUOTE] == [QUOTE] + (CharsText(cs) + [QUOTE]);
  }

  // ---------- White space ----------

  lemma {:induction false} TimesRepeat(w: Text, unit: Text, n: nat)
    requires Times(w, unit, n)
    ensures w == Repeat(unit, n)
  {
    if n > 0 { TimesRepeat(w[|unit|..], unit, n - 1); }
  }

  lemma NewLinePads(lay: Layout, w: Text, level: nat)
    requires NewLine(lay, w, level)
    ensures w == Pad(lay, level)
  {
    if lay.Indented? { TimesRepeat(w[1..], lay.space, level); }
  }

  // ---------- Values ----------

  /** A laid-out tree of a value is what the printer writes for it: the printer has no other choice. */
  lemma {:induction false} LaidPrints(x: Syntax, lay: Layout, level: nat)
    requires Ok(x) && Laid(x, lay, level)
    ensures Printable(Meaning(x)) && Print(Meaning(x), lay, level) == Spell(x)
    decreases x, 2
  {
    hide CharsOk, CharsText, CharsMeaning, EmitString, Validate, NewLine, Pad, SpellItems, SpellEntries, PrintItems,
         PrintMembers, IsNumber, AllChosen;
    match x
    case StringText(cs) => EmitsQuoted(cs);
    case ArrayText(gap, items) =>
      assert ItemsOk(items);
      if items != [] { ItemsPrint(items, lay, level); }
    case ObjectText(gap, entries) =>
      assert EntriesOk(entries);
      if entries != [] { EntriesPrint(entries, lay, level); }
    case _ =>
  }

  lemma {:induction false} ItemsPrint(items: seq<Item>, lay: Layout, level: nat)
    requires items != [] && ItemsOk(items) && ItemsLaid(items, lay, level)
    ensures var vs := Meanings(items);
            && vs != [] && (forall i :: 0 <= i < |vs| ==> Printable(vs[i]))
            && SpellItems(items) == PrintItems(vs, lay, level + 1) + Pad(lay, level)
    decreases items, 1
  {
    hide NewLine, Pad, Laid, Spell, Print, Printable, Meaning, ItemLaid, ItemOk, SpellItem;
    var m, vs := items[0], Meanings(items);
    assert ItemOk(m) && ItemLaid(m, lay, level, |items| == 1);
    var v := ItemPrints(m, lay, level, |items| == 1);
    if |items| == 1 {
      assert Meanings(items[1..]) == [];
      assert vs == [v];
    } else {
      assert forall i :: 0 <= i < |items[1..]| ==> items[1..][i] == items[i + 1];
      ItemsPrint(items[1..], lay, level);
      assert vs[1..] == Meanings(items[1..]);
    }
  }

  lemma {:induction false} ItemPrints(m: Item, lay: Layout, level: nat, last: bool) returns (v: Json)
    requires ItemOk(m) && ItemLaid(m, lay, level, last)
    ensures v == Meaning(m.value) && Printable(v)
    ensures SpellItem(m) == Pad(lay, level + 1) + Print(v, lay, level + 1) + if last then Pad(lay, level) else []
    decreases m, 1
  {
    hide NewLine, Pad, Laid, Spell, Print, Printable, Meaning;
    LaidPrints(m.value, lay, level + 1);
    NewLinePads(lay, m.pre, level + 1);
    if last { NewLinePads(lay, m.post, level); }
    v := Meaning(m.value);
  }

  lemma {:induction false} EntriesPrint(entries: seq<Entry>, lay: Layout, level: nat)
    requires entries != [] && EntriesOk(entries) && EntriesLaid(entries, lay, level)
    ensures var ms := MemberMeanings(entries);
            && ms != [] && (forall i :: 0 <= i < |ms| ==> Validate(ms[i].key) && Printable(ms[i].value))
            && SpellEntries(entries) == PrintMembers(ms, lay, level + 1) + Pad(lay, level)
    decreases entries, 1
  {
    hide NewLine, Pad, Laid, Spell, Print, Printable, Meaning, EmitString, Validate, CharsMeaning, CharsOk, AllChosen,
         CharsText, PrintMember, SpellEntry, EntryLaid, ItemOk, OneSpace;
    var e, ms := entries[0], MemberMeanings(entries);
    assert EntryLaid(e, lay, level, |entries| == 1) && EntryOk(e);
    var last := EntryPrints(e, lay, level, |entries| == 1);
    if |entries| == 1 {
      assert MemberMeanings(entries[1..]) == [];
      assert ms == [last];
    } else {
      assert forall i :: 0 <= i < |entries[1..]| ==> entries[1..][i] == entries[i + 1];
      EntriesPrint(entries[1..], lay, level);
      assert ms[1..] == MemberMeanings(entries[1..]);
    }
  }

  lemma {:induction false} EntryPrints(e: Entry, lay: Layout, level: nat, last: bool) returns (m: Member)
    requires EntryOk(e) && EntryLaid(e, lay, level, last)
    ensures ItemOk(e.item) && m == Member(CharsMeaning(e.key), Meaning(e.item.value))
    ensures Validate(m.key) && Printable(m.value)
    ensures SpellEntry(e) ==
            Pad(lay, level + 1) + PrintMember(m, lay, level + 1) + if last then Pad(lay, level) else []
    decreases e, 1
  {
    hide NewLine, Pad, Laid, Spell, Print, Printable, Meaning, EmitString, Validate, CharsMeaning, CharsOk, AllChosen,
         CharsText;
    LaidPrints(e.item.value, lay, level + 1);
    NewLinePads(lay, e.pre, level + 1);
    EmitsQuoted(e.key);
    if last { NewLinePads(lay, e.item.post, level); }
    m := Member(CharsMeaning(e.key), Meaning(e.item.value));
    assert AfterColon(lay) == e.item.pre;
  }

  // ---------- Every value has such a tree ----------

  lemma CharFor(s: Text) returns (c: CharSyntax, n: nat)
    requires s != [] && Validate(s) && s[0] != 0 && s[0] != 0x1F
    ensures 0 < n <= |s| && Validate(s[n..]) && CharOk(c) && Chosen(c) && CharMeaning(c) == s[..n]
  {
    hide CharCode, Utf8, Scalar;
    if s[0] > 0x1F && s[0] != QUOTE && s[0] != BACKSLASH {
      n := ValidateChar(s);
      var u := PlainDerives(s);
      c := Plain(u);
    } else {
      AsciiFirst(s);
      n := 1;
      c := EscapeFor(s[0]);
      assert s[..1] == [s[0]];
    }
  }

  lemma AsciiFirst(s: Text)
    requires s != [] && Validate(s) && s[0] <= 0x7F
    ensures Validate(s[1..])
  {
    assert ValidateChar(s) == 1;
  }

  lemma EscapeFor(b: Byte) returns (c: CharSyntax)
    requires 0 < b < 0x1F || b == QUOTE || b == BACKSLASH
    ensures CharOk(c) && Chosen(c) && CharMeaning(c) == [b]
  {
    hide HexNumber, IsHex, Utf8, BasicCode, WriteHex16, Leading, Trailing, Chosen;
    match EscapeLetter(b)
    case Some(e) =>
      LetterEscapes(b);
      c := Short(e, b);
    case None => c := ControlFor(b);
  }

  lemma LetterEscapes(b: Byte)
    requires EscapeLetter(b).Some?
    ensures var c := Short(EscapeLetter(b).value, b); CharOk(c) && Chosen(c)
  {}

  lemma ControlFor(b: Byte) returns (c: CharSyntax)
    requires 0 < b < 0x1F && EscapeLetter(b).None?
    ensures c.Unicode? && CharOk(c) && Chosen(c) && CharMeaning(c) == [b]
  {
    hide HexNumber, Utf8, BasicCode, WriteHex16, EscapeLetter;
    var h := WriteHex16(b as bv16);
    ControlDigits(b as bv16);
    ControlNumber(b);
    NoOther(b);
    c := Unicode(h);
  }

  lemma ControlDigits(v: bv16)
    requires v < 0x1F
    ensures IsHex(WriteHex16(v)) && HexNumber(WriteHex16(v)) == v
    ensures forall i :: 0 <= i < 4 ==> WriteHex16(v)[i] < 0x61
  {
    hide HexNumber, HexValue, HexDigit, HexChar;
    var h := WriteHex16(v);
    HexInverse(v, []);
    assert h + [] == h;
    HexDerives(h);
    assert h[..4] == h;
    SmallDigit(v >> 12);
    SmallDigit(v >> 8);
    SmallDigit(v >> 4);
    SmallDigit(v);
  }

  lemma SmallDigit(v: bv16)
    ensures HexChar(v) < 0x61
  {}

  lemma ControlNumber(b: Byte)
    requires 0 < b < 0x1F
    ensures 0 < b as bv16 < 0x1F && Utf8(BasicCode(b as bv16)) == [b]
  {}

  lemma NoOther(b: Byte)
    requires EscapeLetter(b).None?
    ensures forall e, d :: Escapes(e, d) && e != 0x2F ==> b as bv16 != d as bv16
    ensures b < 0x1F ==> b as bv16 != 0x2F
  {}

  lemma {:induction false} CharsFor(s: Text) returns (cs: seq<CharSyntax>)
    requires Validate(s) && 0 !in s && 0x1F !in s
    ensures CharsOk(cs) && AllChosen(cs) && CharsMeaning(cs) == s
    decreases |s|
  {
    hide CharOk, Chosen, CharMeaning, Validate;
    cs := [];
    if s != [] {
      var c, n := CharFor(s);
      var more := CharsFor(s[n..]);
      cs := [c] + more;
      assert cs[1..] == more && s == s[..n] + s[n..];
      assert forall i :: 1 <= i < |cs| ==> cs[i] == more[i - 1];
    }
  }

  lemma {:induction false} RepeatTimes(unit: Text, n: nat)
    ensures Times(Repeat(unit, n), unit, n)
  {
    if n > 0 {
      RepeatTimes(unit, n - 1);
      assert Repeat(unit, n)[|unit|..] == Repeat(unit, n - 1);
    }
  }

  lemma {:induction false} RepeatBlank(unit: Text, n: nat)
    requires IsBlank(unit)
    ensures IsBlank(Repeat(unit, n))
  {
    if n > 0 { RepeatBlank(unit, n - 1); }
  }

  lemma LineFor(lay: Layout, level: nat)
    requires Blank(lay)
    ensures NewLine(lay, Pad(lay, level), level) && IsBlank(Pad(lay, level))
  {
    if lay.Indented? {
      RepeatTimes(lay.space, level);
      assert forall i :: 0 <= i < |lay.space| ==> IsSpace(lay.space[i]);
      RepeatBlank(lay.space, level);
      assert Pad(lay, level)[1..] == Repeat(lay.space, level);
    }
  }

  /** Every value the printer takes and the parser gives back has a laid-out tree. */
  lemma {:induction false} TreeFor(v: Json, lay: Layout, level: nat) returns (x: Syntax)
    requires Good(v) && Clean(v) && Blank(lay)
    ensures Ok(x) && Laid(x, lay, level) && Meaning(x) == v
    decreases v, 1
  {
    hide NewLine, CharsOk, AllChosen, CharsMeaning, Validate, IsNumber, Blank;
    match v
    case Null => x := NullWord;
    case Bool(b) => x := BoolWord(b);
    case Number(lexeme) => x := NumberText(lexeme);
    case String(s) =>
      var cs := CharsFor(s);
      x := StringText(cs);
    case Array(items) =>
      var ms := ItemsFor(items, lay, level);
      x := ArrayText([], ms);
    case Object(members) =>
      var es := EntriesFor(members, lay, level);
      x := ObjectText([], es);
  }

  lemma {:induction false} ItemsFor(vs: seq<Json>, lay: Layout, level: nat) returns (items: seq<Item>)
    requires (forall i :: 0 <= i < |vs| ==> Good(vs[i]) && Clean(vs[i])) && Blank(lay)
    ensures ItemsOk(items) && ItemsLaid(items, lay, level) && Meanings(items) == vs && |items| == |vs|
    decreases vs, 0
  {
    hide NewLine, Good, Clean, Laid, Meaning, Blank, Pad;
    items := [];
    if vs != [] {
      var x := TreeFor(vs[0], lay, level + 1);
      var more := ItemsFor(vs[1..], lay, level);
      LineFor(lay, level + 1);
      LineFor(lay, level);
      var m := Item(Pad(lay, level + 1), x, if |vs| == 1 then Pad(lay, level) else []);
      items := [m] + more;
      assert items[1..] == more;
      assert forall i :: 1 <= i < |items| ==> items[i] == more[i - 1];
      assert ItemOk(m) && ItemLaid(m, lay, level, |items| == 1);
      forall i | 0 <= i < |items| ensures ItemOk(items[i]) && ItemLaid(items[i], lay, level, i == |items| - 1) {
        if i > 0 { assert ItemLaid(more[i - 1], lay, level, i - 1 == |more| - 1); }
      }
    }
  }

  lemma {:induction false} EntriesFor(ms: seq<Member>, lay: Layout, level: nat) returns (entries: seq<Entry>)
    requires forall i :: 0 <= i < |ms| ==>
               GoodText(ms[i].key) && 0x1F !in ms[i].key && Good(ms[i].value) && Clean(ms[i].value)
    requires Blank(lay)
    ensures EntriesOk(entries) && EntriesLaid(entries, lay, level) && MemberMeanings(entries) == ms && |entries| == |ms|
    decreases ms, 0
  {
    hide NewLine, Good, Clean, Laid, Meaning, Blank, Pad, CharsOk, AllChosen, CharsMeaning, Validate;
    entries := [];
    if ms != [] {
      var key := CharsFor(ms[0].key);
      var x := TreeFor(ms[0].value, lay, level + 1);
      var more := EntriesFor(ms[1..], lay, level);
      LineFor(lay, level + 1);
      LineFor(lay, level);
      var e := Entry(Pad(lay, level + 1), key, [], Item(AfterColon(lay), x, if |ms| == 1 then Pad(lay, level) else []));
      entries := [e] + more;
      assert entries[1..] == more;
      assert forall i :: 1 <= i < |entries| ==> entries[i] == more[i - 1];
      assert ItemOk(e.item) && EntryOk(e) && EntryLaid(e, lay, level, |entries| == 1);
      forall i | 0 <= i < |entries|
        ensures EntryOk(entries[i]) && EntryLaid(entries[i], lay, level, i == |entries| - 1)
      {
        if i > 0 { assert EntryLaid(more[i - 1], lay, level, i - 1 == |more| - 1); }
      }
    }
  }

  /** So a printed document is the one laid-out spelling of its value. */
  lemma PrintedIff(v: Json, lay: Layout, t: Text)
    requires Good(v) && Clean(v) && Blank(lay)
    ensures Encode(v, lay) == Some(t) <==> exists x :: Ok(x) && Laid(x, lay, 0) && Meaning(x) == v && Spell(x) == t
  {
    hide Good, Clean, Print, Printable, Spell, Laid, Meaning, Ok;
    var x := TreeFor(v, lay, 0);
    LaidPrints(x, lay, 0);
    forall y | Ok(y) && Laid(y, lay, 0) && Meaning(y) == v ensures Encode(v, lay) == Some(Spell(y)) {
      LaidPrints(y, lay, 0);
    }
  }
}
