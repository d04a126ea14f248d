/**
 The parser's agreement with the grammar: it accepts exactly the texts that some syntax tree spells, and yields
 the value the tree stands for.
 */
module JsonGrammar {
  import opened Options
  import opened JsonUtf8
  import opened JsonStrings
  import opened JsonNumbers
  import opened JsonText
  import opened JsonSyntax

  // ---------- The codecs and the tables of the parser ----------

  lemma HexDigitIs(c: Byte)
    ensures HexValue(c) == HexDigit(c) && (HexDigit(c).Some? ==> HexDigit(c).value < 16)
  {}

  lemma HexSumIs(a: bv16, b: bv16, c: bv16, d: bv16)
    requires a < 16 && b < 16 && c < 16 && d < 16
    ensures HexSum(a, b, c, d) == (a << 12) | (b << 8) | (c << 4) | d
  {}

  lemma WrittenUtf8(u: CodePoint)
    requires Scalar(u)
    ensures WriteChar(u) == Some(Utf8(u)) && IsScalar(u)
  {}

  lemma SurrogatesAre(h: bv16, l: bv16)
    ensures FromSurrogates(h, l) == if Leading(h) && Trailing(l) then Some(PairCode(h, l)) else None
    ensures IsSurrogate(h) <==> Leading(h) || Trailing(h)
    ensures Leading(h) && Trailing(l) ==> Scalar(PairCode(h, l))
  {}

  lemma EscapesAre(e: Byte, c: Byte)
    ensures EscapeValue(e) == Some(c) <==> Escapes(e, c)
    ensures Escapes(e, c) ==> e != LETTER_U
    ensures EscapeValue(0).None?
  {}

  lemma BmpScalar(v: bv16)
    requires !Leading(v) && !Trailing(v)
    ensures Scalar(BasicCode(v)) && Widen(v) == BasicCode(v)
  {}

  // ---------- Characters ----------

  lemma HexParses(h: Text, rest: Text)
    requires IsHex(h)
    ensures ParseHex16(h + rest) == Some((HexNumber(h), rest))
  {
    hide HexValue, HexDigit, HexSum;
    var t := h + rest;
    assert t[4..] == rest;
    assert At(t, 0) == h[0] && At(t, 1) == h[1] && At(t, 2) == h[2] && At(t, 3) == h[3];
    HexDigitIs(h[0]);
    HexDigitIs(h[1]);
    HexDigitIs(h[2]);
    HexDigitIs(h[3]);
    HexSumIs(HexDigit(h[0]).value, HexDigit(h[1]).value, HexDigit(h[2]).value, HexDigit(h[3]).value);
  }

  lemma HexDerives(t: Text)
    requires ParseHex16(t).Some?
    ensures IsHex(t[..4]) && HexNumber(t[..4]) == ParseHex16(t).value.0 && ParseHex16(t).value.1 == t[4..]
  {
    hide HexValue, HexDigit, HexSum, HexNumber;
    HexDigitIs(At(t, 0));
    HexDigitIs(At(t, 1));
    HexDigitIs(At(t, 2));
    HexDigitIs(At(t, 3));
    assert t == t[..4] + t[4..];
    HexParses(t[..4], t[4..]);
  }

  lemma UnicodeParses(h: Text, rest: Text)
    requires CharOk(Unicode(h))
    ensures ParseUnicode(h + rest) == Some((CharMeaning(Unicode(h)), rest))
  {
    hide ParseHex16, ParseUnicode, HexNumber, IsHex, Utf8, Leading, Trailing, BasicCode;
    HexParses(h, rest);
    OneParses(h + rest, HexNumber(h), rest);
  }

  /** Four digits that are no surrogate and not zero are the code point. */
  lemma OneParses(t: Text, v: bv16, rest: Text)
    requires ParseHex16(t) == Some((v, rest)) && v != 0 && !Leading(v) && !Trailing(v) && |rest| < |t|
    ensures ParseUnicode(t) == Some((Utf8(BasicCode(v)), rest))
  {
    hide ParseHex16, WriteChar, Utf8, IsSurrogate, Leading, Trailing, Widen, BasicCode, Scalar, IsScalar;
    SurrogatesAre(v, 0);
    BmpScalar(v);
    WrittenUtf8(BasicCode(v));
  }

  lemma PairParses(h: Text, l: Text, rest: Text)
    requires CharOk(Pair(h, l))
    ensures ParseUnicode(h + ([BACKSLASH, LETTER_U] + (l + rest))) == Some((CharMeaning(Pair(h, l)), rest))
  {
    hide ParseHex16, WriteChar, HexNumber, IsHex, Utf8, IsSurrogate, FromSurrogates, PairCode, Leading, Trailing,
         Scalar;
    var s := [BACKSLASH, LETTER_U] + (l + rest);
    HexParses(h, s);
    HexParses(l, rest);
    assert s[2..] == l + rest;
    SurrogatesAre(HexNumber(h), HexNumber(l));
    WrittenUtf8(PairCode(HexNumber(h), HexNumber(l)));
  }

  lemma ShortParses(e: Byte, c: Byte, rest: Text)
    requires CharOk(Short(e, c))
    ensures ParseChar(CharText(Short(e, c)) + rest) == Some((CharMeaning(Short(e, c)), rest))
  {
    hide EscapeValue, ParseUnicode, Escapes;
    EscapesAre(e, c);
    var t := CharText(Short(e, c)) + rest;
    assert t[2..] == rest && At(t, 0) == BACKSLASH && At(t, 1) == e;
  }

  lemma EscapeParses(t: Text)
    ensures ParseChar([BACKSLASH, LETTER_U] + t) == ParseUnicode(t)
  {
    hide EscapeValue, ParseUnicode;
    assert ([BACKSLASH, LETTER_U] + t)[2..] == t;
  }

  /** What a character spells parses to what it stands for. */
  lemma CharParses(c: CharSyntax, rest: Text)
    requires CharOk(c)
    ensures ParseChar(CharText(c) + rest) == Some((CharMeaning(c), rest))
  {
    hide ParseChar, CharText, CharMeaning, CharOk;
    match c
    case Plain(u) => PlainParses(u, rest);
    case Short(e, c) => ShortParses(e, c, rest);
    case Unicode(h) => OneUnicodeParses(h, rest);
    case Pair(h, l) => TwoUnicodeParses(h, l, rest);
  }

  lemma OneUnicodeParses(h: Text, rest: Text)
    requires CharOk(Unicode(h))
    ensures ParseChar(CharText(Unicode(h)) + rest) == Some((CharMeaning(Unicode(h)), rest))
  {
    hide ParseUnicode, ParseChar, CharMeaning, HexNumber, IsHex, Leading, Trailing;
    assert CharText(Unicode(h)) + rest == [BACKSLASH, LETTER_U] + (h + rest);
    EscapeParses(h + rest);
    UnicodeParses(h, rest);
  }

  lemma TwoUnicodeParses(h: Text, l: Text, rest: Text)
    requires CharOk(Pair(h, l))
    ensures ParseChar(CharText(Pair(h, l)) + rest) == Some((CharMeaning(Pair(h, l)), rest))
  {
    hide ParseUnicode, ParseChar, CharMeaning, HexNumber, IsHex, Leading, Trailing;
    var more := h + ([BACKSLASH, LETTER_U] + (l + rest));
    assert CharText(Pair(h, l)) + rest == [BACKSLASH, LETTER_U] + more;
    EscapeParses(more);
    PairParses(h, l, rest);
  }

  lemma PlainParses(u: CodePoint, rest: Text)
    requires CharOk(Plain(u))
    ensures ParseChar(CharText(Plain(u)) + rest) == Some((CharMeaning(Plain(u)), rest))
  {
    hide ValidateChar, WriteChar, Utf8, Scalar, IsScalar;
    var w := Utf8(u);
    var t := w + rest;
    WrittenUtf8(u);
    ReadWritten(u, rest);
    PlainStart(u);
    assert t[0] == w[0];
    assert t[..|w|] == w && t[|w|..] == rest;
  }

  lemma PlainStart(u: CodePoint)
    requires CharOk(Plain(u))
    ensures var w := Utf8(u); w != [] && w[0] > 0x1F && w[0] != QUOTE && w[0] != BACKSLASH
  {}

  /** An unescaped character of the text is the UTF-8 of a code point. */
  lemma PlainDerives(t: Text) returns (u: CodePoint)
    requires t != [] && ValidateChar(t) != 0 && t[0] > 0x1F && t[0] != QUOTE && t[0] != BACKSLASH
    ensures ValidateChar(t) <= |t| && CharOk(Plain(u)) && Utf8(u) == t[..ValidateChar(t)]
  {
    hide ValidateChar, WriteChar, Utf8, CharCode, IsScalar, Scalar;
    ValidateCharInside(t);
    ValidIsWritten(t);
    u := CharCode(At(t, 0), At(t, 1), At(t, 2), At(t, 3));
    ScalarIs(u);
    WrittenUtf8(u);
    AsciiPlain(u);
  }

  lemma ScalarIs(u: CodePoint)
    ensures IsScalar(u) <==> Scalar(u)
  {}

  lemma AsciiPlain(u: CodePoint)
    ensures u < 0x20 || u == 0x22 || u == 0x5C ==> Utf8(u)[0] <= 0x1F || Utf8(u)[0] == QUOTE || Utf8(u)[0] == BACKSLASH
  {}

  /** Whatever parses as a character is spelled by one. */
  lemma CharDerives(t: Text) returns (c: CharSyntax)
    requires ParseChar(t).Some? && At(t, 0) != QUOTE
    ensures CharOk(c) && CharMeaning(c) == ParseChar(t).value.0 && t == CharText(c) + ParseChar(t).value.1
  {
    hide ParseUnicode, EscapeValue, ValidateChar, IsHex, HexNumber, Utf8, Scalar, Escapes;
    if At(t, 0) == BACKSLASH {
      if At(t, 1) == LETTER_U {
        c := UnicodeDerives(t[2..]);
        assert t == [BACKSLASH, LETTER_U] + t[2..];
      } else {
        EscapesAre(At(t, 1), 0);
        EscapesAre(At(t, 1), EscapeValue(At(t, 1)).value);
        c := Short(At(t, 1), EscapeValue(At(t, 1)).value);
        assert t == [t[0], t[1]] + t[2..];
      }
    } else {
      var u := PlainDerives(t);
      c := Plain(u);
      assert t == t[..ValidateChar(t)] + t[ValidateChar(t)..];
    }
  }

  lemma CharStart(c: CharSyntax)
    requires CharOk(c)
    ensures CharText(c) != [] && CharText(c)[0] != QUOTE
  {
    hide Utf8;
    if c.Plain? { PlainStart(c.u); }
  }

  /** The two ways a `\\u` escape is read. */
  lemma EscapedAs(t: Text)
    requires ParseUnicode(t).Some?
    ensures ParseHex16(t).Some?
    ensures var (v, s) := ParseHex16(t).value;
            if IsSurrogate(v) then
              && At(s, 0) == BACKSLASH && At(s, 1) == LETTER_U && ParseHex16(s[2..]).Some?
              && var (l, rest) := ParseHex16(s[2..]).value;
                 FromSurrogates(v, l).Some? && WriteChar(FromSurrogates(v, l).value).Some?
                 && ParseUnicode(t) == Some((WriteChar(FromSurrogates(v, l).value).value, rest))
            else v != 0
  {
    hide ParseHex16, IsSurrogate, FromSurrogates, WriteChar, IsScalar;
  }

  lemma UnicodeDerives(t: Text) returns (c: CharSyntax)
    requires ParseUnicode(t).Some?
    ensures c.Unicode? || c.Pair?
    ensures CharOk(c) && CharMeaning(c) == ParseUnicode(t).value.0
    ensures [BACKSLASH, LETTER_U] + t == CharText(c) + ParseUnicode(t).value.1
  {
    hide ParseHex16, ParseUnicode, HexNumber, IsHex, IsSurrogate;
    EscapedAs(t);
    if IsSurrogate(ParseHex16(t).value.0) { c := PairDerives(t); } else { c := OneDerives(t); }
  }

  lemma OneDerives(t: Text) returns (c: CharSyntax)
    requires ParseUnicode(t).Some? && ParseHex16(t).Some? && !IsSurrogate(ParseHex16(t).value.0)
    ensures c.Unicode? && CharOk(c) && CharMeaning(c) == ParseUnicode(t).value.0
    ensures [BACKSLASH, LETTER_U] + t == CharText(c) + ParseUnicode(t).value.1
  {
    hide ParseHex16, ParseUnicode, HexNumber, IsHex, IsSurrogate, Leading, Trailing, Utf8, BasicCode;
    HexDerives(t);
    EscapedAs(t);
    var (v, s) := ParseHex16(t).value;
    SurrogatesAre(v, 0);
    OneParses(t, v, s);
    c := Unicode(t[..4]);
    assert t == t[..4] + t[4..];
  }

  lemma PairDerives(t: Text) returns (c: CharSyntax)
    requires ParseUnicode(t).Some? && ParseHex16(t).Some? && IsSurrogate(ParseHex16(t).value.0)
    ensures c.Pair? && CharOk(c) && CharMeaning(c) == ParseUnicode(t).value.0
    ensures [BACKSLASH, LETTER_U] + t == CharText(c) + ParseUnicode(t).value.1
  {
    hide ParseHex16, ParseUnicode, HexNumber, IsHex, IsSurrogate, FromSurrogates, WriteChar, PairCode, Leading,
         Trailing, Utf8, Scalar, IsScalar;
    HexDerives(t);
    EscapedAs(t);
    var (v, s) := ParseHex16(t).value;
    HexDerives(s[2..]);
    var l := ParseHex16(s[2..]).value.0;
    SurrogatesAre(v, l);
    WrittenUtf8(PairCode(v, l));
    c := Pair(t[..4], s[2..][..4]);
    assert s == [BACKSLASH, LETTER_U] + s[2..];
    assert s[2..] == s[2..][..4] + s[2..][4..];
    assert t == t[..4] + t[4..];
  }

  // ---------- Strings ----------

  lemma {:induction false} CharsParse(cs: seq<CharSyntax>, rest: Text)
    requires CharsOk(cs)
    ensures ParseChars(CharsText(cs) + ([QUOTE] + rest)) == Some((CharsMeaning(cs), rest))
    decreases |cs|
  {
    hide CharText, CharOk, CharMeaning, ParseChar;
    var t := CharsText(cs) + ([QUOTE] + rest);
    if cs == [] {
      assert t[1..] == rest;
    } else {
      var more := CharsText(cs[1..]) + ([QUOTE] + rest);
      CharStart(cs[0]);
      assert t == CharText(cs[0]) + more;
      CharParses(cs[0], more);
      assert At(t, 0) == CharText(cs[0])[0];
      CharsParse(cs[1..], rest);
    }
  }

  lemma {:induction false} CharsDerive(t: Text) returns (cs: seq<CharSyntax>)
    requires ParseChars(t).Some?
    ensures CharsOk(cs) && CharsMeaning(cs) == ParseChars(t).value.0
    ensures t == CharsText(cs) + ([QUOTE] + ParseChars(t).value.1)
    decreases |t|
  {
    hide CharText, CharOk, CharMeaning, ParseChar;
    if At(t, 0) == QUOTE {
      cs := [];
      assert t == [QUOTE] + t[1..];
    } else {
      var c := CharDerives(t);
      var more := CharsDerive(ParseChar(t).value.1);
      cs := [c] + more;
      assert cs[1..] == more && cs[0] == c;
      assert forall i :: 1 <= i < |cs| ==> cs[i] == more[i - 1];
    }
  }

  lemma StringParses(cs: seq<CharSyntax>, rest: Text)
    requires CharsOk(cs)
    ensures ParseString(Quoted(cs) + rest) == Some((CharsMeaning(cs), rest))
  {
    hide CharsOk, CharsText, CharsMeaning, ParseChars;
    CharsParse(cs, rest);
    assert (Quoted(cs) + rest)[1..] == CharsText(cs) + ([QUOTE] + rest);
  }

  lemma StringDerives(t: Text) returns (cs: seq<CharSyntax>)
    requires ParseString(t).Some?
    ensures CharsOk(cs) && CharsMeaning(cs) == ParseString(t).value.0 && t == Quoted(cs) + ParseString(t).value.1
  {
    hide CharsOk, CharsText, CharsMeaning, ParseChars;
    cs := CharsDerive(t[1..]);
    assert t == [QUOTE] + t[1..];
  }

  // ---------- Every spelling is parsed ----------

  lemma SpellStart(x: Syntax)
    requires Ok(x)
    ensures var t := Spell(x); t != [] && !IsSpace(t[0]) && t[0] != CLOSE_BRACKET && t[0] != CLOSE_BRACE
  {
    hide CharsOk, CharsText, ItemOk, EntryOk, IsNumber, SpellItems, SpellEntries;
    if x.NumberText? { NumberStart(x.lexeme); }
  }

  /** White space before something that does not continue a number does not continue it either. */
  lemma StopsAfterBlank(w: Text, t: Text)
    requires IsBlank(w) && Stops(t)
    ensures Stops(w + t)
  {
    if w == [] { assert w + t == t; } else { assert At(w + t, 0) == w[0]; }
  }

  lemma StructureStops(c: Byte, t: Text)
    requires c == COMMA || c == CLOSE_BRACKET || c == CLOSE_BRACE || c == COLON
    ensures Stops([c] + t) && SkipSpace([c] + t) == [c] + t && ([c] + t)[1..] == t
  {}

  lemma {:induction false} ValueParses(x: Syntax, rest: Text)
    requires Ok(x) && (x.NumberText? ==> Stops(rest))
    ensures ParseValue(Spell(x) + rest) == Some((Meaning(x), rest))
    decreases x, 1
  {
    hide ParseNumber, ParseString, ExpectLiteral, ParseArray, ParseObject, Stops, CharsOk, CharsMeaning, CharsText,
         SpellItems, SpellEntries, ItemOk, EntryOk;
    var t := Spell(x) + rest;
    match x
    case NullWord => LiteralRoundTrip(NULL_WORD, rest); assert t[0] == NULL_WORD[0];
    case BoolWord(b) =>
      LiteralRoundTrip(if b then TRUE_WORD else FALSE_WORD, rest);
      assert t[0] == (if b then TRUE_WORD else FALSE_WORD)[0];
    case NumberText(lexeme) =>
      NumberComplete(lexeme, rest);
      NumberStart(lexeme);
      assert t[0] == lexeme[0];
    case StringText(cs) =>
      StringParses(cs, rest);
      assert t[0] == QUOTE;
    case ArrayText(gap, items) =>
      assert t[0] == OPEN_BRACKET;
      ArrayParses(gap, items, rest);
    case ObjectText(gap, entries) =>
      assert t[0] == OPEN_BRACE;
      ObjectParses(gap, entries, rest);
  }

  lemma {:induction false} ArrayParses(gap: Text, items: seq<Item>, rest: Text)
    requires Ok(ArrayText(gap, items))
    ensures ParseArray(Spell(ArrayText(gap, items)) + rest) == Some((Array(Meanings(items)), rest))
    decreases items, 3
  {
    hide ParseItems, SpellItems, SkipSpace, ItemOk;
    var t := Spell(ArrayText(gap, items)) + rest;
    var body := if items == [] then gap else SpellItems(items);
    assert t[1..] == body + ([CLOSE_BRACKET] + rest);
    if items == [] {
      SkipBlank(gap, [CLOSE_BRACKET] + rest);
      StructureStops(CLOSE_BRACKET, rest);
    } else {
      ItemsParse(items, rest);
    }
  }

  /** One item, up to the comma or bracket behind it. */
  lemma {:induction false} ItemParses(m: Item, tail: Text)
    requires ItemOk(m) && Stops(tail) && SkipSpace(tail) == tail
    ensures SkipSpace(SpellItem(m) + tail) == Spell(m.value) + (m.post + tail)
    ensures ParseValue(Spell(m.value) + (m.post + tail)) == Some((Meaning(m.value), m.post + tail))
    ensures SkipSpace(m.post + tail) == tail
    decreases m, 2
  {
    hide ParseValue, Spell, Meaning, Stops, SkipSpace;
    var more := Spell(m.value) + (m.post + tail);
    assert SpellItem(m) + tail == m.pre + more;
    SkipBlank(m.pre, more);
    SpellStart(m.value);
    NoSkip(more);
    StopsAfterBlank(m.post, tail);
    ValueParses(m.value, m.post + tail);
    SkipBlank(m.post, tail);
  }

  lemma {:induction false} ItemsParse(items: seq<Item>, rest: Text)
    requires items != [] && ItemsOk(items)
    ensures var s := SkipSpace(SpellItems(items) + ([CLOSE_BRACKET] + rest));
            At(s, 0) != CLOSE_BRACKET && ParseItems(s) == Some((Meanings(items), rest))
    decreases items, 2
  {
    hide ParseValue, Spell, Meaning, Stops, SkipSpace, ItemOk, SpellItem;
    var close := [CLOSE_BRACKET] + rest;
    var m := items[0];
    StructureStops(CLOSE_BRACKET, rest);
    ItemValueOk(m);
    SpellStart(m.value);
    if |items| == 1 {
      ItemParses(m, close);
      assert items[1..] == [] && Meanings(items) == [Meaning(m.value)];
      assert close[1..] == rest;
    } else {
      var more := SpellItems(items[1..]) + close;
      StructureStops(COMMA, more);
      ItemParses(m, [COMMA] + more);
      assert SpellItems(items) + close == SpellItem(m) + ([COMMA] + more);
      ItemsParse(items[1..], rest);
    }
  }

  lemma ItemValueOk(m: Item)
    requires ItemOk(m)
    ensures Ok(m.value)
  {}

  lemma {:induction false} ObjectParses(gap: Text, entries: seq<Entry>, rest: Text)
    requires Ok(ObjectText(gap, entries))
    ensures ParseObject(Spell(ObjectText(gap, entries)) + rest) == Some((Object(MemberMeanings(entries)), rest))
    decreases entries, 3
  {
    hide ParseMembers, SpellEntries, SkipSpace, EntryOk;
    var t := Spell(ObjectText(gap, entries)) + rest;
    var body := if entries == [] then gap else SpellEntries(entries);
    assert t[1..] == body + ([CLOSE_BRACE] + rest);
    if entries == [] {
      SkipBlank(gap, [CLOSE_BRACE] + rest);
      StructureStops(CLOSE_BRACE, rest);
    } else {
      EntriesParse(entries, rest);
    }
  }

  /** One member, up to the comma or brace behind it. */
  lemma {:induction false} EntryParses(e: Entry, tail: Text)
    requires EntryOk(e) && Stops(tail) && SkipSpace(tail) == tail
    ensures var s := SkipSpace(SpellEntry(e) + tail);
            At(s, 0) == QUOTE
            && ParseMember(s) == Some((Member(CharsMeaning(e.key), Meaning(e.item.value)), e.item.post + tail))
    ensures SkipSpace(e.item.post + tail) == tail
    decreases e, 2
  {
    hide ParseValue, ParseString, Spell, Meaning, Stops, SkipSpace, CharsMeaning, CharsText, CharsOk;
    var after := SpellItem(e.item) + tail;
    var colon := [COLON] + after;
    var s := Quoted(e.key) + (e.mid + colon);
    assert SpellEntry(e) + tail == e.pre + s;
    SkipBlank(e.pre, s);
    assert s[0] == QUOTE;
    NoSkip(s);
    StringParses(e.key, e.mid + colon);
    SkipBlank(e.mid, colon);
    StructureStops(COLON, after);
    ItemParses(e.item, tail);
  }

  lemma {:induction false} EntriesParse(entries: seq<Entry>, rest: Text)
    requires entries != [] && EntriesOk(entries)
    ensures var s := SkipSpace(SpellEntries(entries) + ([CLOSE_BRACE] + rest));
            At(s, 0) != CLOSE_BRACE && ParseMembers(s) == Some((MemberMeanings(entries), rest))
    decreases entries, 2
  {
    hide ParseMember, Spell, Meaning, Stops, SkipSpace, SpellEntry, CharsMeaning;
    var close := [CLOSE_BRACE] + rest;
    var e := entries[0];
    StructureStops(CLOSE_BRACE, rest);
    if |entries| == 1 {
      EntryParses(e, close);
      assert entries[1..] == [] && MemberMeanings(entries) == [Member(CharsMeaning(e.key), Meaning(e.item.value))];
      assert close[1..] == rest;
    } else {
      var more := SpellEntries(entries[1..]) + close;
      StructureStops(COMMA, more);
      EntryParses(e, [COMMA] + more);
      assert SpellEntries(entries) + close == SpellEntry(e) + ([COMMA] + more);
      EntriesParse(entries[1..], rest);
    }
  }

  // ---------- Whatever is parsed is a spelling ----------

  lemma {:induction false} SkipSplits(t: Text) returns (w: Text)
    ensures IsBlank(w) && t == w + SkipSpace(t)
    decreases |t|
  {
    if t != [] && IsSpace(t[0]) {
      var more := SkipSplits(t[1..]);
      w := [t[0]] + more;
      assert t == [t[0]] + t[1..];
    } else {
      w := [];
    }
  }

  lemma WordDerives(t: Text, word: Text)
    requires ExpectLiteral(t, word).Some?
    ensures t == word + ExpectLiteral(t, word).value
  {}

  lemma NumberDerives(t: Text)
    requires ParseNumber(t).Some?
    ensures IsNumber(ParseNumber(t).value.0) && t == ParseNumber(t).value.0 + ParseNumber(t).value.1
  {
    NumberSound(t);
  }

  lemma {:induction false} ValueDerives(t: Text) returns (x: Syntax)
    requires ParseValue(t).Some?
    ensures Ok(x) && Meaning(x) == ParseValue(t).value.0 && t == Spell(x) + ParseValue(t).value.1
    decreases |t|, 1
  {
    hide ParseNumber, ParseString, ExpectLiteral, ParseArray, ParseObject, CharsOk, CharsMeaning, CharsText, Quoted,
         SpellItems, SpellEntries, ItemOk, EntryOk, IsNumber;
    var c := At(t, 0);
    if c == 0x6E { WordDerives(t, NULL_WORD); x := NullWord; }
    else if c == 0x66 { WordDerives(t, FALSE_WORD); x := BoolWord(false); }
    else if c == 0x74 { WordDerives(t, TRUE_WORD); x := BoolWord(true); }
    else if c == QUOTE { var cs := StringDerives(t); x := StringText(cs); }
    else if c == OPEN_BRACKET { x := ArrayDerives(t); }
    else if c == OPEN_BRACE { x := ObjectDerives(t); }
    else { NumberDerives(t); x := NumberText(ParseNumber(t).value.0); }
  }

  lemma {:induction false} ArrayDerives(t: Text) returns (x: Syntax)
    requires ParseArray(t).Some?
    ensures Ok(x) && Meaning(x) == ParseArray(t).value.0 && t == Spell(x) + ParseArray(t).value.1
    decreases |t|, 0
  {
    hide ParseItems, SkipSpace, SpellItems, ItemOk, Meanings;
    var s := SkipSpace(t[1..]);
    var w := SkipSplits(t[1..]);
    var rest := ParseArray(t).value.1;
    assert t == [OPEN_BRACKET] + t[1..];
    if At(s, 0) == CLOSE_BRACKET {
      x := ArrayText(w, []);
      NoMeanings();
      assert s == [CLOSE_BRACKET] + rest;
    } else {
      var items := ItemsDerive(s, w);
      x := ArrayText([], items);
      assert t[1..] == SpellItems(items) + ([CLOSE_BRACKET] + rest);
    }
  }

  lemma NoMeanings()
    ensures Meanings([]) == [] && MemberMeanings([]) == []
  {}

  /** The items of `t`, the first with `w` before it. */
  lemma {:induction false} ItemsDerive(t: Text, w: Text) returns (items: seq<Item>)
    requires ParseItems(t).Some? && IsBlank(w)
    ensures items != [] && ItemsOk(items) && Meanings(items) == ParseItems(t).value.0
    ensures w + t == SpellItems(items) + ([CLOSE_BRACKET] + ParseItems(t).value.1)
    decreases |t|, 2
  {
    hide ParseValue, SkipSpace, Spell, Meaning;
    var x := ValueDerives(t);
    var (v, s0) := ParseValue(t).value;
    var s := SkipSpace(s0);
    var post := SkipSplits(s0);
    var m := Item(w, x, post);
    assert w + t == SpellItem(m) + s;
    if At(s, 0) == CLOSE_BRACKET {
      items := [m];
      assert items[1..] == [] && Meanings(items) == [Meaning(x)];
      assert s == [CLOSE_BRACKET] + s[1..];
    } else {
      var w' := SkipSplits(s[1..]);
      var more := ItemsDerive(SkipSpace(s[1..]), w');
      items := [m] + more;
      assert items[1..] == more;
      assert s == [COMMA] + s[1..];
      assert forall i :: 1 <= i < |items| ==> items[i] == more[i - 1];
    }
  }

  lemma {:induction false} ObjectDerives(t: Text) returns (x: Syntax)
    requires ParseObject(t).Some?
    ensures Ok(x) && Meaning(x) == ParseObject(t).value.0 && t == Spell(x) + ParseObject(t).value.1
    decreases |t|, 0
  {
    hide ParseMembers, SkipSpace, SpellEntries, EntryOk, MemberMeanings;
    var s := SkipSpace(t[1..]);
    var w := SkipSplits(t[1..]);
    var rest := ParseObject(t).value.1;
    assert t == [OPEN_BRACE] + t[1..];
    if At(s, 0) == CLOSE_BRACE {
      x := ObjectText(w, []);
      NoMeanings();
      assert s == [CLOSE_BRACE] + rest;
    } else {
      var entries := EntriesDerive(s, w);
      x := ObjectText([], entries);
      assert t[1..] == SpellEntries(entries) + ([CLOSE_BRACE] + rest);
    }
  }

  /** The member at the start of `t`, with `w` before it and `post` behind it. */
  lemma {:induction false} EntryDerives(t: Text, w: Text) returns (e: Entry)
    requires ParseMember(t).Some? && IsBlank(w)
    ensures EntryOk(e) && ItemOk(e.item) && ParseMember(t).value.0 == Member(CharsMeaning(e.key), Meaning(e.item.value))
    ensures w + t == SpellEntry(e) + SkipSpace(ParseMember(t).value.1)
    decreases |t|, 2
  {
    hide ParseValue, ParseString, SkipSpace, Spell, Meaning, CharsMeaning, CharsOk, Quoted;
    var cs := StringDerives(t);
    var (key, s0) := ParseString(t).value;
    var s := SkipSpace(s0);
    var mid := SkipSplits(s0);
    var pre := SkipSplits(s[1..]);
    var x := ValueDerives(SkipSpace(s[1..]));
    var rest := ParseMember(t).value.1;
    var post := SkipSplits(rest);
    e := Entry(w, cs, mid, Item(pre, x, post));
    assert s == [COLON] + s[1..];
    assert s[1..] == SpellItem(e.item) + SkipSpace(rest);
  }

  lemma {:induction false} EntriesDerive(t: Text, w: Text) returns (entries: seq<Entry>)
    requires ParseMembers(t).Some? && IsBlank(w)
    ensures entries != [] && EntriesOk(entries) && MemberMeanings(entries) == ParseMembers(t).value.0
    ensures w + t == SpellEntries(entries) + ([CLOSE_BRACE] + ParseMembers(t).value.1)
    decreases |t|, 3
  {
    hide ParseMember, SkipSpace, SpellEntry, Meaning, CharsMeaning;
    var e := EntryDerives(t, w);
    var (m, s0) := ParseMember(t).value;
    var s := SkipSpace(s0);
    if At(s, 0) == CLOSE_BRACE {
      entries := [e];
      assert entries[1..] == [] && MemberMeanings(entries) == [m];
      assert s == [CLOSE_BRACE] + s[1..];
    } else {
      var w' := SkipSplits(s[1..]);
      var more := EntriesDerive(SkipSpace(s[1..]), w');
      entries := [e] + more;
      assert entries[1..] == more;
      assert s == [COMMA] + s[1..];
      assert forall i :: 1 <= i < |entries| ==> entries[i] == more[i - 1];
    }
  }

  // ---------- Documents ----------

  /** Decoding accepts exactly the documents of the grammar, and yields the value they stand for; it reads
      up to a NUL. */
  lemma DecodeIff(t: Text, v: Json)
    ensures Spells(t, v) ==> Decode(t) == Some(v)
    ensures Decode(t) == Some(v) && 0 !in t ==> Spells(t, v)
  {
    hide ParseValue, Meaning, Spell, Ok, SkipSpace;
    if Decode(t) == Some(v) && 0 !in t {
      var pre := SkipSplits(t);
      var s := SkipSpace(t);
      var x := ValueDerives(s);
      var rest := ParseValue(s).value.1;
      var post := SkipSplits(rest);
      assert forall c :: c in SkipSpace(rest) ==> c in t;
      assert SkipSpace(rest) == [];
      assert rest == post;
      assert SpellsAs(t, v, pre, x, post);
    }
    if Spells(t, v) {
      var pre, x, post :| SpellsAs(t, v, pre, x, post);
      SpellStart(x);
      SkipBlank(pre, Spell(x) + post);
      NoSkip(Spell(x) + post);
      BlankStops(post);
      ValueParses(x, post);
    }
  }

  lemma BlankStops(w: Text)
    requires IsBlank(w)
    ensures Stops(w) && SkipSpace(w) == []
  {
    assert w + [] == w;
    SkipBlank(w, []);
  }

  /** No document spells two values. */
  lemma SpellsOne(t: Text, v: Json, v': Json)
    requires Spells(t, v) && Spells(t, v')
    ensures v == v'
  {
    DecodeIff(t, v);
    DecodeIff(t, v');
  }

  // ---------- Valid strings ----------

  function Utf8s(us: seq<CodePoint>): Text { if us == [] then [] else Utf8(us[0]) + Utf8s(us[1..]) }

  predicate Scalars(us: seq<CodePoint>) { forall i :: 0 <= i < |us| ==> Scalar(us[i]) }

  /** The strings taken for valid are exactly the UTF-8 of sequences of code points. */
  lemma ValidateIff(s: Text)
    ensures Validate(s) <==> exists us :: Scalars(us) && Utf8s(us) == s
  {
    hide Utf8s, Scalars, Validate;
    if Validate(s) { var us := CodePointsOf(s); }
    if us :| Scalars(us) && Utf8s(us) == s { CodePointsValid(us); }
  }

  lemma {:induction false} CodePointsOf(s: Text) returns (us: seq<CodePoint>)
    requires Validate(s)
    ensures Scalars(us) && Utf8s(us) == s
    decreases |s|
  {
    hide ValidateChar, WriteChar, Utf8, CharCode, IsScalar, Scalar;
    us := [];
    if s != [] {
      var n := ValidateChar(s);
      var u := CharCode(At(s, 0), At(s, 1), At(s, 2), At(s, 3));
      ValidIsWritten(s);
      ScalarIs(u);
      WrittenUtf8(u);
      var more := CodePointsOf(s[n..]);
      us := [u] + more;
      assert us[1..] == more && s == s[..n] + s[n..];
      assert forall i :: 1 <= i < |us| ==> us[i] == more[i - 1];
    }
  }

  lemma {:induction false} CodePointsValid(us: seq<CodePoint>)
    requires Scalars(us)
    ensures Validate(Utf8s(us))
    decreases |us|
  {
    hide ValidateChar, WriteChar, Utf8, IsScalar, Scalar;
    if us != [] {
      var rest := Utf8s(us[1..]);
      assert Scalar(us[0]);
      WrittenUtf8(us[0]);
      ReadWritten(us[0], rest);
      CodePointsValid(us[1..]);
      var s := Utf8(us[0]) + rest;
      assert s[|Utf8(us[0])|..] == rest;
      ValidateWhole(s, |Utf8(us[0])|);
    }
  }

  lemma ValidateWhole(s: Text, n: nat)
    requires n <= |s| && ValidateChar(s) == n && Validate(s[n..])
    requires n > 0 || s == []
    ensures Validate(s)
  {}
}
