/**
 The grammar of RFC 8259 (sections 2 to 7) as syntax trees: what a tree spells and what it stands for. Code
 points, escapes, hexadecimal digits, surrogates, UTF-8, white space and words are told here in the numbers of
 RFC 8259 and RFC 3629, and take nothing from the parser or the printer. Left out of the language, as in the
 source, are U+0000 and unpaired surrogates.
 */
module JsonSyntax {
  import opened Options
  import opened JsonUtf8
  import opened JsonNumbers
  import opened JsonText

  // ---------- Characters of a string ----------

  datatype CharSyntax =
    | Plain(u: CodePoint)       // an unescaped character
    | Short(e: Byte, c: Byte)   // a two-character escape and the character it stands for
    | Unicode(h: Text)          // four hexadecimal digits
    | Pair(h: Text, l: Text)    // a surrogate pair

  /** The two-character escapes: the letter behind the solidus and the character it stands for. */
  predicate Escapes(e: Byte, c: Byte) {
    || (e == 0x22 && c == 0x22)    // quotation mark
    || (e == 0x5C && c == 0x5C)    // reverse solidus
    || (e == 0x2F && c == 0x2F)    // solidus
    || (e == 0x62 && c == 0x08)    // b: backspace
    || (e == 0x66 && c == 0x0C)    // f: form feed
    || (e == 0x6E && c == 0x0A)    // n: line feed
    || (e == 0x72 && c == 0x0D)    // r: carriage return
    || (e == 0x74 && c == 0x09)    // t: tab
  }

  /** The value of a hexadecimal digit. */
  function HexDigit(c: Byte): Option<bv16> {
    if 0x30 <= c <= 0x39 then Some(c as bv16 - 0x30)
    else if 0x41 <= c <= 0x46 then Some(c as bv16 - 0x41 + 10)
    else if 0x61 <= c <= 0x66 then Some(c as bv16 - 0x61 + 10)
    else None
  }

  predicate IsHex(h: Text) { |h| == 4 && forall i :: 0 <= i < 4 ==> HexDigit(h[i]).Some? }

  function HexNumber(h: Text): bv16
    requires IsHex(h)
  {
    (HexDigit(h[0]).value << 12) | (HexDigit(h[1]).value << 8) | (HexDigit(h[2]).value << 4) | HexDigit(h[3]).value
  }

  predicate Scalar(u: CodePoint) { u <= 0xD7FF || 0xE000 <= u <= 0x10FFFF }
  predicate Leading(v: bv16) { 0xD800 <= v <= 0xDBFF }
  predicate Trailing(v: bv16) { 0xDC00 <= v <= 0xDFFF }

  /** The code point of a number that is no surrogate. */
  function BasicCode(v: bv16): CodePoint { v as bv32 }

  /** The code point of a surrogate pair. */
  function PairCode(h: bv16, l: bv16): CodePoint {
    0x10000 + (h as bv32 - 0xD800) * 0x400 + (l as bv32 - 0xDC00)
  }

  function Octet(x: bv32): Byte { (x & 0xFF) as bv8 }

  /** The octets of a code point (section 3 of RFC 3629). */
  function Utf8(u: CodePoint): Text {
    if u <= 0x7F then [Octet(u)]
    else if u <= 0x7FF then [Octet(0xC0 + u / 0x40), Octet(0x80 + u % 0x40)]
    else if u <= 0xFFFF then [Octet(0xE0 + u / 0x1000), Octet(0x80 + u / 0x40 % 0x40), Octet(0x80 + u % 0x40)]
    else [Octet(0xF0 + u / 0x40000), Octet(0x80 + u / 0x1000 % 0x40), Octet(0x80 + u / 0x40 % 0x40),
          Octet(0x80 + u % 0x40)]
  }

  predicate CharOk(c: CharSyntax) {
    match c
    case Plain(u) => Scalar(u) && u >= 0x20 && u != 0x22 && u != 0x5C
    case Short(e, c) => Escapes(e, c)
    case Unicode(h) => IsHex(h) && HexNumber(h) != 0 && !Leading(HexNumber(h)) && !Trailing(HexNumber(h))
    case Pair(h, l) => IsHex(h) && IsHex(l) && Leading(HexNumber(h)) && Trailing(HexNumber(l))
  }

  function CharText(c: CharSyntax): Text
    requires CharOk(c)
  {
    match c
    case Plain(u) => Utf8(u)
    case Short(e, _) => [0x5C, e]
    case Unicode(h) => [0x5C, 0x75] + h
    case Pair(h, l) => [0x5C, 0x75] + h + [0x5C, 0x75] + l
  }

  /** The octets a character stands for. */
  function CharMeaning(c: CharSyntax): Text
    requires CharOk(c)
  {
    match c
    case Plain(u) => Utf8(u)
    case Short(_, c) => [c]
    case Unicode(h) => Utf8(BasicCode(HexNumber(h)))
    case Pair(h, l) => Utf8(PairCode(HexNumber(h), HexNumber(l)))
  }

  predicate CharsOk(cs: seq<CharSyntax>) { forall i :: 0 <= i < |cs| ==> CharOk(cs[i]) }

  function CharsText(cs: seq<CharSyntax>): Text
    requires CharsOk(cs)
  {
    if cs == [] then [] else CharText(cs[0]) + CharsText(cs[1..])
  }

  function CharsMeaning(cs: seq<CharSyntax>): Text
    requires CharsOk(cs)
  {
    if cs == [] then [] else CharMeaning(cs[0]) + CharsMeaning(cs[1..])
  }

  function Quoted(cs: seq<CharSyntax>): Text
    requires CharsOk(cs)
  {
    [0x22] + (CharsText(cs) + [0x22])
  }

  // ---------- Values ----------

  datatype Syntax =
    | NullWord
    | BoolWord(b: bool)
    | NumberText(lexeme: Text)
    | StringText(cs: seq<CharSyntax>)
    | ArrayText(gap: Text, items: seq<Item>)          // `gap` is the inside of an empty array
    | ObjectText(gap: Text, entries: seq<Entry>)

  datatype Item = Item(pre: Text, value: Syntax, post: Text)
  datatype Entry = Entry(pre: Text, key: seq<CharSyntax>, mid: Text, item: Item)

  /** Spaces, tabs, line feeds and carriage returns. */
  predicate IsBlank(w: Text) {
    forall i :: 0 <= i < |w| ==> w[i] == 0x20 || w[i] == 0x09 || w[i] == 0x0A || w[i] == 0x0D
  }

  ghost predicate Ok(x: Syntax)
    decreases x, 0
  {
    match x
    case NumberText(lexeme) => IsNumber(lexeme)
    case StringText(cs) => CharsOk(cs)
    case ArrayText(gap, items) => IsBlank(gap) && forall i :: 0 <= i < |items| ==> ItemOk(items[i])
    case ObjectText(gap, entries) => IsBlank(gap) && forall i :: 0 <= i < |entries| ==> EntryOk(entries[i])
    case _ => true
  }

  ghost predicate ItemOk(m: Item)
    decreases m, 1
  {
    IsBlank(m.pre) && Ok(m.value) && IsBlank(m.post)
  }

  ghost predicate EntryOk(e: Entry)
    decreases e, 1
  {
    IsBlank(e.pre) && CharsOk(e.key) && IsBlank(e.mid) && ItemOk(e.item)
  }

  ghost predicate ItemsOk(items: seq<Item>) { forall i :: 0 <= i < |items| ==> ItemOk(items[i]) }
  ghost predicate EntriesOk(entries: seq<Entry>) { forall i :: 0 <= i < |entries| ==> EntryOk(entries[i]) }

  /** The text a syntax tree spells. */
  ghost function Spell(x: Syntax): Text
    requires Ok(x)
    decreases x, 0
  {
    match x
    case NullWord => [0x6E, 0x75, 0x6C, 0x6C]                       // null
    case BoolWord(b) =>
      if b then [0x74, 0x72, 0x75, 0x65]                            // true
      else [0x66, 0x61, 0x6C, 0x73, 0x65]                           // false
    case NumberText(lexeme) => lexeme
    case StringText(cs) => Quoted(cs)
    case ArrayText(gap, items) => [0x5B] + ((if items == [] then gap else SpellItems(items)) + [0x5D])
    case ObjectText(gap, entries) =>
      [0x7B] + ((if entries == [] then gap else SpellEntries(entries)) + [0x7D])
  }

  ghost function SpellItem(m: Item): Text
    requires ItemOk(m)
    decreases m, 1
  {
    m.pre + (Spell(m.value) + m.post)
  }

  ghost function SpellItems(items: seq<Item>): Text
    requires items != [] && ItemsOk(items)
    decreases items, 2
  {
    if |items| == 1 then SpellItem(items[0]) else SpellItem(items[0]) + ([0x2C] + SpellItems(items[1..]))
  }

  ghost function SpellEntry(e: Entry): Text
    requires EntryOk(e)
    decreases e, 1
  {
    e.pre + (Quoted(e.key) + (e.mid + ([0x3A] + SpellItem(e.item))))
  }

  ghost function SpellEntries(entries: seq<Entry>): Text
    requires entries != [] && EntriesOk(entries)
    decreases entries, 2
  {
    if |entries| == 1 then SpellEntry(entries[0]) else SpellEntry(entries[0]) + ([0x2C] + SpellEntries(entries[1..]))
  }

  /** The value a syntax tree stands for. */
  ghost function Meaning(x: Syntax): Json
    requires Ok(x)
    decreases x, 0
  {
    match x
    case NullWord => Null
    case BoolWord(b) => Bool(b)
    case NumberText(lexeme) => Number(lexeme)
    case StringText(cs) => String(CharsMeaning(cs))
    case ArrayText(_, items) => Array(Meanings(items))
    case ObjectText(_, entries) => Object(MemberMeanings(entries))
  }

  ghost function Meanings(items: seq<Item>): seq<Json>
    requires ItemsOk(items)
    decreases items, 1
  {
    if items == [] then [] else [Meaning(items[0].value)] + Meanings(items[1..])
  }

  ghost function MemberMeanings(entries: seq<Entry>): seq<Member>
    requires EntriesOk(entries)
    decreases entries, 1
  {
    if entries == [] then []
    else
      assert EntryOk(entries[0]) && ItemOk(entries[0].item);
      [Member(CharsMeaning(entries[0].key), Meaning(entries[0].item.value))] + MemberMeanings(entries[1..])
  }

  // ---------- Documents ----------

  /** `t` spells `v`: a value of the grammar with white space around it. */
  ghost predicate Spells(t: Text, v: Json) {
    exists pre, x, post :: SpellsAs(t, v, pre, x, post)
  }

  ghost predicate SpellsAs(t: Text, v: Json, pre: Text, x: Syntax, post: Text) {
    IsBlank(pre) && Ok(x) && IsBlank(post) && Meaning(x) == v && t == pre + (Spell(x) + post)
  }
}
