/** What a JSON text says, read off sections 2 to 7 of RFC 8259: a tree for each way a
    text can be put together, the bytes it is written with, and the value it stands for.
    Everything here is in literal bytes; nothing of the writer or the reader is used.
    `strict` is the standard, of whose numbers only the integers are kept; without it
    leading zeros and lone surrogates are let in as well. */
module JsonGrammar {
  import opened Json
  import Utf = JsonUtf8

  // ------------------------------------------------------------- characters

  /** A byte as it is, a one-letter escape, four hex digits, or a surrogate pair of them,
      with the bytes each stands for. */
  datatype Char =
    | Raw(c: Byte)
    | Short(letter: Byte, c: Byte)
    | Unit(h: Text, bytes: Text)
    | Pair(hi: Text, lo: Text, bytes: Text)

  function HexOf(c: Byte): int {
    if 0x30 <= c <= 0x39 then c - 0x30
    else if 0x41 <= c <= 0x46 then c - 0x41 + 10
    else if 0x61 <= c <= 0x66 then c - 0x61 + 10
    else -1
  }

  predicate FourHex(h: Text) {
    |h| == 4 && HexOf(h[0]) >= 0 && HexOf(h[1]) >= 0 && HexOf(h[2]) >= 0 && HexOf(h[3]) >= 0
  }

  function CodeUnit(h: Text): int
    requires |h| == 4
  {
    HexOf(h[0]) * 0x1000 + HexOf(h[1]) * 0x100 + HexOf(h[2]) * 0x10 + HexOf(h[3])
  }

  predicate High(u: int) { 0xD800 <= u < 0xDC00 }

  predicate Low(u: int) { 0xDC00 <= u < 0xE000 }

  /** The UTF-8 form of a code point: section 3 of RFC 3629, surrogates let in. */
  predicate Encodes(bytes: Text, cp: int) {
    0 < |bytes| <= 4 && Utf.Shaped(bytes) && Utf.FromUtf8(bytes) == cp && |bytes| == Utf.Shortest(cp)
  }

  predicate ValidChar(strict: bool, ch: Char) {
    match ch
    case Raw(c) => c >= 0x20 && c != 0x22 && c != 0x5C
    case Short(letter, c) =>
      || (letter == 0x22 && c == 0x22) || (letter == 0x5C && c == 0x5C) || (letter == 0x2F && c == 0x2F)
      || (letter == 0x62 && c == 0x08) || (letter == 0x66 && c == 0x0C) || (letter == 0x6E && c == 0x0A)
      || (letter == 0x72 && c == 0x0D) || (letter == 0x74 && c == 0x09)
    case Unit(h, bytes) =>
      FourHex(h) && Encodes(bytes, CodeUnit(h)) && (strict ==> !High(CodeUnit(h)) && !Low(CodeUnit(h)))
    case Pair(hi, lo, bytes) =>
      && FourHex(hi) && FourHex(lo) && High(CodeUnit(hi)) && Low(CodeUnit(lo))
      && Encodes(bytes, 0x1_0000 + (CodeUnit(hi) - 0xD800) * 0x400 + (CodeUnit(lo) - 0xDC00))
  }

  predicate IsLone(ch: Char) { ch.Unit? && |ch.h| == 4 && High(CodeUnit(ch.h)) }

  predicate IsLow(cs: seq<Char>) { cs != [] && cs[0].Unit? && |cs[0].h| == 4 && Low(CodeUnit(cs[0].h)) }

  /** A high surrogate before a low one is half of a pair, and not alone. */
  predicate ValidChars(strict: bool, cs: seq<Char>) {
    cs == [] || (ValidChar(strict, cs[0]) && !(IsLone(cs[0]) && IsLow(cs[1..])) && ValidChars(strict, cs[1..]))
  }

  function CharText(ch: Char): Text {
    match ch
    case Raw(c) => [c]
    case Short(letter, _) => [0x5C, letter]
    case Unit(h, _) => [0x5C, 0x75] + h
    case Pair(hi, lo, _) => [0x5C, 0x75] + hi + [0x5C, 0x75] + lo
  }

  function CharBytes(ch: Char): Text {
    match ch
    case Raw(c) => [c]
    case Short(_, c) => [c]
    case Unit(_, bytes) => bytes
    case Pair(_, _, bytes) => bytes
  }

  function CharsText(cs: seq<Char>): Text { if cs == [] then [] else CharText(cs[0]) + CharsText(cs[1..]) }

  function CharsBytes(cs: seq<Char>): Text { if cs == [] then [] else CharBytes(cs[0]) + CharsBytes(cs[1..]) }

  // ---------------------------------------------------------------- numbers

  function Ten(n: nat): nat { if n == 0 then 1 else 10 * Ten(n - 1) }

  /** Decimal digits, each by its place. */
  function Place(ds: Text): int {
    if ds == [] then 0 else (ds[0] as int - 0x30) * Ten(|ds| - 1) + Place(ds[1..])
  }

  predicate ValidNumber(strict: bool, ds: Text) {
    && ds != [] && (forall i :: 0 <= i < |ds| ==> 0x30 <= ds[i] <= 0x39)
    && (strict ==> |ds| == 1 || ds[0] != 0x30)
  }

  // ----------------------------------------------------------------- values

  predicate White(s: Text) {
    forall i :: 0 <= i < |s| ==> s[i] == 0x20 || s[i] == 0x09 || s[i] == 0x0A || s[i] == 0x0D
  }

  /** `gap` is what white space there is between the brackets of an empty group. */
  datatype Tree =
    | NullTree | TrueTree | FalseTree
    | NumTree(neg: bool, ds: Text)
    | StrTree(cs: seq<Char>)
    | GroupTree(isObj: bool, gap: Text, items: seq<Item>)

  /** An object's member: white space, name, white space, a colon, white space, value, white
      space. An array's element is the last three. */
  datatype Item = Item(before: Text, name: seq<Char>, gap: Text, lead: Text, val: Tree, after: Text)

  predicate ValidTree(strict: bool, t: Tree)
    decreases t, 1
  {
    match t
    case NumTree(_, ds) => ValidNumber(strict, ds)
    case StrTree(cs) => ValidChars(strict, cs)
    case GroupTree(isObj, gap, items) => White(gap) && ValidItems(strict, isObj, items)
    case _ => true
  }

  predicate ValidItems(strict: bool, isObj: bool, items: seq<Item>)
    decreases items, 0
  {
    items == [] ||
    (&& (if isObj then ValidName(strict, items[0]) else items[0].name == [])
     && White(items[0].lead) && ValidTree(strict, items[0].val) && White(items[0].after)
     && ValidItems(strict, isObj, items[1..]))
  }

  predicate ValidName(strict: bool, it: Item) { White(it.before) && ValidChars(strict, it.name) && White(it.gap) }

  function NameText(isObj: bool, it: Item): Text {
    if isObj then it.before + [0x22] + CharsText(it.name) + [0x22] + it.gap + [0x3A] else []
  }

  function TreeText(t: Tree): Text
    decreases t, 1
  {
    match t
    case NullTree => [0x6E, 0x75, 0x6C, 0x6C]
    case TrueTree => [0x74, 0x72, 0x75, 0x65]
    case FalseTree => [0x66, 0x61, 0x6C, 0x73, 0x65]
    case NumTree(neg, ds) => (if neg then [0x2D] else []) + ds
    case StrTree(cs) => [0x22] + CharsText(cs) + [0x22]
    case GroupTree(isObj, gap, items) =>
      [if isObj then 0x7B else 0x5B] + (if items == [] then gap else ItemsText(isObj, items))
      + [if isObj then 0x7D else 0x5D]
  }

  /** With a comma between each two. */
  function ItemsText(isObj: bool, items: seq<Item>): Text
    decreases items, 0
  {
    if items == [] then []
    else NameText(isObj, items[0]) + items[0].lead + TreeText(items[0].val) + items[0].after
         + (if |items| == 1 then [] else [0x2C] + ItemsText(isObj, items[1..]))
  }

  function Meaning(t: Tree): Json
    decreases t, 1
  {
    match t
    case NullTree => Null
    case TrueTree => Bool(true)
    case FalseTree => Bool(false)
    case NumTree(neg, ds) => Num(if neg then 0 - Place(ds) else Place(ds))
    case StrTree(cs) => Str(CharsBytes(cs))
    case GroupTree(isObj, _, items) => Group(isObj, ItemsMeaning(items))
  }

  function ItemsMeaning(items: seq<Item>): seq<Kid>
    decreases items, 0
  {
    if items == [] then [] else [Kid(CharsBytes(items[0].name), Meaning(items[0].val))] + ItemsMeaning(items[1..])
  }

  // --------------------------------------------------------------- documents

  datatype Document = Document(before: Text, tree: Tree, after: Text)

  predicate Says(strict: bool, d: Document, text: Text, v: Json) {
    && White(d.before) && ValidTree(strict, d.tree) && White(d.after)
    && text == d.before + TreeText(d.tree) + d.after && v == Meaning(d.tree)
  }

  /** The text is JSON for that value. */
  ghost predicate Denotes(strict: bool, text: Text, v: Json) { exists d :: Says(strict, d, text, v) }

  /** No value in this one is inside more than `n` brackets, its own counted. */
  predicate NestsWithin(v: Json, n: nat)
    decreases v
  {
    v.Group? ==> n > 0 && forall kid :: kid in v.kids ==> NestsWithin(kid.val, n - 1)
  }

  /** The numbers in a value are those of 64 bits. */
  predicate Int64s(v: Json)
    decreases v, 1
  {
    match v
    case Num(n) => -0x8000_0000_0000_0000 <= n < 0x8000_0000_0000_0000
    case Group(_, kids) => KidsInt64s(kids)
    case _ => true
  }

  predicate KidsInt64s(kids: seq<Kid>)
    decreases kids, 0
  {
    kids == [] || (Int64s(kids[0].val) && KidsInt64s(kids[1..]))
  }
}
