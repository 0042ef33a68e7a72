/** The JSON of this wire as text: what the writer prints, what the reader accepts, and
    that the second undoes the first.  The standard is RFC 8259 (numbers in section 6,
    strings in section 7), read and written as the bridge does: integers only, leading
    zeros and lone surrogates let through.  `JsonWriter` and `JsonReader` prove that the
    buffers, cursors and node arrays implement these functions. */
module Json {
  type Byte = b: int | 0 <= b < 256
  type Text = seq<Byte>

  const QUOTE: Byte := 0x22
  const BACKSLASH: Byte := 0x5C
  const COMMA: Byte := 0x2C
  const COLON: Byte := 0x3A
  const MINUS: Byte := 0x2D
  const DOT: Byte := 0x2E
  const NULL_TEXT: Text := [0x6E, 0x75, 0x6C, 0x6C]
  const TRUE_TEXT: Text := [0x74, 0x72, 0x75, 0x65]
  const FALSE_TEXT: Text := [0x66, 0x61, 0x6C, 0x73, 0x65]

  const INT64_MAX: int := 0x7FFF_FFFF_FFFF_FFFF
  const INT64_MIN: int := -0x8000_0000_0000_0000

  /** How deep the reader lets containers nest. */
  const MAX_DEPTH: nat := 256

  /** A value. The kids of an array have no keys, which is the empty key here. */
  datatype Json = Null | Bool(b: bool) | Num(n: int) | Str(s: Text) | Group(isObj: bool, kids: seq<Kid>)
  datatype Kid = Kid(key: Text, val: Json)

  function Open(isObj: bool): Byte { if isObj then 0x7B else 0x5B }

  function Close(isObj: bool): Byte { if isObj then 0x7D else 0x5D }

  function Max(a: nat, b: nat): nat { if a < b then b else a }

  /** Containers open at the deepest point. */
  function Depth(v: Json): nat
    decreases v, 1
  {
    match v
    case Group(_, kids) => 1 + DepthOfKids(kids)
    case _ => 0
  }

  function DepthOfKids(kids: seq<Kid>): nat
    decreases kids, 0
  {
    if kids == [] then 0 else Max(Depth(kids[0].val), DepthOfKids(kids[1..]))
  }

  /** How many values there are in a value, itself counted: the nodes the reader makes. */
  function Size(v: Json): (n: nat)
    ensures n > 0
    decreases v, 1
  {
    match v
    case Group(_, kids) => 1 + SizeOfKids(kids)
    case _ => 1
  }

  function SizeOfKids(kids: seq<Kid>): nat
    decreases kids, 0
  {
    if kids == [] then 0 else Size(kids[0].val) + SizeOfKids(kids[1..])
  }

  predicate NulFree(s: Text) { 0 !in s }

  /** The values the writer can be given: C strings, 64-bit integers, null, and arrays
      and objects of them. */
  predicate Writable(v: Json)
    decreases v, 1
  {
    match v
    case Null => true
    case Bool(_) => false
    case Num(n) => INT64_MIN <= n <= INT64_MAX
    case Str(s) => NulFree(s)
    case Group(isObj, kids) => WritableKids(isObj, kids)
  }

  predicate WritableKids(isObj: bool, kids: seq<Kid>)
    decreases kids, 0
  {
    kids == [] || (NulFree(kids[0].key) && (!isObj ==> kids[0].key == []) && Writable(kids[0].val) &&
      WritableKids(isObj, kids[1..]))
  }

  // --------------------------------------------------------------- printing

  function HexDigit(d: int): Byte
    requires 0 <= d < 16
  {
    if d < 10 then 48 + d else 87 + d
  }

  predicate Plain(c: Byte) { c >= 0x20 && c != QUOTE && c != BACKSLASH }

  /** One byte of a string, as it is written. */
  function EscapeByte(c: Byte): (r: Text)
    ensures 0 < |r| <= 6
  {
    if Plain(c) then [c]
    else if c == QUOTE then [BACKSLASH, QUOTE]
    else if c == BACKSLASH then [BACKSLASH, BACKSLASH]
    else if c == 0x08 then [BACKSLASH, 0x62]
    else if c == 0x0C then [BACKSLASH, 0x66]
    else if c == 0x0A then [BACKSLASH, 0x6E]
    else if c == 0x0D then [BACKSLASH, 0x72]
    else if c == 0x09 then [BACKSLASH, 0x74]
    else [BACKSLASH, 0x75, 0x30, 0x30, HexDigit(c / 16), HexDigit(c % 16)]
  }

  function Escape(s: Text): Text {
    if s == [] then [] else EscapeByte(s[0]) + Escape(s[1..])
  }

  function Quoted(s: Text): Text { [QUOTE] + Escape(s) + [QUOTE] }

  function Digits(u: nat): (r: Text)
    ensures |r| > 0
  {
    if u < 10 then [48 + u] else Digits(u / 10) + [48 + u % 10]
  }

  function Decimal(n: int): Text {
    if n < 0 then [MINUS] + Digits(-n) else Digits(n)
  }

  function Print(v: Json): Text
    decreases v, 1
  {
    match v
    case Null => NULL_TEXT
    case Bool(b) => if b then TRUE_TEXT else FALSE_TEXT
    case Num(n) => Decimal(n)
    case Str(s) => Quoted(s)
    case Group(isObj, kids) => [Open(isObj)] + PrintKids(isObj, kids, false) + [Close(isObj)]
  }

  /** The kids in order; `comma` says whether a value came before. */
  function PrintKids(isObj: bool, kids: seq<Kid>, comma: bool): Text
    decreases kids, 0
  {
    if kids == [] then []
    else Separator(comma) + KeyText(isObj, kids[0].key) + Print(kids[0].val) + PrintKids(isObj, kids[1..], true)
  }

  function Separator(comma: bool): Text { if comma then [COMMA] else [] }

  function KeyText(isObj: bool, key: Text): Text { if isObj then Quoted(key) + [COLON] else [] }

  // ---------------------------------------------------------------- reading
  //
  // Each function reads from the front of what is left of the text, and gives what it
  // read with what is then left.

  datatype Parsed<+T> = Fail | Got(v: T, rest: Text)

  predicate IsSpace(c: Byte) { c == 0x20 || c == 0x09 || c == 0x0A || c == 0x0D }

  predicate IsDigit(c: Byte) { 48 <= c <= 57 }

  predicate Starts(s: Text, c: Byte) { s != [] && s[0] == c }

  function SkipWs(s: Text): (r: Text)
    ensures |r| <= |s|
  {
    if s != [] && IsSpace(s[0]) then SkipWs(s[1..]) else s
  }

  function HexVal(c: Byte): int {
    if 48 <= c <= 57 then c - 48 else if 97 <= c <= 102 then c - 87 else if 65 <= c <= 70 then c - 55 else -1
  }

  /** The value of a run of hex digits, -1 if one of them is none. */
  function HexRun(ds: Text): int {
    if ds == [] then 0
    else
      var v, d := HexRun(ds[..|ds| - 1]), HexVal(ds[|ds| - 1]);
      if v < 0 || d < 0 then -1 else v * 16 + d
  }

  /** RFC 3629 section 3. */
  function Utf8(cp: int): (r: Text)
    ensures |r| <= 4
  {
    if cp < 0 || cp >= 0x11_0000 then []
    else if cp < 0x80 then [cp]
    else if cp < 0x800 then [0xC0 + cp / 0x40, 0x80 + cp % 0x40]
    else if cp < 0x1_0000 then [0xE0 + cp / 0x1000, 0x80 + cp / 0x40 % 0x40, 0x80 + cp % 0x40]
    else [0xF0 + cp / 0x4_0000, 0x80 + cp / 0x1000 % 0x40, 0x80 + cp / 0x40 % 0x40, 0x80 + cp % 0x40]
  }

  /** The code point of a `\u` escape, from its digits on: a high surrogate takes a low
      one that follows it, and otherwise stands alone. */
  function ReadCodePoint(s: Text): (r: Parsed<int>)
    ensures r.Got? ==> |r.rest| < |s|
  {
    if |s| < 4 || HexRun(s[..4]) < 0 then Fail
    else
      var hi := HexRun(s[..4]);
      if 0xD800 <= hi <= 0xDBFF && |s| >= 10 && s[4] == BACKSLASH && s[5] == 0x75 &&
        0xDC00 <= HexRun(s[6..10]) <= 0xDFFF
      then Got(0x1_0000 + (hi - 0xD800) * 0x400 + (HexRun(s[6..10]) - 0xDC00), s[10..])
      else Got(hi, s[4..])
  }

  /** The byte a one-letter escape stands for, -1 if it is none. */
  function EscapeVal(c: Byte): (r: int)
    ensures -1 <= r < 256
  {
    if c == QUOTE || c == BACKSLASH || c == 0x2F then c
    else if c == 0x62 then 0x08
    else if c == 0x66 then 0x0C
    else if c == 0x6E then 0x0A
    else if c == 0x72 then 0x0D
    else if c == 0x74 then 0x09
    else -1
  }

  /** The bytes one character of a string stands for. */
  function ReadChar(s: Text): (r: Parsed<Text>)
    requires s != []
    ensures r.Got? ==> |r.rest| < |s| && |r.v| <= 4
  {
    if s[0] != BACKSLASH then if s[0] < 0x20 then Fail else Got([s[0]], s[1..])
    else if |s| == 1 then Fail
    else if s[1] == 0x75 then
      var cp := ReadCodePoint(s[2..]);
      if cp.Fail? then Fail else Got(Utf8(cp.v), cp.rest)
    else
      var c := EscapeVal(s[1]);
      if c < 0 then Fail else Got([c], s[2..])
  }

  /** The rest of a string whose first characters decoded to `acc`. */
  function ReadChars(s: Text, acc: Text): (r: Parsed<Text>)
    ensures r.Got? ==> |r.rest| < |s|
    decreases |s|
  {
    if s == [] then Fail
    else if s[0] == QUOTE then Got(acc, s[1..])
    else
      var c := ReadChar(s);
      if c.Fail? then Fail else ReadChars(c.rest, acc + c.v)
  }

  function ReadString(s: Text): (r: Parsed<Text>)
    ensures r.Got? ==> |r.rest| < |s|
  {
    if Starts(s, QUOTE) then ReadChars(s[1..], []) else Fail
  }

  /** How many digits stand in front. */
  function DigitCount(s: Text): (n: nat)
    ensures n <= |s|
  {
    if s != [] && IsDigit(s[0]) then 1 + DigitCount(s[1..]) else 0
  }

  function DigitsVal(ds: Text): int {
    if ds == [] then 0 else DigitsVal(ds[..|ds| - 1]) * 10 + (ds[|ds| - 1] as int - 48)
  }

  predicate IsReal(c: Byte) { c == DOT || c == 0x65 || c == 0x45 }

  /** An unsigned run of digits that no fraction or exponent follows. */
  function ReadDigits(s: Text): (r: Parsed<int>)
    ensures r.Got? ==> |r.rest| < |s|
  {
    var n := DigitCount(s);
    if n == 0 || (n < |s| && IsReal(s[n])) then Fail else Got(DigitsVal(s[..n]), s[n..])
  }

  /** An integer: its digits' value, if that is a signed 64-bit number. */
  function ReadNumber(s: Text): (r: Parsed<int>)
    ensures r.Got? ==> |r.rest| < |s|
  {
    if Starts(s, MINUS) then
      var u := ReadDigits(s[1..]);
      if u.Fail? || u.v > INT64_MAX + 1 then Fail else Got(0 - u.v, u.rest)
    else
      var u := ReadDigits(s);
      if u.Fail? || u.v > INT64_MAX then Fail else u
  }

  /** Null, a boolean, an integer or a string. */
  function ReadScalar(s: Text): (r: Parsed<Json>)
    ensures r.Got? ==> |r.rest| < |s|
  {
    if Starts(s, QUOTE) then
      var str := ReadString(s);
      if str.Fail? then Fail else Got(Str(str.v), str.rest)
    else if TRUE_TEXT <= s then Got(Bool(true), s[4..])
    else if FALSE_TEXT <= s then Got(Bool(false), s[5..])
    else if NULL_TEXT <= s then Got(Null, s[4..])
    else if s != [] && (s[0] == MINUS || IsDigit(s[0])) then
      var n := ReadNumber(s);
      if n.Fail? then Fail else Got(Num(n.v), n.rest)
    else Fail
  }

  function ReadValue(text: Text, depth: nat): (r: Parsed<Json>)
    ensures r.Got? ==> |r.rest| < |text|
    decreases |text|, 0
  {
    var s := SkipWs(text);
    if Starts(s, Open(true)) then ReadGroup(s, true, depth)
    else if Starts(s, Open(false)) then ReadGroup(s, false, depth)
    else ReadScalar(s)
  }

  function ReadGroup(s: Text, isObj: bool, depth: nat): (r: Parsed<Json>)
    requires s != []
    ensures r.Got? ==> |r.rest| < |s|
    decreases |s| - 1, 3
  {
    if depth >= MAX_DEPTH then Fail
    else
      var s' := SkipWs(s[1..]);
      if Starts(s', Close(isObj)) then Got(Group(isObj, []), s'[1..])
      else
        var kids := ReadKids(s', depth + 1, isObj, []);
        if kids.Fail? then Fail else Got(Group(isObj, kids.v), kids.rest)
  }

  /** The key and the colon before a member's value; nothing for an element. */
  function ReadKey(s: Text, isObj: bool): (r: Parsed<Text>)
    ensures r.Got? ==> |r.rest| <= |s|
  {
    if !isObj then Got([], s)
    else
      var key := ReadString(SkipWs(s));
      if key.Fail? then Fail
      else
        var s' := SkipWs(key.rest);
        if Starts(s', COLON) then Got(key.v, s'[1..]) else Fail
  }

  /** One kid: a value, after its key in an object. */
  function ReadKid(s: Text, depth: nat, isObj: bool): (r: Parsed<Kid>)
    ensures r.Got? ==> |r.rest| < |s|
    decreases |s|, 1
  {
    var key := ReadKey(s, isObj);
    if key.Fail? then Fail
    else
      var val := ReadValue(key.rest, depth);
      if val.Fail? then Fail else Got(Kid(key.v, val.v), val.rest)
  }

  /** The rest of a container whose first kids are `acc`. */
  function ReadKids(s: Text, depth: nat, isObj: bool, acc: seq<Kid>): (r: Parsed<seq<Kid>>)
    ensures r.Got? ==> |r.rest| < |s|
    decreases |s|, 2
  {
    var kid := ReadKid(s, depth, isObj);
    if kid.Fail? then Fail
    else
      var s' := SkipWs(kid.rest);
      if Starts(s', COMMA) then ReadKids(s'[1..], depth, isObj, acc + [kid.v])
      else if Starts(s', Close(isObj)) then Got(acc + [kid.v], s'[1..])
      else Fail
  }

  /** A whole document. */
  function Parse(t: Text): Parsed<Json> {
    var v := ReadValue(t, 0);
    if v.Fail? || SkipWs(v.rest) != [] then Fail else Got(v.v, [])
  }
}
