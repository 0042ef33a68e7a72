/** The writer and the reader against the grammar: what is printed is JSON for the value it
    was printed from, and the reader accepts exactly the texts that are JSON for a value of
    64-bit numbers nesting at most 256 deep, and gives that value. */
module JsonConforms {
  import opened Json
  import opened JsonGrammar
  import JsonRoundTrip
  import JsonUtf8

  // ------------------------------------------------------ what the parts mean

  lemma {:induction false} EncodesIsUtf8(bytes: Text, cp: int)
    requires 0 <= cp < 0x11_0000
    ensures Encodes(bytes, cp) <==> bytes == Utf8(cp)
  {
    JsonUtf8.Utf8IsReadBack(cp);
    hide JsonUtf8.Shaped, JsonUtf8.FromUtf8, JsonUtf8.Shortest, Utf8;
    if Encodes(bytes, cp) {
      JsonUtf8.OnlyUtf8(bytes);
    }
  }

  lemma {:induction false} HexRunIs(h: Text)
    requires |h| == 4
    ensures HexRun(h) == if FourHex(h) then CodeUnit(h) else -1
    ensures FourHex(h) ==> 0 <= CodeUnit(h) < 0x1_0000
  {
    assert [] + [h[0]] == h[..1] && h[..1] + [h[1]] == h[..2] && h[..2] + [h[2]] == h[..3] && h[..3] + [h[3]] == h;
    assert HexRun([]) == 0;
    HexDigitMore([], h[0]);
    HexDigitMore(h[..1], h[1]);
    HexDigitMore(h[..2], h[2]);
    HexDigitMore(h[..3], h[3]);
    assert forall c: Byte :: -1 <= HexOf(c) < 16;
    hide HexOf, HexRun;
  }

  lemma {:induction false} HexDigitMore(ds: Text, c: Byte)
    ensures HexRun(ds + [c]) == if HexRun(ds) < 0 || HexOf(c) < 0 then -1 else HexRun(ds) * 16 + HexOf(c)
  {
    assert (ds + [c])[..|ds|] == ds;
    assert HexVal(c) == HexOf(c);
    hide HexVal, HexOf;
  }

  /** The text goes on with the escape of a low surrogate. */
  predicate LowNext(s: Text) {
    |s| >= 6 && s[0] == 0x5C && s[1] == 0x75 && FourHex(s[2..6]) && Low(CodeUnit(s[2..6]))
  }

  lemma {:induction false} ReadCodePointIs(s: Text)
    ensures ReadCodePoint(s) ==
            if |s| < 4 || !FourHex(s[..4]) then Fail
            else if High(CodeUnit(s[..4])) && LowNext(s[4..])
            then Got(0x1_0000 + (CodeUnit(s[..4]) - 0xD800) * 0x400 + (CodeUnit(s[6..10]) - 0xDC00), s[10..])
            else Got(CodeUnit(s[..4]), s[4..])
  {
    if |s| >= 4 {
      HexRunIs(s[..4]);
    }
    if |s| >= 10 {
      HexRunIs(s[6..10]);
      assert s[4..][2..6] == s[6..10];
    }
    hide HexRun, FourHex, CodeUnit;
  }

  lemma {:induction false} EscapeText(h: Text, rest: Text)
    requires |h| == 4
    ensures var s := [0x5C, 0x75] + h + rest;
            && s[0] == 0x5C && s[1] == 0x75 && s[2..6] == h
            && s[2..] == h + rest && s[2..][..4] == h && s[2..][4..] == rest
  {
  }

  lemma {:induction false} PairText(hi: Text, lo: Text, rest: Text)
    requires |hi| == 4 && |lo| == 4
    ensures var s := [0x5C, 0x75] + hi + [0x5C, 0x75] + lo + rest;
            && s[0] == 0x5C && s[1] == 0x75 && s[2..][..4] == hi && s[2..][6..10] == lo && s[2..][10..] == rest
            && s[2..][4..] == [0x5C, 0x75] + lo + rest && s[2..6] == hi
  {
    var more := [0x5C, 0x75] + lo + rest;
    var s := [0x5C, 0x75] + hi + [0x5C, 0x75] + lo + rest;
    assert s == [0x5C, 0x75] + hi + more;
    EscapeText(hi, more);
    EscapeText(lo, rest);
    FromFour(hi, more);
  }

  lemma {:induction false} FromFour(h: Text, more: Text)
    requires |h| == 4 && |more| >= 6
    ensures (h + more)[6..10] == more[2..6] && (h + more)[10..] == more[2..][4..]
  {
  }

  // ------------------------------------------------ what is JSON is accepted

  /** A character that is valid is read as what it stands for. */
  lemma {:induction false} CharReads(ch: Char, rest: Text)
    requires ValidChar(false, ch) && (IsLone(ch) ==> !LowNext(rest))
    ensures var s := CharText(ch) + rest;
            s[0] != 0x22 && ReadChar(s) == Got(CharBytes(ch), rest)
  {
    match ch
    case Raw(c) => assert ([c] + rest)[1..] == rest;
    case Short(letter, c) => assert ([0x5C, letter] + rest)[2..] == rest;
    case Unit(h, bytes) =>
      EscapeText(h, rest);
      ReadCodePointIs(h + rest);
      HexRunIs(h);
      hide ReadCodePoint, LowNext, FourHex, CodeUnit, Encodes;
      EncodesIsUtf8(bytes, CodeUnit(h));
    case Pair(hi, lo, bytes) =>
      PairReads(hi, lo, bytes, rest);
  }

  lemma {:induction false} PairReads(hi: Text, lo: Text, bytes: Text, rest: Text)
    requires ValidChar(false, Pair(hi, lo, bytes))
    ensures ReadChar([0x5C, 0x75] + hi + [0x5C, 0x75] + lo + rest) == Got(bytes, rest)
  {
    PairText(hi, lo, rest);
    EscapeText(lo, rest);
    var s := [0x5C, 0x75] + hi + [0x5C, 0x75] + lo + rest;
    assert LowNext(s[2..][4..]);
    ReadCodePointIs(s[2..]);
    HexRunIs(hi);
    HexRunIs(lo);
    hide ReadCodePoint, LowNext, FourHex, CodeUnit, Encodes;
    EncodesIsUtf8(bytes, 0x1_0000 + (CodeUnit(hi) - 0xD800) * 0x400 + (CodeUnit(lo) - 0xDC00));
  }

  /** What the next character says of the text that goes on with it. */
  lemma {:induction false} LowNextIs(cs: seq<Char>, rest: Text)
    requires ValidChars(false, cs)
    ensures LowNext(CharsText(cs) + [0x22] + rest) <==> IsLow(cs)
  {
    if cs != [] {
      var more := CharsText(cs[1..]) + [0x22] + rest;
      CharsSplit(cs, rest);
      hide CharsText, Encodes, CodeUnit, FourHex;
      match cs[0]
      case Unit(h, _) => EscapeText(h, more);
      case Pair(hi, lo, _) => PairText(hi, lo, more);
      case _ =>
    }
  }

  lemma {:induction false} CharsSplit(cs: seq<Char>, rest: Text)
    requires cs != []
    ensures CharsText(cs) + [0x22] + rest == CharText(cs[0]) + (CharsText(cs[1..]) + [0x22] + rest)
  {
    hide CharText;
  }

  lemma {:induction false} ReadsOneChar(ch: Char, acc: Text, rest: Text)
    requires ValidChar(false, ch) && (IsLone(ch) ==> !LowNext(rest))
    ensures ReadChars(CharText(ch) + rest, acc) == ReadChars(rest, acc + CharBytes(ch))
  {
    CharReads(ch, rest);
    hide ReadChar, CharText, CharBytes, ValidChar, LowNext, IsLone;
  }

  lemma {:induction false} CharsEnd(acc: Text, rest: Text)
    ensures ReadChars(CharsText([]) + [0x22] + rest, acc) == Got(acc, rest)
  {
    assert (CharsText([]) + [0x22] + rest)[1..] == rest;
  }

  lemma {:induction false} CharsRead(cs: seq<Char>, acc: Text, rest: Text)
    requires ValidChars(false, cs)
    ensures ReadChars(CharsText(cs) + [0x22] + rest, acc) == Got(acc + CharsBytes(cs), rest)
    decreases |cs|
  {
    hide CharText, ValidChar, LowNext, CharBytes, IsLone, ReadChars, CharsText, IsLow;
    if cs == [] {
      CharsEnd(acc, rest);
      assert acc + [] == acc;
    } else {
      CharsSplit(cs, rest);
      LowNextIs(cs[1..], rest);
      ReadsOneChar(cs[0], acc, CharsText(cs[1..]) + [0x22] + rest);
      CharsRead(cs[1..], acc + CharBytes(cs[0]), rest);
      assert acc + CharBytes(cs[0]) + CharsBytes(cs[1..]) == acc + CharsBytes(cs);
    }
  }

  lemma {:induction false} StringReads(cs: seq<Char>, rest: Text)
    requires ValidChars(false, cs)
    ensures ReadString([0x22] + CharsText(cs) + [0x22] + rest) == Got(CharsBytes(cs), rest)
  {
    hide CharsText, CharsBytes, ValidChars, ReadChars;
    var s := [0x22] + CharsText(cs) + [0x22] + rest;
    assert s[0] == 0x22 && s[1..] == CharsText(cs) + [0x22] + rest;
    CharsRead(cs, [], rest);
    assert [] + CharsBytes(cs) == CharsBytes(cs);
  }

  /** Reading by place is reading from the left. */
  lemma {:induction false} PlaceIsValue(ds: Text)
    ensures Place(ds) == DigitsVal(ds)
  {
    if ds != [] {
      PlaceIsValue(ds[1..]);
      FirstDigit(ds);
    }
  }

  lemma {:induction false} FirstDigit(ds: Text)
    requires ds != []
    ensures DigitsVal(ds) == (ds[0] as int - 48) * Ten(|ds| - 1) + DigitsVal(ds[1..])
  {
    var n := |ds| - 1;
    if n == 0 {
      assert ds[..0] == [];
    } else {
      FirstDigit(ds[..n]);
      assert ds[..n][1..] == ds[1..][..n - 1];
      assert DigitsVal(ds[1..]) == DigitsVal(ds[1..][..n - 1]) * 10 + (ds[n] as int - 48);
      ShiftLeft(ds[0] as int - 48, n);
    }
  }

  lemma {:induction false} ShiftLeft(d: int, n: nat)
    requires n > 0
    ensures d * Ten(n) == d * Ten(n - 1) * 10
  {
  }

  lemma {:induction false} NumberReads(neg: bool, ds: Text, rest: Text)
    requires ValidNumber(false, ds) && Int64s(Meaning(NumTree(neg, ds))) && JsonRoundTrip.Ended(rest)
    ensures ReadNumber(TreeText(NumTree(neg, ds)) + rest) == Got(Meaning(NumTree(neg, ds)).n, rest)
  {
    PlaceIsValue(ds);
    JsonRoundTrip.AcceptsExactlyInt64(neg, ds, rest);
    assert (if neg then [0x2D as Byte] else []) + ds + rest == TreeText(NumTree(neg, ds)) + rest;
  }

  lemma {:induction false} SkipsWhite(w: Text, s: Text)
    requires White(w)
    ensures SkipWs(w + s) == SkipWs(s)
  {
    if w == [] {
      assert w + s == s;
    } else {
      assert (w + s)[1..] == w[1..] + s;
      SkipsWhite(w[1..], s);
    }
  }

  lemma {:induction false} SkipsTwice(s: Text)
    ensures SkipWs(SkipWs(s)) == SkipWs(s)
  {
    if s != [] {
      SkipsTwice(s[1..]);
    }
  }

  /** The first byte of a value, which says of what kind it is. */
  lemma {:induction false} FirstByte(t: Tree, rest: Text)
    requires ValidTree(false, t)
    ensures TreeText(t) != [] && (TreeText(t) + rest)[0] == TreeText(t)[0]
    ensures var c := TreeText(t)[0];
            && !IsSpace(c) && c != 0x5D && c != 0x7D
            && (c == 0x7B <==> t.GroupTree? && t.isObj) && (c == 0x5B <==> t.GroupTree? && !t.isObj)
            && (c == 0x22 <==> t.StrTree?) && (c == 0x2D || IsDigit(c) <==> t.NumTree?)
            && (c == 0x74 <==> t.TrueTree?) && (c == 0x66 <==> t.FalseTree?) && (c == 0x6E <==> t.NullTree?)
  {
    hide ItemsText, CharsText, ValidItems, ValidChars;
  }

  lemma {:induction false} SkipsNone(t: Tree, rest: Text)
    requires ValidTree(false, t)
    ensures SkipWs(TreeText(t) + rest) == TreeText(t) + rest
  {
    FirstByte(t, rest);
    hide TreeText, ValidTree;
  }

  lemma {:induction false} ScalarReads(t: Tree, rest: Text)
    requires ValidTree(false, t) && !t.GroupTree? && Int64s(Meaning(t)) && JsonRoundTrip.Ended(rest)
    ensures ReadScalar(TreeText(t) + rest) == Got(Meaning(t), rest)
  {
    var s := TreeText(t) + rest;
    FirstByte(t, rest);
    hide CharsText, ValidChars, ReadString, ReadNumber;
    if !t.TrueTree? {
      JsonRoundTrip.NotPrefix(TRUE_TEXT, s);
    }
    if !t.FalseTree? {
      JsonRoundTrip.NotPrefix(FALSE_TEXT, s);
    }
    if !t.NullTree? {
      JsonRoundTrip.NotPrefix(NULL_TEXT, s);
    }
    match t
    case NullTree => assert s[..4] == NULL_TEXT && s[4..] == rest;
    case TrueTree => assert s[..4] == TRUE_TEXT && s[4..] == rest;
    case FalseTree => assert s[..5] == FALSE_TEXT && s[5..] == rest;
    case NumTree(neg, ds) => NumberReads(neg, ds, rest);
    case StrTree(cs) => StringReads(cs, rest);
  }

  lemma {:induction false} TreeReads(t: Tree, rest: Text, depth: nat)
    requires ValidTree(false, t) && Int64s(Meaning(t)) && JsonRoundTrip.Ended(rest)
    requires depth + Depth(Meaning(t)) <= MAX_DEPTH
    ensures ReadValue(TreeText(t) + rest, depth) == Got(Meaning(t), rest)
    decreases t, 1
  {
    SkipsNone(t, rest);
    FirstByte(t, rest);
    match t
    case GroupTree(isObj, gap, items) => GroupReads(isObj, gap, items, rest, depth);
    case _ =>
      hide TreeText, Meaning, ValidTree;
      ScalarReads(t, rest);
  }

  lemma {:induction false} GroupText(isObj: bool, gap: Text, items: seq<Item>, rest: Text)
    ensures var s := TreeText(GroupTree(isObj, gap, items)) + rest;
            var body := if items == [] then gap else ItemsText(isObj, items);
            && s[0] == (if isObj then 0x7B else 0x5B)
            && s[1..] == body + ([if isObj then 0x7D else 0x5D] + rest)
  {
    hide ItemsText;
  }

  lemma {:induction false} NoItems()
    ensures ItemsMeaning([]) == []
  {
  }

  lemma {:induction false} GroupReads(isObj: bool, gap: Text, items: seq<Item>, rest: Text, depth: nat)
    requires White(gap) && ValidItems(false, isObj, items) && KidsInt64s(ItemsMeaning(items))
    requires depth + 1 + DepthOfKids(ItemsMeaning(items)) <= MAX_DEPTH
    ensures ReadGroup(TreeText(GroupTree(isObj, gap, items)) + rest, isObj, depth) ==
            Got(Group(isObj, ItemsMeaning(items)), rest)
    decreases items, 2
  {
    hide TreeText, ReadKids, KidsInt64s, ItemsText, ItemsMeaning, ValidItems, White;
    var close: Byte := if isObj then 0x7D else 0x5D;
    var body := if items == [] then gap else ItemsText(isObj, items);
    GroupText(isObj, gap, items, rest);
    NoItems();
    if items == [] {
      SkipsWhite(gap, [close] + rest);
      assert SkipWs([close] + rest) == [close] + rest && ([close] + rest)[1..] == rest;
    } else {
      ItemsStart(isObj, items, close, rest);
      ItemsRead(isObj, items, rest, depth + 1, []);
      KidsSkip(body + ([close] + rest), depth + 1, isObj, []);
      assert [] + ItemsMeaning(items) == ItemsMeaning(items);
    }
  }

  /** White space in front of a kid makes no difference. */
  lemma {:induction false} KidsSkip(s: Text, depth: nat, isObj: bool, acc: seq<Kid>)
    ensures ReadKids(SkipWs(s), depth, isObj, acc) == ReadKids(s, depth, isObj, acc)
  {
    KidSkips(s, depth, isObj);
    hide ReadKid, SkipWs;
  }

  lemma {:induction false} KidSkips(s: Text, depth: nat, isObj: bool)
    ensures ReadKid(SkipWs(s), depth, isObj) == ReadKid(s, depth, isObj)
  {
    SkipsTwice(s);
    hide SkipWs, ReadString, ReadGroup, ReadScalar;
  }

  /** The first item of several, and what comes behind its value. */
  lemma {:induction false} ItemsFirst(isObj: bool, items: seq<Item>, close: Byte, rest: Text)
    returns (c: Byte, more: Text)
    requires items != []
    ensures ItemsText(isObj, items) + ([close] + rest) ==
            NameText(isObj, items[0]) + items[0].lead + TreeText(items[0].val) + (items[0].after + ([c] + more))
    ensures c == if |items| == 1 then close else 0x2C
    ensures more == if |items| == 1 then rest else ItemsText(isObj, items[1..]) + ([close] + rest)
  {
    hide NameText, TreeText;
    if |items| == 1 {
      c, more := close, rest;
    } else {
      c, more := 0x2C, ItemsText(isObj, items[1..]) + ([close] + rest);
      var a := NameText(isObj, items[0]) + items[0].lead + TreeText(items[0].val);
      assert ItemsText(isObj, items) == a + items[0].after + ([0x2C] + ItemsText(isObj, items[1..]));
      hide ItemsText;
      Regroup(a, items[0].after, [0x2C], ItemsText(isObj, items[1..]), [close] + rest);
    }
  }

  lemma {:induction false} Regroup(a: Text, b: Text, c: Text, d: Text, e: Text)
    ensures a + b + (c + d) + e == a + (b + (c + (d + e)))
  {
  }

  /** A kid does not start as its container ends. */
  lemma {:induction false} ItemsStart(isObj: bool, items: seq<Item>, close: Byte, rest: Text)
    requires items != [] && ValidItems(false, isObj, items)
    ensures var s := SkipWs(ItemsText(isObj, items) + ([close] + rest)); s != [] && s[0] != 0x7D && s[0] != 0x5D
  {
    var it := items[0];
    hide ItemsText, TreeText, ValidTree, CharsText, White, NameText, SkipWs;
    var c, more := ItemsFirst(isObj, items, close, rest);
    if isObj {
      NameStarts(it, it.lead, TreeText(it.val), it.after + ([c] + more));
    } else {
      LeadStarts(it, it.after + ([c] + more));
    }
  }

  lemma {:induction false} LeadStarts(it: Item, c: Text)
    requires White(it.lead) && ValidTree(false, it.val)
    ensures var s := SkipWs(NameText(false, it) + it.lead + TreeText(it.val) + c);
            s != [] && s[0] != 0x7D && s[0] != 0x5D
  {
    FirstByte(it.val, c);
    SkipsWhite(it.lead, TreeText(it.val) + c);
    SkipsNone(it.val, c);
    hide TreeText, ValidTree, SkipWs, White;
    assert NameText(false, it) + it.lead + TreeText(it.val) + c == it.lead + (TreeText(it.val) + c);
  }

  lemma {:induction false} NameStarts(it: Item, a: Text, b: Text, c: Text)
    requires White(it.before)
    ensures var s := SkipWs(NameText(true, it) + a + b + c); s != [] && s[0] == 0x22
  {
    hide CharsText;
    var tail := CharsText(it.name) + [0x22] + it.gap + [0x3A] + a + b + c;
    assert NameText(true, it) + a + b + c == it.before + ([0x22] + tail);
    SkipsWhite(it.before, [0x22] + tail);
  }

  /** A kid's text, and what comes behind its value. */
  lemma {:induction false} NameReads(it: Item, rest: Text)
    requires ValidName(false, it)
    ensures ReadKey(NameText(true, it) + rest, true) == Got(CharsBytes(it.name), rest)
  {
    hide ReadString, SkipWs, CharsText, CharsBytes, ValidChars, White;
    var q := [0x22] + CharsText(it.name) + [0x22] + (it.gap + ([0x3A] + rest));
    SevenPieces(it.before, [0x22], CharsText(it.name), [0x22], it.gap, [0x3A], rest);
    assert NameText(true, it) + rest == it.before + q;
    SkipsWhite(it.before, q);
    NoSpaceFirst(q);
    StringReads(it.name, it.gap + ([0x3A] + rest));
    SkipsWhite(it.gap, [0x3A] + rest);
    NoSpaceFirst([0x3A] + rest);
    assert ([0x3A] + rest)[1..] == rest;
  }

  lemma {:induction false} NoSpaceFirst(s: Text)
    requires s != [] && (s[0] == 0x22 || s[0] == 0x3A)
    ensures SkipWs(s) == s
  {
  }

  lemma {:induction false} ItemReads(isObj: bool, it: Item, rest: Text, depth: nat)
    requires if isObj then ValidName(false, it) else it.name == []
    requires White(it.lead) && ValidTree(false, it.val) && Int64s(Meaning(it.val)) && JsonRoundTrip.Ended(rest)
    requires depth + Depth(Meaning(it.val)) <= MAX_DEPTH
    ensures ReadKid(NameText(isObj, it) + it.lead + TreeText(it.val) + rest, depth, isObj) ==
            Got(Kid(CharsBytes(it.name), Meaning(it.val)), rest)
    decreases it.val, 2
  {
    hide TreeText, NameText, Meaning, ValidTree, ReadGroup, ReadScalar, ReadString, ValidName, White;
    var tail := it.lead + (TreeText(it.val) + rest);
    assert NameText(isObj, it) + it.lead + TreeText(it.val) + rest == NameText(isObj, it) + tail;
    if isObj {
      NameReads(it, tail);
    } else {
      assert NameText(isObj, it) == [] by { NoName(it); }
      assert [] + tail == tail;
    }
    TreeReads(it.val, rest, depth);
    SkipsWhite(it.lead, TreeText(it.val) + rest);
    SkipsNone(it.val, rest);
    hide ReadKey, SkipWs;
  }

  lemma {:induction false} NoName(it: Item)
    ensures NameText(false, it) == []
  {
  }

  /** What follows a value in a container ends it. */
  lemma {:induction false} WhiteEnds(w: Text, c: Byte, rest: Text)
    requires White(w) && (c == 0x2C || c == 0x7D || c == 0x5D)
    ensures JsonRoundTrip.Ended(w + ([c] + rest))
    ensures SkipWs(w + ([c] + rest)) == [c] + rest && ([c] + rest)[1..] == rest
  {
    SkipsWhite(w, [c] + rest);
  }

  /** One turn of the container loop. */
  lemma {:induction false} OneItemReads(isObj: bool, it: Item, c: Byte, rest: Text, depth: nat, acc: seq<Kid>)
    requires if isObj then ValidName(false, it) else it.name == []
    requires White(it.lead) && ValidTree(false, it.val) && White(it.after) && Int64s(Meaning(it.val))
    requires depth + Depth(Meaning(it.val)) <= MAX_DEPTH && c in {0x2C, if isObj then 0x7D else 0x5D}
    ensures ReadKids(NameText(isObj, it) + it.lead + TreeText(it.val) + (it.after + ([c] + rest)), depth, isObj, acc) ==
            var acc' := acc + [Kid(CharsBytes(it.name), Meaning(it.val))];
            if c == 0x2C then ReadKids(rest, depth, isObj, acc') else Got(acc', rest)
    decreases it.val, 3
  {
    WhiteEnds(it.after, c, rest);
    ItemReads(isObj, it, it.after + ([c] + rest), depth);
    hide ReadKid, SkipWs, NameText, TreeText, Meaning, White, ValidTree, CharsBytes;
  }

  lemma {:induction false} FirstItem(isObj: bool, items: seq<Item>)
    requires items != [] && ValidItems(false, isObj, items) && KidsInt64s(ItemsMeaning(items))
    ensures var it, rest := items[0], items[1..];
            && (if isObj then ValidName(false, it) else it.name == [])
            && White(it.lead) && ValidTree(false, it.val) && White(it.after) && Int64s(Meaning(it.val))
            && ValidItems(false, isObj, rest) && KidsInt64s(ItemsMeaning(rest))
            && ItemsMeaning(items) == [Kid(CharsBytes(it.name), Meaning(it.val))] + ItemsMeaning(rest)
            && Depth(Meaning(it.val)) <= DepthOfKids(ItemsMeaning(items))
            && DepthOfKids(ItemsMeaning(rest)) <= DepthOfKids(ItemsMeaning(items))
  {
    hide ValidTree, ValidName, Meaning, White, CharsBytes, Depth, Int64s;
    assert ItemsMeaning(items)[1..] == ItemsMeaning(items[1..]);
  }

  lemma {:induction false} ItemsRead(isObj: bool, items: seq<Item>, rest: Text, depth: nat, acc: seq<Kid>)
    requires items != [] && ValidItems(false, isObj, items) && KidsInt64s(ItemsMeaning(items))
    requires depth + DepthOfKids(ItemsMeaning(items)) <= MAX_DEPTH
    ensures ReadKids(ItemsText(isObj, items) + ([if isObj then 0x7D else 0x5D] + rest), depth, isObj, acc) ==
            Got(acc + ItemsMeaning(items), rest)
    decreases items, 1
  {
    hide ItemsText, NameText, TreeText, Meaning, White, ValidTree, ItemsMeaning, ValidItems, ValidName, ReadKids;
    hide Int64s, KidsInt64s, Depth, DepthOfKids, CharsBytes;
    FirstItem(isObj, items);
    var it, close: Byte := items[0], if isObj then 0x7D else 0x5D;
    var kid := Kid(CharsBytes(it.name), Meaning(it.val));
    var c, more := ItemsFirst(isObj, items, close, rest);
    OneItemReads(isObj, it, c, more, depth, acc);
    Assoc(acc, [kid], ItemsMeaning(items[1..]));
    if |items| > 1 {
      ItemsRead(isObj, items[1..], rest, depth, acc + [kid]);
    } else {
      NoItems();
      assert items[1..] == [];
    }
  }

  /** What is JSON for a value of 64-bit numbers nesting at most 256 deep is read as it. */
  lemma {:induction false} JsonIsRead(text: Text, v: Json)
    requires Denotes(false, text, v) && Int64s(v) && NestsWithin(v, 256)
    ensures Parse(text) == Got(v, [])
  {
    hide TreeText, Meaning, ValidTree, ReadValue, SkipWs, White, JsonRoundTrip.Ended, Int64s, Depth;
    var d :| Says(false, d, text, v);
    NestsIsDepth(v, 256);
    TreeReadsAfter(d.before, d.tree, d.after);
    assert text == d.before + (TreeText(d.tree) + d.after);
    assert SkipWs(d.after) == [] by { OnlyWhite(d.after); }
  }

  lemma {:induction false} NestsIsDepth(v: Json, n: nat)
    ensures NestsWithin(v, n) <==> Depth(v) <= n
    decreases v, 1
  {
    if v.Group? && n > 0 {
      KidsNestIsDepth(v.kids, n - 1);
    }
  }

  lemma {:induction false} KidsNestIsDepth(kids: seq<Kid>, n: nat)
    ensures (forall kid :: kid in kids ==> NestsWithin(kid.val, n)) <==> DepthOfKids(kids) <= n
    decreases kids, 0
  {
    if kids != [] {
      NestsIsDepth(kids[0].val, n);
      KidsNestIsDepth(kids[1..], n);
      hide NestsWithin, Depth;
      assert forall kid :: kid in kids <==> kid == kids[0] || kid in kids[1..];
    }
  }

  lemma {:induction false} OnlyWhite(w: Text)
    requires White(w)
    ensures SkipWs(w) == [] && JsonRoundTrip.Ended(w)
  {
    SkipsWhite(w, []);
    assert w + [] == w;
  }

  lemma {:induction false} TreeReadsAfter(w: Text, t: Tree, after: Text)
    requires White(w) && ValidTree(false, t) && White(after) && Int64s(Meaning(t)) && Depth(Meaning(t)) <= MAX_DEPTH
    ensures ReadValue(w + (TreeText(t) + after), 0) == Got(Meaning(t), after)
  {
    SkipsWhite(w, TreeText(t) + after);
    SkipsNone(t, after);
    OnlyWhite(after);
    TreeReads(t, after, 0);
    hide TreeText, Meaning, ValidTree, ReadGroup, ReadScalar, SkipWs;
  }

  // --------------------------------------------------------- what is printed

  /** The character a byte is printed as. */
  function CharOf(c: Byte): Char {
    if Plain(c) then Raw(c)
    else if |EscapeByte(c)| == 2 then Short(EscapeByte(c)[1], c)
    else Unit(EscapeByte(c)[|EscapeByte(c)| - 4..], [c])
  }

  lemma {:induction false} CharPrints(c: Byte)
    ensures ValidChar(true, CharOf(c)) && CharText(CharOf(c)) == EscapeByte(c) && CharBytes(CharOf(c)) == [c]
    ensures !IsLone(CharOf(c))
  {
    if |EscapeByte(c)| == 6 {
      var h := EscapeByte(c)[2..];
      assert h == [0x30, 0x30, HexDigit(c / 16), HexDigit(c % 16)];
      assert FourHex(h) && CodeUnit(h) == c;
      assert Utf8(c) == [c];
      EncodesIsUtf8([c], c);
    }
  }

  function CharsOf(s: Text): seq<Char> { if s == [] then [] else [CharOf(s[0])] + CharsOf(s[1..]) }

  lemma {:induction false} CharsPrint(s: Text)
    ensures ValidChars(true, CharsOf(s)) && CharsText(CharsOf(s)) == Escape(s) && CharsBytes(CharsOf(s)) == s
  {
    hide CharOf, CharText, EscapeByte, CharBytes, ValidChar, IsLone, IsLow;
    if s != [] {
      hide CharsText, CharsBytes, ValidChars;
      CharPrints(s[0]);
      CharsPrint(s[1..]);
      OneMoreChar(true, CharOf(s[0]), CharsOf(s[1..]));
      assert [s[0]] + s[1..] == s;
    }
  }

  lemma {:induction false} DigitsPrint(u: nat)
    ensures ValidNumber(true, Digits(u)) && Place(Digits(u)) == u && (u > 0 ==> Digits(u)[0] != 0x30)
  {
    PlaceIsValue(Digits(u));
    JsonRoundTrip.DigitsAreDigits(u);
    NoZeroFirst(u);
  }

  lemma {:induction false} NoZeroFirst(u: nat)
    ensures u > 0 ==> Digits(u)[0] != 0x30
    ensures u < 10 <==> |Digits(u)| == 1
  {
    if u >= 10 {
      NoZeroFirst(u / 10);
    }
  }

  /** The tree of a value, with no white space. */
  function TreeOf(v: Json): Tree
    decreases v, 1
  {
    match v
    case Null => NullTree
    case Bool(b) => if b then TrueTree else FalseTree
    case Num(n) => NumTree(n < 0, Digits(if n < 0 then -n else n))
    case Str(s) => StrTree(CharsOf(s))
    case Group(isObj, kids) => GroupTree(isObj, [], ItemsOf(kids))
  }

  function ItemsOf(kids: seq<Kid>): seq<Item>
    decreases kids, 0
  {
    if kids == [] then [] else [Item([], CharsOf(kids[0].key), [], [], TreeOf(kids[0].val), [])] + ItemsOf(kids[1..])
  }

  lemma {:induction false} TreePrints(v: Json)
    requires Writable(v)
    ensures ValidTree(true, TreeOf(v)) && TreeText(TreeOf(v)) == Print(v) && Meaning(TreeOf(v)) == v
    decreases v, 1
  {
    match v
    case Num(n) =>
      DigitsPrint(if n < 0 then -n else n);
    case Str(s) =>
      CharsPrint(s);
    case Group(isObj, kids) =>
      ItemsPrint(isObj, kids);
      GroupPrints(isObj, kids);
    case _ =>
  }

  lemma {:induction false} GroupPrints(isObj: bool, kids: seq<Kid>)
    requires ValidItems(true, isObj, ItemsOf(kids)) && ItemsMeaning(ItemsOf(kids)) == kids
    requires ItemsText(isObj, ItemsOf(kids)) == PrintKids(isObj, kids, false)
    ensures var v := Group(isObj, kids);
            ValidTree(true, TreeOf(v)) && TreeText(TreeOf(v)) == Print(v) && Meaning(TreeOf(v)) == v
  {
    NoneOf(isObj);
    SomeOf(kids);
    hide ItemsText, ItemsMeaning, ItemsOf, PrintKids, ValidItems;
  }

  lemma {:induction false} NoneOf(isObj: bool)
    ensures ItemsOf([]) == [] && PrintKids(isObj, [], false) == []
  {
  }

  lemma {:induction false} SomeOf(kids: seq<Kid>)
    ensures |ItemsOf(kids)| == |kids|
  {
    if kids != [] {
      SomeOf(kids[1..]);
    }
  }

  lemma {:induction false} ItemsPrint(isObj: bool, kids: seq<Kid>)
    requires WritableKids(isObj, kids)
    ensures ValidItems(true, isObj, ItemsOf(kids)) && ItemsMeaning(ItemsOf(kids)) == kids
    ensures ItemsText(isObj, ItemsOf(kids)) == PrintKids(isObj, kids, false)
    decreases kids, 0
  {
    if kids != [] {
      hide TreeOf, TreeText, Print, Meaning, ValidTree, CharsOf, CharsText, CharsBytes, ValidChars, Quoted, NameText,
        KeyText, PrintKids;
      TreePrints(kids[0].val);
      ItemsPrint(isObj, kids[1..]);
      CharsPrint(kids[0].key);
      SomeOf(kids[1..]);
      var items := ItemsOf(kids);
      assert items[1..] == ItemsOf(kids[1..]);
      NamePrints(isObj, kids[0].key);
      assert NameText(isObj, items[0]) == KeyText(isObj, kids[0].key);
      FirstPrints(isObj, kids);
      OneItem(NameText(isObj, items[0]), TreeText(items[0].val));
    }
  }

  lemma {:induction false} FirstPrints(isObj: bool, kids: seq<Kid>)
    requires kids != []
    ensures PrintKids(isObj, kids, false) ==
            KeyText(isObj, kids[0].key) + Print(kids[0].val)
            + (if |kids| == 1 then [] else [0x2C] + PrintKids(isObj, kids[1..], false))
  {
    if |kids| > 1 {
      JsonRoundTrip.CommaFirst(isObj, kids[1..]);
    }
    hide KeyText, Print;
    assert [] + KeyText(isObj, kids[0].key) == KeyText(isObj, kids[0].key);
  }

  lemma {:induction false} OneItem(a: Text, b: Text)
    ensures a + [] + b + [] == a + b && [] + a == a
  {
  }

  lemma {:induction false} NamePrints(isObj: bool, key: Text)
    ensures forall it: Item :: it.before == [] && it.gap == [] && it.name == CharsOf(key) ==>
              NameText(isObj, it) == KeyText(isObj, key)
  {
    CharsPrint(key);
  }

  /** What is printed is JSON, in the standard's sense, for the value it was printed from. */
  lemma {:induction false} PrintIsJson(v: Json)
    requires Writable(v)
    ensures Denotes(true, Print(v), v)
  {
    TreePrints(v);
    var d := Document([], TreeOf(v), []);
    hide TreeOf, TreeText, Meaning, Print, ValidTree;
    assert [] + Print(v) + [] == Print(v);
    assert Says(true, d, Print(v), v);
  }

  // -------------------------------------------------- what is accepted is JSON

  /** Any character the reader takes, as the grammar has it. */
  lemma {:induction false} CharIsJson(s: Text) returns (ch: Char)
    requires s != [] && s[0] != 0x22 && ReadChar(s).Got?
    ensures var r := ReadChar(s);
            && ValidChar(false, ch) && s == CharText(ch) + r.rest && CharBytes(ch) == r.v
            && (IsLone(ch) ==> !LowNext(r.rest))
  {
    if s[0] != 0x5C {
      ch := Raw(s[0]);
      assert s == [s[0]] + s[1..];
    } else if s[1] == 0x75 {
      ch := EscapeIsJson(s);
    } else {
      ch := Short(s[1], EscapeVal(s[1]));
      assert s == [0x5C, s[1]] + s[2..];
    }
  }

  lemma {:induction false} EscapeIsJson(s: Text) returns (ch: Char)
    requires |s| > 1 && s[0] == 0x5C && s[1] == 0x75 && ReadChar(s).Got?
    ensures var r := ReadChar(s);
            && ValidChar(false, ch) && s == CharText(ch) + r.rest && CharBytes(ch) == r.v
            && (IsLone(ch) ==> !LowNext(r.rest))
  {
    var u := s[2..];
    EscapeParts(s);
    ReadCodePointIs(u);
    hide ReadChar, ReadCodePoint, FourHex, CodeUnit, Encodes, Utf8, LowNext, High, Low, ValidChar, CharText, CharBytes;
    hide IsLone;
    if High(CodeUnit(u[..4])) && LowNext(u[4..]) {
      ch := PairIs(s);
    } else {
      ch := UnitIs(s);
    }
  }

  lemma {:induction false} EscapeParts(s: Text)
    requires |s| > 1 && s[0] == 0x5C && s[1] == 0x75
    ensures var cp := ReadCodePoint(s[2..]);
            ReadChar(s) == if cp.Fail? then Fail else Got(Utf8(cp.v), cp.rest)
  {
    hide ReadCodePoint, Utf8;
  }

  lemma {:induction false} PairIs(s: Text) returns (ch: Char)
    requires |s| >= 6 && s[0] == 0x5C && s[1] == 0x75 && FourHex(s[2..][..4]) && LowNext(s[2..][4..])
    requires High(CodeUnit(s[2..][..4]))
    ensures var u := s[2..];
            var cp := 0x1_0000 + (CodeUnit(u[..4]) - 0xD800) * 0x400 + (CodeUnit(u[6..10]) - 0xDC00);
            && ValidChar(false, ch) && s == CharText(ch) + u[10..] && CharBytes(ch) == Utf8(cp) && !IsLone(ch)
  {
    var u := s[2..];
    var hi, lo := u[..4], u[6..10];
    assert u[4..][2..6] == lo;
    HexRunIs(hi);
    HexRunIs(lo);
    hide FourHex, CodeUnit, Encodes, Utf8;
    var cp := 0x1_0000 + (CodeUnit(hi) - 0xD800) * 0x400 + (CodeUnit(lo) - 0xDC00);
    EncodesIsUtf8(Utf8(cp), cp);
    ch := Pair(hi, lo, Utf8(cp));
    assert u[4..] == [0x5C, 0x75] + lo + u[10..];
    assert s == [0x5C, 0x75] + (hi + u[4..]);
  }

  lemma {:induction false} UnitIs(s: Text) returns (ch: Char)
    requires |s| >= 6 && s[0] == 0x5C && s[1] == 0x75 && FourHex(s[2..][..4])
    ensures var u := s[2..];
            && ValidChar(false, ch) && s == CharText(ch) + u[4..] && CharBytes(ch) == Utf8(CodeUnit(u[..4]))
            && (IsLone(ch) <==> High(CodeUnit(u[..4])))
  {
    var h := s[2..][..4];
    HexRunIs(h);
    hide FourHex, CodeUnit, Encodes, Utf8;
    EncodesIsUtf8(Utf8(CodeUnit(h)), CodeUnit(h));
    ch := Unit(h, Utf8(CodeUnit(h)));
    assert s == [0x5C, 0x75] + h + s[2..][4..];
  }

  lemma {:induction false} OneMoreChar(strict: bool, ch: Char, more: seq<Char>)
    requires ValidChar(strict, ch) && ValidChars(strict, more) && !(IsLone(ch) && IsLow(more))
    ensures var cs := [ch] + more;
            && ValidChars(strict, cs) && CharsText(cs) == CharText(ch) + CharsText(more)
            && CharsBytes(cs) == CharBytes(ch) + CharsBytes(more)
  {
    hide ValidChar, CharText, CharBytes, IsLone, IsLow;
    assert ([ch] + more)[1..] == more;
  }

  lemma {:induction false} CharThenMore(s: Text, acc: Text)
    requires ReadChars(s, acc).Got? && s[0] != 0x22
    ensures var c := ReadChar(s);
            c.Got? && |c.rest| < |s| && ReadChars(s, acc) == ReadChars(c.rest, acc + c.v)
  {
    hide ReadChar;
  }

  lemma {:induction false} QuoteEnds(s: Text, acc: Text)
    requires ReadChars(s, acc).Got?
    ensures s != [] && (s[0] == 0x22 ==> ReadChars(s, acc) == Got(acc, s[1..]) && s == [] + [0x22] + s[1..])
  {
  }

  lemma {:induction false} CharsAreJson(s: Text, acc: Text) returns (cs: seq<Char>)
    requires ReadChars(s, acc).Got?
    ensures var r := ReadChars(s, acc);
            && ValidChars(false, cs) && s == CharsText(cs) + [0x22] + r.rest && r.v == acc + CharsBytes(cs)
    decreases |s|
  {
    hide ReadChars, ReadChar, CharText, ValidChar, LowNext, CharBytes, IsLone, IsLow;
    QuoteEnds(s, acc);
    if s[0] == 0x22 {
      cs := [];
      assert acc + [] == acc;
    } else {
      CharThenMore(s, acc);
      var c, rest := ReadChar(s), ReadChars(s, acc).rest;
      var ch := CharIsJson(s);
      var more := CharsAreJson(c.rest, acc + c.v);
      hide CharsText, CharsBytes, ValidChars;
      LowNextIs(more, rest);
      OneMoreChar(false, ch, more);
      cs := [ch] + more;
      assert CharText(ch) + (CharsText(more) + [0x22] + rest) == CharsText(cs) + [0x22] + rest;
      assert acc + CharBytes(ch) + CharsBytes(more) == acc + CharsBytes(cs);
    }
  }

  lemma {:induction false} StringIsJson(s: Text) returns (cs: seq<Char>)
    requires ReadString(s).Got?
    ensures var r := ReadString(s);
            && ValidChars(false, cs) && s == [0x22] + CharsText(cs) + [0x22] + r.rest && r.v == CharsBytes(cs)
  {
    hide ReadChars, CharsText, CharsBytes, ValidChars;
    cs := CharsAreJson(s[1..], []);
    Opened(s, CharsText(cs), ReadString(s).rest);
    assert [] + CharsBytes(cs) == CharsBytes(cs);
  }

  lemma {:induction false} Opened(s: Text, a: Text, b: Text)
    requires s != [] && s[0] == 0x22 && s[1..] == a + [0x22] + b
    ensures s == [0x22] + a + [0x22] + b
  {
    assert s == [s[0]] + s[1..];
  }

  lemma {:induction false} OneMoreWhite(c: Byte, w: Text)
    requires IsSpace(c) && White(w)
    ensures White([c] + w)
  {
  }

  /** What is skipped is white space. */
  lemma {:induction false} SkippedIsWhite(s: Text) returns (w: Text)
    ensures White(w) && s == w + SkipWs(s)
  {
    if s != [] && IsSpace(s[0]) {
      var more := SkippedIsWhite(s[1..]);
      w := [s[0]] + more;
      OneMoreWhite(s[0], more);
      hide White, IsSpace;
      assert s == [s[0]] + s[1..];
      assert [s[0]] + (more + SkipWs(s[1..])) == [s[0]] + more + SkipWs(s[1..]);
    } else {
      w := [];
    }
  }

  lemma {:induction false} CountedDigits(s: Text)
    ensures forall i :: 0 <= i < DigitCount(s) ==> 0x30 <= s[i] <= 0x39
  {
    if s != [] && IsDigit(s[0]) {
      CountedDigits(s[1..]);
      forall i | 0 < i < DigitCount(s) ensures 0x30 <= s[i] <= 0x39 {
        assert s[i] == s[1..][i - 1];
      }
    }
  }

  lemma {:induction false} DigitsAreJson(s: Text) returns (ds: Text)
    requires ReadDigits(s).Got?
    ensures var r := ReadDigits(s); ValidNumber(false, ds) && s == ds + r.rest && r.v == Place(ds) >= 0
  {
    CountedDigits(s);
    ds := s[..DigitCount(s)];
    assert s == ds + s[DigitCount(s)..];
    PlaceIsValue(ds);
    JsonRoundTrip.NeverNegative(ds);
  }

  lemma {:induction false} NumberIsJson(s: Text) returns (t: Tree)
    requires ReadNumber(s).Got?
    ensures var r := ReadNumber(s);
            && ValidTree(false, t) && s == TreeText(t) + r.rest && Meaning(t) == Num(r.v) && Int64s(Num(r.v))
  {
    hide ReadDigits, Place, ValidNumber;
    if Starts(s, 0x2D) {
      var ds := DigitsAreJson(s[1..]);
      t := NumTree(true, ds);
      assert s == [0x2D] + s[1..];
    } else {
      var ds := DigitsAreJson(s);
      t := NumTree(false, ds);
      assert s == [] + ds + ReadNumber(s).rest;
    }
  }

  lemma {:induction false} ScalarIsJson(s: Text) returns (t: Tree)
    requires ReadScalar(s).Got?
    ensures var r := ReadScalar(s);
            && ValidTree(false, t) && s == TreeText(t) + r.rest && Meaning(t) == r.v && Int64s(r.v) && Depth(r.v) == 0
  {
    hide ReadString, ReadNumber, ValidChars, CharsText, CharsBytes;
    if Starts(s, 0x22) {
      var cs := StringIsJson(s);
      t := StrTree(cs);
    } else if TRUE_TEXT <= s {
      t := TrueTree;
      assert s == TRUE_TEXT + s[4..];
    } else if FALSE_TEXT <= s {
      t := FalseTree;
      assert s == FALSE_TEXT + s[5..];
    } else if NULL_TEXT <= s {
      t := NullTree;
      assert s == NULL_TEXT + s[4..];
    } else {
      t := NumberIsJson(s);
    }
  }

  /** A value the reader takes: white space, and the value's text. */
  lemma {:induction false} ValueIsJson(text: Text, depth: nat) returns (w: Text, t: Tree)
    requires ReadValue(text, depth).Got? && depth <= MAX_DEPTH
    ensures var r := ReadValue(text, depth);
            && White(w) && ValidTree(false, t) && text == w + TreeText(t) + r.rest && Meaning(t) == r.v
            && Int64s(r.v) && depth + Depth(r.v) <= MAX_DEPTH
    decreases |text|, 0
  {
    hide TreeText, Meaning, ValidTree, White, SkipWs, Int64s, Depth, ReadGroup, ReadScalar;
    w := SkippedIsWhite(text);
    var s := SkipWs(text);
    if Starts(s, 0x7B) {
      t := GroupIsJson(s, true, depth);
    } else if Starts(s, 0x5B) {
      t := GroupIsJson(s, false, depth);
    } else {
      t := ScalarIsJson(s);
    }
    assert text == w + TreeText(t) + ReadValue(text, depth).rest;
  }

  lemma {:induction false} GroupIsJson(s: Text, isObj: bool, depth: nat) returns (t: Tree)
    requires Starts(s, if isObj then 0x7B else 0x5B) && ReadGroup(s, isObj, depth).Got?
    ensures var r := ReadGroup(s, isObj, depth);
            && ValidTree(false, t) && s == TreeText(t) + r.rest && Meaning(t) == r.v
            && Int64s(r.v) && depth + Depth(r.v) <= MAX_DEPTH
    decreases |s| - 1, 3
  {
    var s' := SkipWs(s[1..]);
    if Starts(s', if isObj then 0x7D else 0x5D) {
      t := EmptyIsJson(s, isObj, depth);
    } else {
      GroupParts(s, isObj, depth);
      hide ReadKids, SkipWs, ReadGroup, Meaning, ValidTree, Int64s, Depth, DepthOfKids, KidsInt64s, ItemsMeaning;
      hide ItemsText, ValidItems, TreeText;
      KidsSkip(s[1..], depth + 1, isObj, []);
      var items := KidsAreJson(s[1..], depth + 1, isObj, []);
      t := GroupTree(isObj, [], items);
      assert [] + ItemsMeaning(items) == ItemsMeaning(items);
      GroupOf(s, t, ReadGroup(s, isObj, depth).rest);
      GroupHas(isObj, items);
    }
  }

  lemma {:induction false} GroupParts(s: Text, isObj: bool, depth: nat)
    requires s != [] && ReadGroup(s, isObj, depth).Got? && !Starts(SkipWs(s[1..]), if isObj then 0x7D else 0x5D)
    ensures var kids := ReadKids(SkipWs(s[1..]), depth + 1, isObj, []);
            && depth < MAX_DEPTH && kids.Got?
            && ReadGroup(s, isObj, depth) == Got(Group(isObj, kids.v), kids.rest)
  {
    hide ReadKids, SkipWs;
  }

  lemma {:induction false} GroupHas(isObj: bool, items: seq<Item>)
    requires ValidItems(false, isObj, items)
    ensures var t := GroupTree(isObj, [], items);
            && ValidTree(false, t) && Meaning(t) == Group(isObj, ItemsMeaning(items))
            && (Int64s(Meaning(t)) <==> KidsInt64s(ItemsMeaning(items)))
            && Depth(Meaning(t)) == 1 + DepthOfKids(ItemsMeaning(items))
  {
    hide ValidItems, ItemsMeaning, KidsInt64s, DepthOfKids;
  }

  lemma {:induction false} GroupOf(s: Text, t: Tree, rest: Text)
    requires t.GroupTree? && s != [] && s[0] == (if t.isObj then 0x7B else 0x5B)
    requires s[1..] == (if t.items == [] then t.gap else ItemsText(t.isObj, t.items))
                       + ([if t.isObj then 0x7D else 0x5D] + rest)
    ensures s == TreeText(t) + rest
  {
    GroupText(t.isObj, t.gap, t.items, rest);
    hide TreeText, ItemsText;
    var u := TreeText(t) + rest;
    assert s == [s[0]] + s[1..] == [u[0]] + u[1..] == u;
  }

  lemma {:induction false} EmptyIsJson(s: Text, isObj: bool, depth: nat) returns (t: Tree)
    requires Starts(s, if isObj then 0x7B else 0x5B) && ReadGroup(s, isObj, depth).Got?
    requires Starts(SkipWs(s[1..]), if isObj then 0x7D else 0x5D)
    ensures var r := ReadGroup(s, isObj, depth);
            && ValidTree(false, t) && s == TreeText(t) + r.rest && Meaning(t) == r.v
            && Int64s(r.v) && depth + Depth(r.v) <= MAX_DEPTH
  {
    var gap := SkippedIsWhite(s[1..]);
    hide ReadKids, White, ItemsText;
    t := GroupTree(isObj, gap, []);
    EmptyGroup(isObj, gap);
    NoItems();
    var s' := SkipWs(s[1..]);
    assert s' == [s'[0]] + s'[1..];
    hide SkipWs, TreeText;
    GroupOf(s, t, s'[1..]);
  }

  lemma {:induction false} EmptyGroup(isObj: bool, gap: Text)
    ensures ValidItems(false, isObj, []) && White([])
  {
  }

  lemma {:induction false} KeyParts(s: Text)
    requires ReadKey(s, true).Got?
    ensures var r, key := ReadKey(s, true), ReadString(SkipWs(s));
            && key.Got? && r.v == key.v && SkipWs(key.rest) == [0x3A] + r.rest
  {
    hide ReadString, SkipWs;
    var key := ReadString(SkipWs(s));
    assert SkipWs(key.rest) == [0x3A] + SkipWs(key.rest)[1..];
  }

  lemma {:induction false} SevenPieces(a: Text, b: Text, c: Text, d: Text, e: Text, f: Text, g: Text)
    ensures a + (b + c + d + (e + (f + g))) == a + b + c + d + e + f + g
  {
  }

  /** A member's name, as far as the colon. */
  lemma {:induction false} NameIsJson(s: Text) returns (it: Item)
    requires ReadKey(s, true).Got?
    ensures var r := ReadKey(s, true);
            ValidName(false, it) && CharsBytes(it.name) == r.v && s == NameText(true, it) + r.rest
  {
    KeyParts(s);
    hide ReadKey, ReadString, SkipWs, CharsText, CharsBytes, ValidChars, White;
    var r, q := ReadKey(s, true), SkipWs(s);
    var before := SkippedIsWhite(s);
    var name := StringIsJson(q);
    var gap := SkippedIsWhite(ReadString(q).rest);
    it := Item(before, name, gap, [], NullTree, []);
    SevenPieces(before, [0x22], CharsText(name), [0x22], gap, [0x3A], r.rest);
  }

  lemma {:induction false} KidParts(s: Text, depth: nat, isObj: bool)
    requires ReadKid(s, depth, isObj).Got?
    ensures var r, key := ReadKid(s, depth, isObj), ReadKey(s, isObj);
            && key.Got? && |key.rest| <= |s| && (!isObj ==> key == Got([], s))
            && var val := ReadValue(key.rest, depth);
               val.Got? && r == Got(Kid(key.v, val.v), val.rest)
  {
    hide ReadString, ReadValue;
  }

  lemma {:induction false} FivePieces(a: Text, b: Text, c: Text, d: Text, e: Text)
    ensures a + (b + c + (d + e)) == a + b + c + (d + e)
  {
  }

  /** A kid, and the white space behind it. */
  lemma {:induction false} KidIsJson(s: Text, depth: nat, isObj: bool) returns (it: Item)
    requires ReadKid(s, depth, isObj).Got? && depth <= MAX_DEPTH
    ensures var r := ReadKid(s, depth, isObj);
            && (if isObj then ValidName(false, it) else it.name == [])
            && White(it.lead) && ValidTree(false, it.val) && White(it.after)
            && s == NameText(isObj, it) + it.lead + TreeText(it.val) + (it.after + SkipWs(r.rest))
            && Kid(CharsBytes(it.name), Meaning(it.val)) == r.v
            && Int64s(r.v.val) && depth + Depth(r.v.val) <= MAX_DEPTH
    decreases |s|, 1
  {
    KidParts(s, depth, isObj);
    hide ReadKid, ReadKey, SkipWs, ReadValue, TreeText, Meaning, ValidTree, White;
    var r, key := ReadKid(s, depth, isObj), ReadKey(s, isObj);
    var lead, val := ValueIsJson(key.rest, depth);
    var after := SkippedIsWhite(r.rest);
    if isObj {
      it := NameIsJson(s);
    } else {
      it := Item([], [], [], [], NullTree, []);
      assert [] + s == s;
    }
    assert s == NameText(isObj, it) + key.rest;
    it := it.(lead := lead, val := val, after := after);
    hide CharsText;
    var name := NameText(isObj, it);
    assert s == name + key.rest;
    hide NameText;
    FivePieces(name, lead, TreeText(val), after, SkipWs(r.rest));
  }

  lemma {:induction false} NoMoreItems(isObj: bool)
    ensures ValidItems(false, isObj, []) && ItemsMeaning([]) == [] && KidsInt64s([]) && DepthOfKids([]) == 0
  {
  }

  lemma {:induction false} KidsParts(s: Text, depth: nat, isObj: bool, acc: seq<Kid>)
    requires ReadKids(s, depth, isObj, acc).Got?
    ensures var r, kid := ReadKids(s, depth, isObj, acc), ReadKid(s, depth, isObj);
            && kid.Got? && |kid.rest| < |s|
            && var s' := SkipWs(kid.rest);
               && s' != [] && |s'| < |s|
               && (s'[0] == 0x2C || s'[0] == if isObj then 0x7D else 0x5D)
               && r == if s'[0] == 0x2C then ReadKids(s'[1..], depth, isObj, acc + [kid.v])
                       else Got(acc + [kid.v], s'[1..])
  {
    hide ReadKid, SkipWs;
  }

  /** A kid's text, and that of the kids after it. */
  lemma {:induction false} ItemsJoin(isObj: bool, it: Item, more: seq<Item>, close: Byte, rest: Text)
    ensures ItemsText(isObj, [it] + more) + ([close] + rest) ==
            NameText(isObj, it) + it.lead + TreeText(it.val)
            + (it.after + (if more == [] then [close] + rest
                           else [0x2C] + (ItemsText(isObj, more) + ([close] + rest))))
  {
    var items := [it] + more;
    assert items[1..] == more;
    hide ItemsText, NameText, TreeText;
    var c, tail := ItemsFirst(isObj, items, close, rest);
  }

  lemma {:induction false} KidsAreJson(s: Text, depth: nat, isObj: bool, acc: seq<Kid>) returns (items: seq<Item>)
    requires ReadKids(s, depth, isObj, acc).Got? && depth <= MAX_DEPTH
    ensures var r := ReadKids(s, depth, isObj, acc);
            && items != [] && ValidItems(false, isObj, items)
            && s == ItemsText(isObj, items) + ([if isObj then 0x7D else 0x5D] + r.rest)
            && r.v == acc + ItemsMeaning(items)
            && KidsInt64s(ItemsMeaning(items)) && depth + DepthOfKids(ItemsMeaning(items)) <= MAX_DEPTH
    decreases |s|, 2
  {
    KidsParts(s, depth, isObj, acc);
    hide ReadKid, SkipWs, TreeText, NameText, ValidTree, White, ValidName, CharsBytes, ReadKids;
    hide Int64s, Depth, Meaning, ItemsText, ItemsMeaning, ValidItems, KidsInt64s, DepthOfKids;
    var r, kid := ReadKids(s, depth, isObj, acc), ReadKid(s, depth, isObj);
    var close: Byte := if isObj then 0x7D else 0x5D;
    var s' := SkipWs(kid.rest);
    var it := KidIsJson(s, depth, isObj);
    assert s' == [s'[0]] + s'[1..];
    if s'[0] == 0x2C {
      var more := KidsAreJson(s'[1..], depth, isObj, acc + [kid.v]);
      items := [it] + more;
      OneMoreItem(isObj, it, more);
      ItemsJoin(isObj, it, more, close, r.rest);
      Assoc(acc, [kid.v], ItemsMeaning(more));
    } else {
      NoMoreItems(isObj);
      items := [it] + [];
      OneMoreItem(isObj, it, []);
      ItemsJoin(isObj, it, [], close, r.rest);
      Assoc(acc, [kid.v], []);
    }
  }

  lemma {:induction false} Assoc(a: seq<Kid>, b: seq<Kid>, c: seq<Kid>)
    ensures a + b + c == a + (b + c) && a + b + [] == a + b
  {
  }

  lemma {:induction false} OneMoreItem(isObj: bool, it: Item, more: seq<Item>)
    requires if isObj then ValidName(false, it) else it.name == []
    requires White(it.lead) && ValidTree(false, it.val) && White(it.after) && ValidItems(false, isObj, more)
    requires Int64s(Meaning(it.val)) && KidsInt64s(ItemsMeaning(more))
    ensures var items := [it] + more;
            && ValidItems(false, isObj, items)
            && ItemsMeaning(items) == [Kid(CharsBytes(it.name), Meaning(it.val))] + ItemsMeaning(more)
            && KidsInt64s(ItemsMeaning(items))
            && DepthOfKids(ItemsMeaning(items)) == Max(Depth(Meaning(it.val)), DepthOfKids(ItemsMeaning(more)))
  {
    assert ([it] + more)[1..] == more;
    var kid := Kid(CharsBytes(it.name), Meaning(it.val));
    assert ([kid] + ItemsMeaning(more))[1..] == ItemsMeaning(more);
    hide ValidTree, ValidName, Meaning, White, CharsBytes, Depth, Int64s;
  }

  lemma {:induction false} ReadIsJson(text: Text)
    requires Parse(text).Got?
    ensures var v := Parse(text).v; Denotes(false, text, v) && Int64s(v) && NestsWithin(v, 256)
  {
    var v := Parse(text).v;
    NestsIsDepth(v, 256);
    var w, t := ValueIsJson(text, 0);
    var rest := ReadValue(text, 0).rest;
    var after := SkippedIsWhite(rest);
    hide TreeText, Meaning, ValidTree, White, ReadValue;
    assert after + [] == after;
    assert Says(false, Document(w, t, after), text, v);
  }

  /** The reader takes exactly the texts that are JSON for a value of 64-bit numbers that
      nests at most 256 deep, and gives that value. */
  lemma {:induction false} AcceptsExactlyJson(text: Text, v: Json)
    ensures Parse(text) == Got(v, []) <==> Denotes(false, text, v) && Int64s(v) && NestsWithin(v, 256)
  {
    if Parse(text) == Got(v, []) {
      ReadIsJson(text);
    }
    if Denotes(false, text, v) && Int64s(v) && NestsWithin(v, 256) {
      JsonIsRead(text, v);
    }
    hide Denotes;
  }

  /** So no text is JSON for two values, within those limits. */
  lemma {:induction false} OneMeaning(text: Text, v: Json, w: Json)
    requires Denotes(false, text, v) && Int64s(v) && NestsWithin(v, 256)
    requires Denotes(false, text, w) && Int64s(w) && NestsWithin(w, 256)
    ensures v == w
  {
    JsonIsRead(text, v);
    JsonIsRead(text, w);
  }

  // ------------------------------------------------- the standard is let in

  lemma {:induction false} StrictCharsAreLoose(cs: seq<Char>)
    requires ValidChars(true, cs)
    ensures ValidChars(false, cs)
  {
    if cs != [] {
      StrictCharsAreLoose(cs[1..]);
    }
  }

  lemma {:induction false} StrictTreeIsLoose(t: Tree)
    requires ValidTree(true, t)
    ensures ValidTree(false, t)
    decreases t, 1
  {
    match t
    case StrTree(cs) => StrictCharsAreLoose(cs);
    case GroupTree(isObj, _, items) => StrictItemsAreLoose(isObj, items);
    case _ =>
  }

  lemma {:induction false} StrictItemsAreLoose(isObj: bool, items: seq<Item>)
    requires ValidItems(true, isObj, items)
    ensures ValidItems(false, isObj, items)
    decreases items, 0
  {
    if items != [] {
      if isObj {
        StrictCharsAreLoose(items[0].name);
      }
      StrictTreeIsLoose(items[0].val);
      StrictItemsAreLoose(isObj, items[1..]);
    }
  }

  /** Every text that is JSON in the standard's sense is accepted as what it says. */
  lemma {:induction false} StandardIsAccepted(text: Text, v: Json)
    requires Denotes(true, text, v) && Int64s(v) && NestsWithin(v, 256)
    ensures Parse(text) == Got(v, [])
  {
    var d :| Says(true, d, text, v);
    StrictTreeIsLoose(d.tree);
    assert Says(false, d, text, v);
    JsonIsRead(text, v);
  }
}
