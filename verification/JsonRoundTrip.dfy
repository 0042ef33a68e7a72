/** The reader undoes the writer, for every value the writer can be given. */
module JsonRoundTrip {
  import opened Json

  lemma {:induction false} Tail(c: Byte, a: Text, b: Text)
    ensures ([c] + a + b)[0] == c && ([c] + a + b)[1..] == a + b
    ensures ([c] + a)[0] == c && ([c] + a)[1..] == a
  {
  }

  lemma {:induction false} Regroup(a: Text, b: Text, c: Text, d: Text, e: Text)
    ensures [] + a + b + c + d + e == a + (b + (c + d + e))
  {
  }

  lemma {:induction false} Regroup'(a: Text, b: Text, c: Text, d: Text)
    ensures a + b + c + d == a + ([] + b + c + d)
    ensures a + b + c == a + (b + c)
  {
  }

  // ---------------------------------------------------------------- strings

  lemma {:induction false} HexOfByte(c: Byte)
    ensures HexRun([0x30, 0x30, HexDigit(c / 16), HexDigit(c % 16)]) == c
  {
    var a, b := HexDigit(c / 16), HexDigit(c % 16);
    var one: Text, two: Text, three: Text, four: Text := [0x30], [0x30, 0x30], [0x30, 0x30, a], [0x30, 0x30, a, b];
    assert one[..0] == [] && two[..1] == one && three[..2] == two && four[..3] == three;
    assert HexRun(one) == 0 && HexRun(two) == 0 && HexRun(three) == c / 16;
  }

  /** One escaped byte reads back as that byte. */
  lemma {:induction false} ReadsEscaped(c: Byte, rest: Text)
    requires c != 0
    ensures ReadChar(EscapeByte(c) + rest) == Got([c], rest) && EscapeByte(c)[0] != QUOTE
  {
    var e := EscapeByte(c);
    var s := e + rest;
    if |e| == 6 {
      assert s[2..][..4] == e[2..] && s[2..][4..] == rest;
      HexOfByte(c);
      assert Utf8(c) == [c];
    } else if |e| == 2 {
      assert s[2..] == rest;
    } else {
      assert s[1..] == rest;
    }
  }

  lemma {:induction false} ReadsOneMore(c: Byte, acc: Text, rest: Text)
    requires c != 0
    ensures ReadChars(EscapeByte(c) + rest, acc) == ReadChars(rest, acc + [c])
  {
    ReadsEscaped(c, rest);
    hide EscapeByte, ReadChar;
    assert (EscapeByte(c) + rest)[0] == EscapeByte(c)[0];
  }

  lemma {:induction false} EscapedFirst(s: Text, rest: Text)
    requires s != []
    ensures Escape(s) + [QUOTE] + rest == EscapeByte(s[0]) + (Escape(s[1..]) + [QUOTE] + rest)
  {
    Regroup([], EscapeByte(s[0]), Escape(s[1..]), [QUOTE], rest);
    hide EscapeByte;
  }

  lemma {:induction false} ReadsEnd(acc: Text, rest: Text)
    ensures ReadChars(Escape([]) + [QUOTE] + rest, acc) == Got(acc, rest)
  {
    assert (Escape([]) + [QUOTE] + rest)[1..] == rest;
  }

  lemma {:induction false} ReadsChars(s: Text, acc: Text, rest: Text)
    requires NulFree(s)
    ensures ReadChars(Escape(s) + [QUOTE] + rest, acc) == Got(acc + s, rest)
    decreases s
  {
    hide EscapeByte, ReadChars, Escape;
    if s == [] {
      ReadsEnd(acc, rest);
      assert acc + s == acc;
    } else {
      EscapedFirst(s, rest);
      ReadsOneMore(s[0], acc, Escape(s[1..]) + [QUOTE] + rest);
      ReadsChars(s[1..], acc + [s[0]], rest);
      assert acc + [s[0]] + s[1..] == acc + s;
    }
  }

  lemma {:induction false} ReadsQuoted(s: Text, rest: Text)
    requires NulFree(s)
    ensures ReadString(Quoted(s) + rest) == Got(s, rest)
  {
    assert (Quoted(s) + rest)[1..] == Escape(s) + [QUOTE] + rest;
    ReadsChars(s, [], rest);
    assert [] + s == s;
  }

  // ---------------------------------------------------------------- numbers

  predicate AllDigits(ds: Text) { forall k :: 0 <= k < |ds| ==> IsDigit(ds[k]) }

  lemma {:induction false} DigitsAreDigits(u: nat)
    ensures AllDigits(Digits(u)) && DigitsVal(Digits(u)) == u
  {
    if u >= 10 {
      DigitsAreDigits(u / 10);
      assert Digits(u)[..|Digits(u)| - 1] == Digits(u / 10);
    }
  }

  lemma {:induction false} CountsDigits(ds: Text, rest: Text)
    requires AllDigits(ds) && (rest != [] ==> !IsDigit(rest[0]))
    ensures DigitCount(ds + rest) == |ds|
  {
    if ds == [] {
      assert ds + rest == rest;
    } else {
      assert (ds + rest)[1..] == ds[1..] + rest;
      CountsDigits(ds[1..], rest);
    }
  }

  /** What may follow a value without changing how it reads. */
  predicate Ended(rest: Text) { rest != [] ==> !IsDigit(rest[0]) && !IsReal(rest[0]) }

  lemma {:induction false} ReadsDigits(u: nat, rest: Text)
    requires Ended(rest)
    ensures ReadDigits(Digits(u) + rest) == Got(u, rest)
  {
    var ds := Digits(u);
    DigitsAreDigits(u);
    CountsDigits(ds, rest);
    assert (ds + rest)[..|ds|] == ds && (ds + rest)[|ds|..] == rest;
  }

  lemma {:induction false} ReadsNumber(n: int, rest: Text)
    requires INT64_MIN <= n <= INT64_MAX && Ended(rest)
    ensures ReadNumber(Decimal(n) + rest) == Got(n, rest)
    ensures var c := Decimal(n)[0]; c == MINUS || IsDigit(c)
  {
    if n < 0 {
      var u: nat := 0 - n;
      Tail(MINUS, Digits(u), rest);
      ReadsDigits(u, rest);
    } else {
      DigitsAreDigits(n);
      ReadsDigits(n, rest);
    }
  }

  // ----------------------------------------------------------------- values

  lemma {:induction false} NotPrefix(a: Text, s: Text)
    requires a != [] && s != [] && a[0] != s[0]
    ensures !(a <= s)
  {
  }

  lemma {:induction false} ReadsScalar(v: Json, rest: Text)
    requires Writable(v) && !v.Group? && Ended(rest)
    ensures ReadScalar(Print(v) + rest) == Got(v, rest)
  {
    var s := Print(v) + rest;
    match v
    case Null =>
      NotPrefix(TRUE_TEXT, s);
      NotPrefix(FALSE_TEXT, s);
      assert s[4..] == rest && NULL_TEXT <= s;
    case Num(n) =>
      ReadsNumber(n, rest);
      NotPrefix(TRUE_TEXT, s);
      NotPrefix(FALSE_TEXT, s);
      NotPrefix(NULL_TEXT, s);
    case Str(str) => ReadsQuoted(str, rest);
  }

  /** Everything printed starts with a byte that is neither space nor a closing bracket. */
  predicate Solid(s: Text) { s != [] && !IsSpace(s[0]) && s[0] != Close(true) && s[0] != Close(false) }

  lemma {:induction false} PrintsSolid(v: Json)
    requires Writable(v)
    ensures Solid(Print(v)) && (!v.Group? ==> Print(v)[0] != Open(true) && Print(v)[0] != Open(false))
  {
    if v.Num? {
      DigitsAreDigits(if v.n < 0 then -v.n else v.n);
    }
  }

  /** What reading a printed value gives: the value, unless it nests too deep. */
  function Expected<T>(fits: bool, v: T, rest: Text): Parsed<T> { if fits then Got(v, rest) else Fail }

  lemma {:induction false} ReadsValue(v: Json, rest: Text, depth: nat)
    requires Writable(v) && Ended(rest) && depth <= MAX_DEPTH
    ensures ReadValue(Print(v) + rest, depth) == Expected(depth + Depth(v) <= MAX_DEPTH, v, rest)
    decreases Size(v), 0
  {
    PrintsSolid(v);
    match v
    case Group(isObj, kids) => ReadsGroup(isObj, kids, rest, depth);
    case _ => ReadsScalar(v, rest);
  }

  lemma {:induction false} ReadsGroup(isObj: bool, kids: seq<Kid>, rest: Text, depth: nat)
    requires WritableKids(isObj, kids) && depth <= MAX_DEPTH
    ensures ReadGroup(Print(Group(isObj, kids)) + rest, isObj, depth) ==
            Expected(depth + 1 + DepthOfKids(kids) <= MAX_DEPTH, Group(isObj, kids), rest)
    decreases SizeOfKids(kids), 4
  {
    hide ReadKids;
    var body := PrintKids(isObj, kids, false);
    Regroup'([Open(isObj)], body, [Close(isObj)], rest);
    Regroup'([], body, [Close(isObj)], rest);
    Tail(Open(isObj), body + [Close(isObj)], rest);
    if kids == [] {
      Tail(Close(isObj), rest, []);
      assert body + [Close(isObj)] + rest == [Close(isObj)] + rest;
    } else if depth < MAX_DEPTH {
      KidsStartSolid(isObj, kids);
      ReadsKids(isObj, kids, rest, depth + 1, []);
      assert [] + kids == kids;
    }
  }

  lemma {:induction false} KidsStartSolid(isObj: bool, kids: seq<Kid>)
    requires kids != [] && WritableKids(isObj, kids)
    ensures Solid(PrintKids(isObj, kids, false))
  {
    PrintsSolid(kids[0].val);
  }

  lemma {:induction false} ReadsKey(isObj: bool, key: Text, rest: Text)
    requires NulFree(key) && (!isObj ==> key == [])
    ensures ReadKey(KeyText(isObj, key) + rest, isObj) == Got(key, rest)
  {
    if isObj {
      assert KeyText(isObj, key) + rest == Quoted(key) + ([COLON] + rest);
      ReadsQuoted(key, [COLON] + rest);
      assert ([COLON] + rest)[1..] == rest;
    } else {
      assert KeyText(isObj, key) + rest == rest;
    }
  }

  lemma {:induction false} ReadsKid(isObj: bool, kid: Kid, rest: Text, depth: nat)
    requires NulFree(kid.key) && (!isObj ==> kid.key == []) && Writable(kid.val) && Ended(rest) && depth <= MAX_DEPTH
    ensures ReadKid(KeyText(isObj, kid.key) + (Print(kid.val) + rest), depth, isObj) ==
            Expected(depth + Depth(kid.val) <= MAX_DEPTH, kid, rest)
    decreases Size(kid.val), 1
  {
    ReadsKey(isObj, kid.key, Print(kid.val) + rest);
    ReadsValue(kid.val, rest, depth);
  }

  /** Kids that follow others: a comma, and then as if they were the first. */
  lemma {:induction false} CommaFirst(isObj: bool, kids: seq<Kid>)
    requires kids != []
    ensures PrintKids(isObj, kids, true) == [COMMA] + PrintKids(isObj, kids, false)
  {
    Regroup'([COMMA], KeyText(isObj, kids[0].key), Print(kids[0].val), PrintKids(isObj, kids[1..], true));
  }

  /** A printed list of kids and its bracket: the first kid, and what follows it. */
  lemma {:induction false} SplitKids(isObj: bool, kids: seq<Kid>, rest: Text) returns (more: Text)
    requires kids != []
    ensures KidsText(isObj, kids, rest) == KeyText(isObj, kids[0].key) + (Print(kids[0].val) + more)
    ensures more == if |kids| == 1 then [Close(isObj)] + rest
                    else [COMMA] + KidsText(isObj, kids[1..], rest)
  {
    var tail := PrintKids(isObj, kids[1..], true);
    more := tail + [Close(isObj)] + rest;
    Regroup(KeyText(isObj, kids[0].key), Print(kids[0].val), tail, [Close(isObj)], rest);
    if |kids| > 1 {
      var first := PrintKids(isObj, kids[1..], false);
      CommaFirst(isObj, kids[1..]);
      Regroup'([COMMA], first, [Close(isObj)], rest);
      Regroup'([COMMA], first + [Close(isObj)], rest, []);
    }
  }

  /** One turn of the container loop: a printed kid, then a comma or the bracket. */
  lemma {:induction false} KidsTurn(isObj: bool, kid: Kid, c: Byte, rest: Text, depth: nat, acc: seq<Kid>)
    requires NulFree(kid.key) && (!isObj ==> kid.key == []) && Writable(kid.val) && depth <= MAX_DEPTH
    requires c == COMMA || c == Close(isObj)
    ensures ReadKids(KeyText(isObj, kid.key) + (Print(kid.val) + ([c] + rest)), depth, isObj, acc) ==
            if depth + Depth(kid.val) > MAX_DEPTH then Fail
            else if c == COMMA then ReadKids(rest, depth, isObj, acc + [kid]) else Got(acc + [kid], rest)
    decreases Size(kid.val), 2
  {
    Tail(c, rest, []);
    ReadsKid(isObj, kid, [c] + rest, depth);
  }

  function KidsText(isObj: bool, kids: seq<Kid>, rest: Text): Text {
    PrintKids(isObj, kids, false) + [Close(isObj)] + rest
  }

  lemma {:induction false} ReadsKids(isObj: bool, kids: seq<Kid>, rest: Text, depth: nat, acc: seq<Kid>)
    requires kids != [] && WritableKids(isObj, kids) && depth <= MAX_DEPTH
    ensures ReadKids(KidsText(isObj, kids, rest), depth, isObj, acc) ==
            Expected(depth + DepthOfKids(kids) <= MAX_DEPTH, acc + kids, rest)
    decreases SizeOfKids(kids), 3
  {
    hide KidsText, Print, KeyText, ReadKid;
    var text := KidsText(isObj, kids, rest);
    var more := SplitKids(isObj, kids, rest);
    if |kids| == 1 {
      KidsTurn(isObj, kids[0], Close(isObj), rest, depth, acc);
      assert kids == [kids[0]];
    } else {
      KidsTurn(isObj, kids[0], COMMA, KidsText(isObj, kids[1..], rest), depth, acc);
      assert acc + [kids[0]] + kids[1..] == acc + kids;
      if depth + Depth(kids[0].val) <= MAX_DEPTH {
        assert ReadKids(text, depth, isObj, acc) ==
               ReadKids(KidsText(isObj, kids[1..], rest), depth, isObj, acc + [kids[0]]);
        ReadsKids(isObj, kids[1..], rest, depth, acc + [kids[0]]);
      }
    }
  }

  /** Parsing what the writer wrote gives back the same value exactly when it nests no
      deeper than the reader goes, and nothing otherwise. */
  lemma {:induction false} RoundTrip(v: Json)
    requires Writable(v)
    ensures Parse(Print(v)) == Expected(Depth(v) <= MAX_DEPTH, v, [])
  {
    assert Print(v) + [] == Print(v);
    ReadsValue(v, [], 0);
  }

  /** So two values that print alike are the same. */
  lemma {:induction false} PrintIsInjective(v: Json, w: Json)
    requires Writable(v) && Writable(w) && Depth(v) <= MAX_DEPTH && Depth(w) <= MAX_DEPTH && Print(v) == Print(w)
    ensures v == w
  {
    RoundTrip(v);
    RoundTrip(w);
  }

  /** The number reader takes any string of digits, leading zeros included, exactly when
      the signed 64-bit integers hold its value. */
  lemma {:induction false} AcceptsExactlyInt64(neg: bool, ds: Text, rest: Text)
    requires ds != [] && AllDigits(ds) && Ended(rest)
    ensures var n := if neg then 0 - DigitsVal(ds) else DigitsVal(ds);
            ReadNumber((if neg then [MINUS] else []) + ds + rest) ==
            if INT64_MIN <= n <= INT64_MAX then Got(n, rest) else Fail
  {
    CountsDigits(ds, rest);
    NeverNegative(ds);
    var s := ds + rest;
    assert s[..|ds|] == ds && s[|ds|..] == rest;
    if neg {
      Tail(MINUS, ds, rest);
    } else {
      assert [] + ds + rest == s;
      assert s[0] == ds[0];
    }
  }

  lemma {:induction false} NeverNegative(ds: Text)
    requires AllDigits(ds)
    ensures DigitsVal(ds) >= 0
  {
    if ds != [] {
      NeverNegative(ds[..|ds| - 1]);
    }
  }

  lemma {:induction false} LeadingZero(ds: Text)
    ensures DigitsVal([48] + ds) == DigitsVal(ds)
  {
    var zds := [48] + ds;
    if ds == [] {
      assert zds[..0] == [];
    } else {
      LeadingZero(ds[..|ds| - 1]);
      assert zds[..|ds|] == [48] + ds[..|ds| - 1];
    }
  }
}
