/** base64 as section 4 of RFC 4648 puts it: the bits of the bytes in order, six to a letter,
    zero bits up to the last letter's end, and padding up to a whole group of letters. */
module Base64Bits {
  import opened Json
  import Base64

  /** What a letter stands for. */
  type Six = v: int | 0 <= v < 64

  /** The low `n` bits of a number, high one first. */
  function Bits(v: int, n: nat): (bs: seq<int>)
    ensures |bs| == n
    decreases n
  {
    if n == 0 then [] else Bits(v / 2, n - 1) + [v % 2]
  }

  function AllBits(vs: seq<int>, n: nat): seq<int> {
    if vs == [] then [] else Bits(vs[0], n) + AllBits(vs[1..], n)
  }

  function Zeros(n: nat): seq<int> { if n == 0 then [] else [0] + Zeros(n - 1) }

  /** The characters from one to another. */
  function Range(first: nat, last: nat): (r: Text)
    requires last < 256
    ensures |r| == if first > last then 0 else last - first + 1
    decreases last + 1 - first
  {
    if first > last then [] else [first] + Range(first + 1, last)
  }

  /** A to Z, a to z, 0 to 9, plus and slash. */
  function Alphabet(): (r: Text)
    ensures |r| == 64
  {
    Range(0x41, 0x5A) + Range(0x61, 0x7A) + Range(0x30, 0x39) + [0x2B, 0x2F]
  }

  function Letters(vs: seq<Six>): Text { if vs == [] then [] else [Alphabet()[vs[0]]] + Letters(vs[1..]) }

  function Pads(n: nat): Text { if n == 0 then [] else [0x3D] + Pads(n - 1) }

  /** `t` is `s` in base64, `vs` what its letters stand for. */
  predicate IsBase64By(s: Text, t: Text, vs: seq<Six>) {
    && |vs| == (8 * |s| + 5) / 6
    && AllBits(vs, 6) == AllBits(s, 8) + Zeros(6 * |vs| - 8 * |s|)
    && t == Letters(vs) + Pads((4 - |vs| % 4) % 4)
  }

  // ---------------------------------------------------------------- letters

  lemma {:induction false} RangeAt(first: nat, last: nat, k: nat)
    requires first <= last < 256 && k <= last - first
    ensures Range(first, last)[k] == first + k
    decreases last - first
  {
    if k > 0 {
      RangeAt(first + 1, last, k - 1);
    } else if first < last {
      RangeAt(first + 1, last, 0);
    }
  }

  lemma {:induction false} LetterIsInAlphabet(v: Six)
    ensures Alphabet()[v] == Base64.Letter(v)
  {
    RangeAt(0x41, 0x5A, if v < 26 then v else 0);
    RangeAt(0x61, 0x7A, if 26 <= v < 52 then v - 26 else 0);
    RangeAt(0x30, 0x39, if 52 <= v < 62 then v - 52 else 0);
    hide Range;
  }

  // ------------------------------------------------------------------- bits

  function Two(n: nat): nat { if n == 0 then 1 else 2 * Two(n - 1) }

  /** The bits of two numbers side by side. */
  lemma {:induction false} BitsOfBoth(hi: int, lo: int, m: nat, n: nat)
    requires 0 <= lo < Two(n)
    ensures Bits(hi * Two(n) + lo, m + n) == Bits(hi, m) + Bits(lo, n)
  {
    if n > 0 {
      var v := hi * Two(n) + lo;
      Halves(hi, Two(n - 1), lo);
      BitsOfBoth(hi, lo / 2, m, n - 1);
      assert Bits(v, m + n) == Bits(v / 2, m + n - 1) + [v % 2];
      assert Bits(hi, m) + Bits(lo / 2, n - 1) + [lo % 2] == Bits(hi, m) + (Bits(lo / 2, n - 1) + [lo % 2]);
    } else {
      assert Bits(lo, 0) == [];
    }
  }

  lemma {:induction false} Halves(hi: int, half: int, lo: int)
    ensures (hi * (2 * half) + lo) / 2 == hi * half + lo / 2 && (hi * (2 * half) + lo) % 2 == lo % 2
  {
    assert hi * (2 * half) == 2 * (hi * half);
  }

  lemma {:induction false} BitsOfZero(n: nat)
    ensures Bits(0, n) == Zeros(n)
  {
    if n > 0 {
      BitsOfZero(n - 1);
      ZerosOnBothEnds(n - 1);
    }
  }

  lemma {:induction false} ZerosOnBothEnds(n: nat)
    ensures Zeros(n) + [0] == [0] + Zeros(n) && |Zeros(n)| == n
  {
    if n > 0 {
      ZerosOnBothEnds(n - 1);
    }
  }

  lemma {:induction false} Powers()
    ensures Two(6) == 0x40 && Two(8) == 0x100
  {
    assert Two(4) == 0x10;
  }

  /** The 24 bits of a group, by bytes and by letters. */
  lemma {:induction false} BitsOfWord(a: Byte, b: Byte, c: Byte, v0: Six, v1: Six, v2: Six, v3: Six)
    requires ((v0 * 64 + v1) * 64 + v2) * 64 + v3 == (a as int * 256 + b as int) * 256 + c as int
    ensures Bits(a, 8) + Bits(b, 8) + Bits(c, 8) == Bits(v0, 6) + Bits(v1, 6) + Bits(v2, 6) + Bits(v3, 6)
  {
    Powers();
    hide Bits, Two;
    BitsOfBoth(a, b, 8, 8);
    BitsOfBoth(a as int * 256 + b as int, c, 16, 8);
    BitsOfBoth(v0, v1, 6, 6);
    BitsOfBoth(v0 * 64 + v1, v2, 12, 6);
    BitsOfBoth((v0 * 64 + v1) * 64 + v2, v3, 18, 6);
  }

  lemma {:induction false} AllBitsOfBoth(vs: seq<int>, ws: seq<int>, n: nat)
    ensures AllBits(vs + ws, n) == AllBits(vs, n) + AllBits(ws, n)
  {
    hide Bits;
    if vs == [] {
      assert vs + ws == ws;
    } else {
      assert (vs + ws)[1..] == vs[1..] + ws;
      AllBitsOfBoth(vs[1..], ws, n);
    }
  }

  lemma {:induction false} AllBitsOfOne(v: int, n: nat)
    ensures AllBits([v], n) == Bits(v, n)
  {
    assert [v][1..] == [];
    hide Bits;
  }

  lemma {:induction false} AllBitsOfThree(a: int, b: int, c: int, n: nat)
    ensures AllBits([a, b, c], n) == Bits(a, n) + Bits(b, n) + Bits(c, n)
  {
    hide Bits, AllBits;
    AllBitsOfOne(a, n);
    AllBitsOfOne(b, n);
    AllBitsOfOne(c, n);
    AllBitsOfBoth([a], [b], n);
    AllBitsOfBoth([a, b], [c], n);
    assert [a] + [b] == [a, b] && [a, b] + [c] == [a, b, c];
  }

  lemma {:induction false} AllBitsOfFour(a: int, b: int, c: int, d: int, n: nat)
    ensures AllBits([a, b, c, d], n) == Bits(a, n) + Bits(b, n) + Bits(c, n) + Bits(d, n)
  {
    hide Bits, AllBits;
    AllBitsOfThree(a, b, c, n);
    AllBitsOfOne(d, n);
    AllBitsOfBoth([a, b, c], [d], n);
    assert [a, b, c] + [d] == [a, b, c, d];
  }

  lemma {:induction false} LettersOfBoth(vs: seq<Six>, ws: seq<Six>)
    ensures Letters(vs + ws) == Letters(vs) + Letters(ws)
  {
    hide Alphabet;
    if vs == [] {
      assert vs + ws == ws;
    } else {
      assert (vs + ws)[1..] == vs[1..] + ws;
      LettersOfBoth(vs[1..], ws);
    }
  }

  lemma {:induction false} LettersOfFour(vs: seq<Six>)
    requires |vs| <= 4
    ensures |Letters(vs)| == |vs| && forall i :: 0 <= i < |vs| ==> Letters(vs)[i] == Base64.Letter(vs[i])
  {
    hide Alphabet, Base64.Letter;
    if vs != [] {
      LetterIsInAlphabet(vs[0]);
      LettersOfFour(vs[1..]);
    }
  }

  // -------------------------------------------------------------- a group's

  /** A group's letters stand for its 24 bits. */
  lemma {:induction false} GroupIsBits(a: Byte, b: Byte, c: Byte) returns (vs: seq<Six>)
    ensures |vs| == 4 && AllBits(vs, 6) == AllBits([a, b, c], 8) && Base64.Group(a, b, c) == Letters(vs)
    ensures c == 0 ==> vs[3] == 0
    ensures c == 0 && b == 0 ==> vs[2] == 0
  {
    var w := Base64.Word(a, b, c);
    var v0: Six, v1: Six, v2: Six, v3: Six := w / 0x4_0000 % 0x40, w / 0x1000 % 0x40, w / 0x40 % 0x40, w % 0x40;
    vs := [v0, v1, v2, v3];
    hide Bits, AllBits, Alphabet, Letters, Base64.Letter;
    Sixes(w);
    Base64.ShortWord(a, b);
    BitsOfWord(a, b, c, v0, v1, v2, v3);
    AllBitsOfThree(a, b, c, 8);
    AllBitsOfFour(v0, v1, v2, v3, 6);
    LettersOfFour(vs);
  }

  lemma {:induction false} Sixes(w: int)
    requires 0 <= w < 0x100_0000
    ensures ((w / 0x4_0000 % 0x40 * 64 + w / 0x1000 % 0x40) * 64 + w / 0x40 % 0x40) * 64 + w % 0x40 == w
  {
    assert w / 0x40 / 0x40 == w / 0x1000 && w / 0x1000 / 0x40 == w / 0x4_0000;
    assert w / 0x4_0000 % 0x40 == w / 0x4_0000;
  }

  /** A short group: its letters' bits are its bytes' and zeros, and then padding. */
  lemma {:induction false} LastIsBits(s: Text) returns (vs: seq<Six>)
    requires 0 < |s| < 3
    ensures IsBase64By(s, Base64.LastGroup(s), vs)
  {
    hide AllBits, Alphabet, Base64.Group, Letters, Pads, Zeros, Base64.LastGroup;
    var four := GroupIsBits(s[0], if |s| == 2 then s[1] else 0, 0);
    vs := four[..|s| + 1];
    var cut := four[|s| + 1..];
    assert four == vs + cut;
    WithZeros(s);
    CutZeros(s, vs, cut);
    LastLetters(s, vs, cut);
  }

  lemma {:induction false} WithZeros(s: Text)
    requires 0 < |s| < 3
    ensures [s[0], if |s| == 2 then s[1] else 0, 0] == s + (if |s| == 1 then [0, 0] else [0])
  {
  }

  lemma {:induction false} LastLetters(s: Text, vs: seq<Six>, cut: seq<Six>)
    requires 0 < |s| < 3 && |vs| == |s| + 1
    requires Base64.Group(s[0], if |s| == 2 then s[1] else 0, 0) == Letters(vs + cut)
    ensures Base64.LastGroup(s) == Letters(vs) + Pads((4 - |vs| % 4) % 4)
  {
    hide Base64.Group, Letters, Pads;
    LettersOfBoth(vs, cut);
    LettersOfFour(vs);
    OneOrTwoPads();
    assert (Letters(vs) + Letters(cut))[..|vs|] == Letters(vs);
  }

  lemma {:induction false} OneOrTwoPads()
    ensures Pads(1) == [0x3D] && Pads(2) == [0x3D, 0x3D]
  {
    assert Pads(1) == [0x3D] + Pads(0) && Pads(2) == [0x3D] + Pads(1);
  }

  /** The letters a short group leaves out stand for zeros, and so do its missing bytes. */
  lemma {:induction false} CutZeros(s: Text, vs: seq<Six>, cut: seq<Six>)
    requires 0 < |s| < 3 && |vs| == |s| + 1 && |cut| == 3 - |s| && forall v :: v in cut ==> v == 0
    requires AllBits(vs + cut, 6) == AllBits(s + (if |s| == 1 then [0, 0] else [0]), 8)
    ensures AllBits(vs, 6) == AllBits(s, 8) + Zeros(6 * |vs| - 8 * |s|)
  {
    hide AllBits, Zeros;
    assert cut[0] in cut && cut[|cut| - 1] in cut;
    assert cut == if |s| == 1 then [0, 0] else [0];
    AllBitsOfBoth(vs, cut, 6);
    AllBitsOfBoth(s, if |s| == 1 then [0, 0] else [0], 8);
    BitsOfZeros(6);
    BitsOfZeros(8);
    var cuts := 6 * |cut|;
    ZerosSplit(6 * |vs| - 8 * |s|, cuts);
    var a, b, c := AllBits(vs, 6), AllBits(s, 8), Zeros(6 * |vs| - 8 * |s|);
    assert a + Zeros(cuts) == b + (c + Zeros(cuts)) == (b + c) + Zeros(cuts);
    SameFront(a, b + c, Zeros(cuts));
  }

  lemma {:induction false} BitsOfZeros(n: nat)
    ensures AllBits([0], n) == Zeros(n) && AllBits([0, 0], n) == Zeros(2 * n)
  {
    BitsOfZero(n);
    hide Bits, AllBits, Zeros;
    AllBitsOfOne(0, n);
    AllBitsOfBoth([0], [0], n);
    assert [0] + [0] == [0, 0];
    ZerosSplit(n, n);
  }

  lemma {:induction false} SameFront(a: seq<int>, b: seq<int>, c: seq<int>)
    requires a + c == b + c
    ensures a == b
  {
    assert |a| == |b|;
    assert a == (a + c)[..|a|] && b == (b + c)[..|b|];
  }

  lemma {:induction false} ZerosSplit(m: nat, n: nat)
    ensures Zeros(m + n) == Zeros(m) + Zeros(n)
  {
    if m > 0 {
      ZerosSplit(m - 1, n);
    }
  }

  // ------------------------------------------------------------- the whole

  /** What is encoded is the standard's base64 of the bytes. */
  lemma {:induction false} EncodedIsBase64(s: Text) returns (vs: seq<Six>)
    ensures IsBase64By(s, Base64.Encoded(s), vs)
  {
    if s == [] {
      vs := [];
    } else if |s| < 3 {
      vs := LastIsBits(s);
    } else {
      var four := GroupIsBits(s[0], s[1], s[2]);
      var more := EncodedIsBase64(s[3..]);
      vs := four + more;
      assert s == [s[0], s[1], s[2]] + s[3..];
      assert Base64.Encoded(s) == Base64.Group(s[0], s[1], s[2]) + Base64.Encoded(s[3..]);
      hide Base64.Encoded;
      GroupInFront([s[0], s[1], s[2]], s[3..], four, more, Base64.Encoded(s[3..]));
    }
  }

  lemma {:induction false} GroupInFront(g: Text, s: Text, four: seq<Six>, more: seq<Six>, t: Text)
    requires |g| == 3 && |four| == 4 && AllBits(four, 6) == AllBits(g, 8) && IsBase64By(s, t, more)
    ensures IsBase64By(g + s, Letters(four) + t, four + more)
  {
    hide AllBits, Letters, Pads, Zeros;
    AllBitsOfBoth(four, more, 6);
    AllBitsOfBoth(g, s, 8);
    LettersOfBoth(four, more);
    FourMoreLetters(|s|, |more|);
    Regrouped(AllBits(g, 8), AllBits(s, 8), Zeros(6 * |more| - 8 * |s|));
    Joined(Letters(four), Letters(more), Pads((4 - |more| % 4) % 4));
    assert |four + more| == |more| + 4 && |g + s| == |s| + 3;
  }

  lemma {:induction false} FourMoreLetters(bytes: nat, letters: nat)
    requires letters == (8 * bytes + 5) / 6
    ensures letters + 4 == (8 * (bytes + 3) + 5) / 6 && (letters + 4) % 4 == letters % 4
    ensures 6 * (letters + 4) - 8 * (bytes + 3) == 6 * letters - 8 * bytes
  {
  }

  lemma {:induction false} Regrouped(a: seq<int>, b: seq<int>, c: seq<int>)
    ensures a + (b + c) == a + b + c
  {
  }

  lemma {:induction false} Joined(a: Text, b: Text, c: Text)
    ensures a + (b + c) == a + b + c
  {
  }

  // ------------------------------------------------------------- and back

  lemma {:induction false} BytesOfWord(w: int)
    requires 0 <= w < 0x100_0000
    ensures var bs := Base64.Bytes(w); (bs[0] as int * 256 + bs[1] as int) * 256 + bs[2] as int == w
  {
    assert w / 0x100 / 0x100 == w / 0x1_0000 == w / 0x1_0000 % 0x100;
  }

  /** The values of a group of letters, and the bits of the bytes they make. */
  lemma {:induction false} GroupIsRead(t: Text) returns (vs: seq<Six>)
    requires |t| >= 4 && Base64.GroupValid(t)
    ensures |vs| == 4 && forall k :: 0 <= k < 4 ==> vs[k] == Base64.ValueIn(t, k)
    ensures AllBits(vs, 6) == AllBits(Base64.Bytes(Base64.GroupWord(t)), 8)
  {
    hide Bits, AllBits, Base64.Value;
    var v0: Six, v1: Six := Base64.ValueIn(t, 0), Base64.ValueIn(t, 1);
    var v2: Six, v3: Six := Base64.ValueIn(t, 2), Base64.ValueIn(t, 3);
    vs := [v0, v1, v2, v3];
    var w := Base64.GroupWord(t);
    var bs := Base64.Bytes(w);
    BytesOfWord(w);
    hide Base64.Bytes;
    BitsOfWord(bs[0], bs[1], bs[2], v0, v1, v2, v3);
    AllBitsOfThree(bs[0], bs[1], bs[2], 8);
    AllBitsOfFour(v0, v1, v2, v3, 6);
    assert bs == [bs[0], bs[1], bs[2]];
  }

  lemma {:induction false} AllBitsLength(vs: seq<int>, n: nat)
    ensures |AllBits(vs, n)| == |vs| * n
  {
    hide Bits;
    if vs != [] {
      AllBitsLength(vs[1..], n);
      assert |vs| * n == n + (|vs| - 1) * n;
    }
  }

  /** The first bytes' bits are the first bits. */
  lemma {:induction false} FrontBits(vs: seq<int>, k: nat, n: nat)
    requires k <= |vs|
    ensures k * n <= |AllBits(vs, n)| && AllBits(vs[..k], n) == AllBits(vs, n)[..k * n]
  {
    hide Bits, AllBits;
    assert vs == vs[..k] + vs[k..];
    AllBitsOfBoth(vs[..k], vs[k..], n);
    AllBitsLength(vs[..k], n);
  }

  lemma {:induction false} LettersRead(t: Text, vs: seq<Six>)
    requires |vs| == |t| && forall i :: 0 <= i < |t| ==> vs[i] == Base64.Value(t[i])
    ensures Letters(vs) == t
  {
    hide Alphabet, Base64.Letter, Base64.Value;
    if t != [] {
      LetterIsInAlphabet(vs[0]);
      Base64.LetterOfValue(t[0]);
      LettersRead(t[1..], vs[1..]);
      assert t == [t[0]] + t[1..];
    }
  }

  /** `s` are the bytes that the letters of `t` make, `vs` what those stand for: the bits of
      the letters in order, as far as they make whole bytes. */
  predicate IsReadBy(t: Text, s: Text, vs: seq<Six>) {
    && |vs| <= |t| <= |vs| + 2 && t == Letters(vs) + Pads(|t| - |vs|) && |s| == 6 * |vs| / 8
    && 8 * |s| <= |AllBits(vs, 6)| && AllBits(s, 8) == AllBits(vs, 6)[..8 * |s|]
  }

  lemma {:induction false} LastIsRead(t: Text) returns (vs: seq<Six>)
    requires |t| == 4 && Base64.GroupValid(t)
    ensures IsReadBy(t, Base64.GroupBytes(t), vs)
  {
    hide AllBits, Letters, Base64.Value, Base64.Bytes, Base64.GroupWord;
    var four := GroupIsRead(t);
    var p := Base64.Padding(t);
    vs := four[..4 - p];
    var bs := Base64.Bytes(Base64.GroupWord(t));
    LastPadded(t, vs);
    FrontBits(bs, 3 - p, 8);
    FrontBits(four, 4 - p, 6);
    hide Base64.GroupValid, Pads;
    CutTwice(AllBits(four, 6), 6 * (4 - p), 8 * (3 - p));
  }

  lemma {:induction false} LastPadded(t: Text, vs: seq<Six>)
    requires |t| == 4 && Base64.GroupValid(t)
    requires |vs| == 4 - Base64.Padding(t) && forall k :: 0 <= k < |vs| ==> vs[k] == Base64.ValueIn(t, k)
    ensures t == Letters(vs) + Pads(4 - |vs|)
  {
    var n := |vs|;
    hide Letters;
    assert forall k :: 0 <= k < n ==> Base64.ValueIn(t, k) == Base64.Value(t[k]) == Base64.Value(t[..n][k]);
    hide Base64.Value, Base64.ValueIn;
    LettersRead(t[..n], vs);
    OneOrTwoPads();
    assert t == t[..n] + Pads(4 - n);
  }

  lemma {:induction false} CutTwice(a: seq<int>, m: nat, n: nat)
    requires n <= m <= |a|
    ensures a[..m][..n] == a[..n]
  {
  }

  /** What is decoded is what the letters say: whatever bits are left over are ignored. */
  lemma {:induction false} DecodedIsBits(t: Text) returns (vs: seq<Six>)
    requires Base64.Decoded(t).Some?
    ensures IsReadBy(t, Base64.Decoded(t).value, vs)
  {
    hide AllBits, Letters, Pads, Base64.Value, Base64.GroupValid, Base64.GroupBytes, IsReadBy;
    if t == [] {
      vs := [];
      EmptyIsRead();
    } else if |t| == 4 {
      assert t[4..] == [];
      vs := LastIsRead(t);
      assert Base64.GroupBytes(t) + [] == Base64.GroupBytes(t);
    } else {
      assert |t[4..]| > 0;
      var more := DecodedIsBits(t[4..]);
      vs := GroupReadInFront(t, Base64.Decoded(t[4..]).value, more);
    }
  }

  lemma {:induction false} EmptyIsRead()
    ensures IsReadBy([], [], [])
  {
  }

  /** A full group more in front. */
  lemma {:induction false} GroupReadInFront(t: Text, s: Text, more: seq<Six>) returns (vs: seq<Six>)
    requires |t| > 4 && Base64.GroupValid(t) && IsReadBy(t[4..], s, more)
    ensures IsReadBy(t, Base64.GroupBytes(t) + s, vs)
  {
    hide AllBits, Letters, Pads, Base64.Value, Base64.Bytes, Base64.GroupWord;
    var four := GroupIsRead(t);
    vs := four + more;
    GroupIsFull(t);
    LettersRead(t[..4], four);
    hide Base64.GroupValid, Base64.ValueIn, Base64.GroupBytes;
    LettersOfBoth(four, more);
    FullBits(Base64.GroupBytes(t), s, four, more);
    assert t == t[..4] + t[4..];
    Joined(Letters(four), Letters(more), Pads(|t| - |vs|));
  }

  lemma {:induction false} GroupIsFull(t: Text)
    requires |t| > 4 && Base64.GroupValid(t)
    ensures Base64.GroupBytes(t) == Base64.Bytes(Base64.GroupWord(t)) && |Base64.GroupBytes(t)| == 3
    ensures forall k :: 0 <= k < 4 ==> Base64.ValueIn(t, k) == Base64.Value(t[k])
  {
    hide Base64.Value;
  }

  lemma {:induction false} FullBits(g: Text, s: Text, four: seq<Six>, more: seq<Six>)
    requires |g| == 3 && |four| == 4 && AllBits(four, 6) == AllBits(g, 8)
    requires 8 * |s| <= |AllBits(more, 6)| && AllBits(s, 8) == AllBits(more, 6)[..8 * |s|]
    ensures 8 * |g + s| <= |AllBits(four + more, 6)| && AllBits(g + s, 8) == AllBits(four + more, 6)[..8 * |g + s|]
  {
    hide AllBits;
    AllBitsOfBoth(four, more, 6);
    AllBitsOfBoth(g, s, 8);
    AllBitsLength(g, 8);
    Front(AllBits(g, 8), AllBits(more, 6), 8 * |s|);
  }

  lemma {:induction false} Front(a: seq<int>, b: seq<int>, n: nat)
    requires n <= |b|
    ensures (a + b)[..|a| + n] == a + b[..n]
  {
  }
}
