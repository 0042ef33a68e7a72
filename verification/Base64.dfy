/** Bytes as text: base64 as in RFC 4648 section 4. */
module Base64 {
  import opened Json
  import opened Wrappers

  const PAD: Byte := 0x3D

  /** The alphabet of that section. */
  function Letter(v: int): (c: Byte)
    requires 0 <= v < 64
    ensures Value(c) == v && c != PAD
  {
    if v < 26 then 65 + v
    else if v < 52 then 71 + v
    else if v < 62 then v - 4
    else if v == 62 then 43
    else 47
  }

  /** A letter's place in the alphabet; -1 for anything else, `=` included. */
  function Value(c: Byte): (v: int)
    ensures -1 <= v < 64
    ensures c == PAD ==> v == -1
  {
    var x := c as int;
    if 65 <= x <= 90 then x - 65
    else if 97 <= x <= 122 then x - 71
    else if 48 <= x <= 57 then x + 4
    else if x == 43 then 62
    else if x == 47 then 63
    else -1
  }

  lemma {:induction false} LetterOfValue(c: Byte)
    requires Value(c) >= 0
    ensures Letter(Value(c)) == c
  {
  }

  // ------------------------------------------------------------- the meaning

  function Word(a: Byte, b: Byte, c: Byte): (w: int)
    ensures 0 <= w < 0x100_0000
  {
    a as int * 0x1_0000 + b as int * 0x100 + c as int
  }

  /** The k-th of the four letters of a 24-bit group. */
  function LetterAt(w: int, k: nat): Byte
    requires 0 <= w < 0x100_0000 && k < 4
  {
    Letter((if k == 0 then w / 0x4_0000 else if k == 1 then w / 0x1000 else if k == 2 then w / 0x40 else w) % 0x40)
  }

  /** Three bytes as four letters. */
  function Group(a: Byte, b: Byte, c: Byte): (t: Text)
    ensures |t| == 4
  {
    var w := Word(a, b, c);
    [LetterAt(w, 0), LetterAt(w, 1), LetterAt(w, 2), LetterAt(w, 3)]
  }

  /** Fewer bytes, padded. */
  function LastGroup(s: Text): (t: Text)
    requires |s| < 3
    ensures |t| == if s == [] then 0 else 4
  {
    if s == [] then [] else if |s| == 1 then Group(s[0], 0, 0)[..2] + [PAD, PAD] else Group(s[0], s[1], 0)[..3] + [PAD]
  }

  function Encoded(s: Text): Text {
    if |s| < 3 then LastGroup(s) else Group(s[0], s[1], s[2]) + Encoded(s[3..])
  }

  lemma {:induction false} EncodedLength(s: Text)
    ensures |Encoded(s)| == (|s| + 2) / 3 * 4
  {
    hide Group, LastGroup;
    if |s| >= 3 {
      EncodedLength(s[3..]);
    }
  }

  /** The 24 bits of four values. */
  function Joined(v0: int, v1: int, v2: int, v3: int): int { v0 * 0x4_0000 + v1 * 0x1000 + v2 * 0x40 + v3 }

  function Bytes(w: int): (bs: Text)
    requires 0 <= w
    ensures |bs| == 3
  {
    [w / 0x1_0000 % 0x100, w / 0x100 % 0x100, w % 0x100]
  }

  /** A group's value at `k`; in the last group the last two letters may be padding. */
  function ValueIn(t: Text, k: nat): int
    requires k < 4 <= |t|
  {
    if |t| == 4 && k >= 2 && t[k] == PAD then 0 else Value(t[k])
  }

  function Padding(t: Text): nat {
    if |t| < 4 || t[|t| - 1] != PAD then 0 else if t[|t| - 2] == PAD then 2 else 1
  }

  function GroupValid(t: Text): bool
    requires |t| >= 4
  {
    && ValueIn(t, 0) >= 0 && ValueIn(t, 1) >= 0 && ValueIn(t, 2) >= 0 && ValueIn(t, 3) >= 0
    && (|t| == 4 && t[2] == PAD ==> t[3] == PAD)
  }

  function GroupWord(t: Text): (w: int)
    requires |t| >= 4 && GroupValid(t)
    ensures 0 <= w < 0x100_0000
  {
    Joined(ValueIn(t, 0), ValueIn(t, 1), ValueIn(t, 2), ValueIn(t, 3))
  }

  /** A group's bytes, as many as its padding leaves. */
  function GroupBytes(t: Text): (bs: Text)
    requires |t| >= 4 && GroupValid(t)
  {
    Bytes(GroupWord(t))[..if |t| == 4 then 3 - Padding(t) else 3]
  }

  function Before(done: Text, rest: Option<Text>): Option<Text> {
    if rest.None? then None else Some(done + rest.value)
  }

  lemma {:induction false} NothingBefore(a: Text)
    ensures Before(a, None) == None
  {
  }

  lemma {:induction false} BeforeAgain(a: Text, b: Text, rest: Option<Text>)
    ensures Before(a, Before(b, rest)) == Before(a + b, rest)
    ensures Before([], rest) == rest && Before(a, Some([])) == Some(a)
  {
    if rest.Some? {
      assert a + (b + rest.value) == a + b + rest.value;
      assert [] + rest.value == rest.value;
    }
    assert a + [] == a;
  }

  function Decoded(t: Text): Option<Text> {
    if t == [] then Some([])
    else if |t| < 4 || !GroupValid(t) then None
    else Before(GroupBytes(t), Decoded(t[4..]))
  }

  // ---------------------------------------------------------- the round trip

  lemma {:induction false} WordOfLetters(w: int)
    requires 0 <= w < 0x100_0000
    ensures Joined(Value(LetterAt(w, 0)), Value(LetterAt(w, 1)), Value(LetterAt(w, 2)), Value(LetterAt(w, 3))) == w
  {
    assert w / 0x40 / 0x40 == w / 0x1000 && w / 0x1000 / 0x40 == w / 0x4_0000;
    assert w / 0x4_0000 % 0x40 == w / 0x4_0000;
  }

  lemma {:induction false} BytesOfWord(a: Byte, b: Byte, c: Byte)
    ensures Bytes(Word(a, b, c)) == [a, b, c]
  {
    var w := Word(a, b, c);
    assert w / 0x1_0000 == a as int;
    assert w / 0x100 == a as int * 0x100 + b as int;
    assert w % 0x100 == c as int;
  }

  /** Letters that a short group's zero bits leave out would have been A's. */
  lemma {:induction false} ShortWord(a: Byte, b: Byte)
    ensures Word(a, 0, 0) % 0x40 == 0 && Word(a, 0, 0) / 0x40 % 0x40 == 0 && Word(a, b, 0) % 0x40 == 0
  {
    assert Word(a, 0, 0) == a as int * 0x10 * 0x40 * 0x40 && Word(a, b, 0) == (a as int * 0x400 + b as int * 4) * 0x40;
    hide Word;
    ZeroBits(a as int * 0x400 + b as int * 4);
    ZeroBits(a as int * 0x10 * 0x40);
    ZeroBits(a as int * 0x10);
  }

  lemma {:induction false} ZeroBits(k: int)
    ensures k * 0x40 % 0x40 == 0 && k * 0x40 / 0x40 == k
  {
  }

  /** A full group in front is read back as its bytes. */
  lemma {:induction false} GroupIsReadBack(a: Byte, b: Byte, c: Byte, t: Text)
    ensures var u := Group(a, b, c) + t; GroupValid(u) && GroupBytes(u) == [a, b, c]
  {
    var w, u := Word(a, b, c), Group(a, b, c) + t;
    WordOfLetters(w);
    BytesOfWord(a, b, c);
    assert forall k :: 0 <= k < 4 ==> u[k] == LetterAt(w, k) != PAD;
    hide LetterAt, Joined, Value, Bytes, Word, Group;
  }

  lemma {:induction false} LastIsReadBack(s: Text)
    requires 0 < |s| < 3
    ensures GroupValid(LastGroup(s)) && GroupBytes(LastGroup(s)) == s
  {
    var a, b := s[0], if |s| == 2 then s[1] else 0;
    var w := Word(a, b, 0);
    ShortWord(a, b);
    ShortWord(a, 0);
    WordOfLetters(w);
    BytesOfWord(a, b, 0);
    hide Word, Bytes, Joined;
    assert [a, b, 0][..|s|] == s;
  }

  /** Decoding undoes encoding, for every byte string. */
  lemma {:induction false} RoundTrip(s: Text)
    ensures Decoded(Encoded(s)) == Some(s)
  {
    if |s| >= 3 {
      RoundTrip(s[3..]);
      var t := Encoded(s[3..]);
      GroupIsReadBack(s[0], s[1], s[2], t);
      hide Group, GroupValid, GroupBytes;
      assert (Group(s[0], s[1], s[2]) + t)[4..] == t;
      assert [s[0], s[1], s[2]] + s[3..] == s;
    } else if |s| > 0 {
      LastIsReadBack(s);
      hide LastGroup, GroupValid, GroupBytes;
      assert LastGroup(s)[4..] == [];
      assert s + [] == s;
    }
  }

  // ------------------------------------------------------------ well-formed

  /** Alphabet letters, and padding only as the last character or the last two. */
  predicate PlacedAt(t: Text, k: nat)
    requires k < |t|
  {
    Value(t[k]) >= 0 || (t[k] == PAD && (k == |t| - 1 || (k == |t| - 2 && t[|t| - 1] == PAD)))
  }

  predicate AllPlaced(t: Text) { forall k :: 0 <= k < |t| ==> PlacedAt(t, k) }

  predicate WellFormed(t: Text) { |t| % 4 == 0 && AllPlaced(t) }

  lemma {:induction false} GroupPlaced(t: Text)
    requires |t| >= 4 && |t| % 4 == 0
    ensures GroupValid(t) <==> PlacedAt(t, 0) && PlacedAt(t, 1) && PlacedAt(t, 2) && PlacedAt(t, 3)
  {
    hide Value;
  }

  /** What decodes is exactly the well-formed texts. */
  lemma {:induction false} DecodesExactlyWellFormed(t: Text)
    ensures Decoded(t).Some? <==> WellFormed(t)
  {
    hide PlacedAt, GroupBytes, GroupValid;
    if |t| >= 4 {
      DecodesExactlyWellFormed(t[4..]);
      assert |t[4..]| == |t| - 4;
      if |t| % 4 == 0 {
        GroupPlaced(t);
        TailPlaced(t);
        hide AllPlaced;
      }
    }
  }

  lemma {:induction false} TailPlaced(t: Text)
    requires |t| >= 4 && |t| % 4 == 0
    ensures AllPlaced(t) <==> PlacedAt(t, 0) && PlacedAt(t, 1) && PlacedAt(t, 2) && PlacedAt(t, 3) && AllPlaced(t[4..])
  {
    var u := t[4..];
    forall k | 0 <= k < |u| ensures PlacedAt(u, k) == PlacedAt(t, k + 4) {
      assert u[k] == t[k + 4];
    }
    hide PlacedAt;
    assert forall k :: 4 <= k < |t| ==> PlacedAt(t, k) == PlacedAt(u, k - 4);
  }

  // --------------------------------------------------------------- the loops

  method Encode(src: Text) returns (text: Text)
    ensures text == Encoded(src)
  {
    hide Group, LastGroup;
    EncodedLength(src);
    var n := |src|;
    var out := new Byte[(n + 2) / 3 * 4 + 1];
    var i, o := 0, 0;
    while i + 3 <= n
      invariant 0 <= i <= n && 0 <= o && o + |Encoded(src[i..])| == |Encoded(src)| == out.Length - 1
      invariant Encoded(src) == out[..o] + Encoded(src[i..])
      decreases n - i
    {
      ghost var done, left := out[..o], src[i..];
      assert left[3..] == src[i + 3..];
      PutGroup(out, o, src[i], src[i + 1], src[i + 2]);
      i, o := i + 3, o + 4;
    }
    if i < n {
      ghost var done := out[..o];
      PutLast(out, o, src[i..]);
      o := o + 4;
      assert out[..o] == done + Encoded(src[i..]);
    }
    out[o] := 0;
    text := out[..o];
  }

  method PutGroup(out: array<Byte>, o: nat, a: Byte, b: Byte, c: Byte)
    requires o + 4 <= out.Length
    modifies out
    ensures out[..o + 4] == old(out[..o]) + Group(a, b, c)
  {
    hide Word, LetterAt;
    var w := Word(a, b, c);
    out[o], out[o + 1], out[o + 2], out[o + 3] := LetterAt(w, 0), LetterAt(w, 1), LetterAt(w, 2), LetterAt(w, 3);
  }

  /** The last one or two bytes. */
  method PutLast(out: array<Byte>, o: nat, s: Text)
    requires 0 < |s| < 3 && o + 4 <= out.Length
    modifies out
    ensures out[..o + 4] == old(out[..o]) + LastGroup(s)
  {
    hide Word, LetterAt;
    var rem := |s|;
    var w := Word(s[0], if rem == 2 then s[1] else 0, 0);
    out[o] := LetterAt(w, 0);
    out[o + 1] := LetterAt(w, 1);
    out[o + 2] := if rem == 2 then LetterAt(w, 2) else PAD;
    out[o + 3] := PAD;
    assert out[..o + 4] == old(out[..o]) + [out[o], out[o + 1], out[o + 2], out[o + 3]];
  }

  /** The four values at `i` as one word; nothing if one is no letter. */
  method GroupAt(src: Text, i: nat) returns (ok: bool, w: int)
    requires i + 4 <= |src|
    ensures ok ==> (forall k :: 0 <= k < 4 ==> ValueIn(src[i..], k) >= 0)
    ensures ok ==> w == Joined(ValueIn(src[i..], 0), ValueIn(src[i..], 1), ValueIn(src[i..], 2), ValueIn(src[i..], 3))
    ensures !ok ==> !GroupValid(src[i..])
  {
    ghost var t := src[i..];
    var last := i + 4 == |src|;
    var v := new int[4](_ => 0);
    var k := 0;
    while k < 4
      invariant 0 <= k <= 4 && forall j :: 0 <= j < k ==> v[j] == ValueIn(t, j) >= 0
    {
      v[k] := if last && k >= 2 && src[i + k] == PAD then 0 else Value(src[i + k]);
      assert v[k] == ValueIn(t, k);
      if v[k] < 0 {
        return false, 0;
      }
      k := k + 1;
    }
    return true, Joined(v[0], v[1], v[2], v[3]);
  }

  /** Whole groups, and padding that runs to the very end. */
  method CheckPadding(src: Text) returns (ok: bool, pad: nat)
    ensures !ok ==> Decoded(src).None?
    ensures pad <= 2 && (src == [] ==> pad == 0)
    ensures ok ==>
            |src| % 4 == 0 && pad == Padding(src) && (src != [] ==> !(src[|src| - 2] == PAD && src[|src| - 1] != PAD))
  {
    hide Value;
    DecodesExactlyWellFormed(src);
    var len := |src|;
    if len % 4 != 0 {
      return false, 0;
    }
    if len > 0 {
      if src[len - 1] == PAD {
        return true, if src[len - 2] == PAD then 2 else 1;
      } else if src[len - 2] == PAD {
        assert Value(PAD) == -1;
        assert !PlacedAt(src, len - 2);
        return false, 0;
      }
    }
    return true, 0;
  }

  method Decode(src: Text) returns (r: Option<Text>)
    requires NulFree(src)
    ensures r == Decoded(src)
  {
    hide Value, Bytes, GroupBytes, GroupValid, GroupWord, Padding, Decoded, Before;
    var len := |src|;
    var ok, pad := CheckPadding(src);
    if !ok {
      return None;
    }
    var outLen := len / 4 * 3 - pad;
    var out := new Byte[if outLen > 0 then outLen else 1];
    var o, i := 0, 0;
    assert src[0..] == src && out[..0] == [];
    BeforeAgain([], [], Decoded(src));
    while i < len
      invariant 0 <= i <= len && i % 4 == 0 && o == (if i < len || len == 0 then i / 4 * 3 else outLen)
      invariant o <= outLen && Decoded(src) == Before(out[..o], Decoded(src[i..]))
    {
      ghost var done := out[..o];
      EndsOfDecoding(src, i);
      NothingBefore(done);
      ok, o := DecodeGroup(src, i, pad, out, o, outLen);
      if !ok {
        return None;
      }
      GroupInFront(src, i);
      BeforeAgain(done, GroupBytes(src[i..]), Decoded(src[i + 4..]));
      i := i + 4;
    }
    EndsOfDecoding(src, len);
    BeforeAgain(out[..o], [], Some([]));
    r := Some(out[..outLen]);
  }

  lemma {:induction false} GroupInFront(src: Text, i: nat)
    requires i + 4 <= |src| && GroupValid(src[i..])
    ensures Decoded(src[i..]) == Before(GroupBytes(src[i..]), Decoded(src[i + 4..]))
  {
    assert src[i..][4..] == src[i + 4..];
  }

  lemma {:induction false} EndsOfDecoding(src: Text, i: nat)
    requires i <= |src|
    ensures i + 4 <= |src| && !GroupValid(src[i..]) ==> Decoded(src[i..]).None?
    ensures i == |src| ==> Decoded(src[i..]) == Some([])
  {
  }

  /** One group: its bytes at `o`, if its letters are letters. */
  method DecodeGroup(src: Text, i: nat, pad: nat, out: array<Byte>, o: nat, outLen: nat) returns (ok: bool, o': nat)
    requires i + 4 <= |src| && i % 4 == 0 && |src| % 4 == 0 && pad == Padding(src) <= 2
    requires !(src[|src| - 2] == PAD && src[|src| - 1] != PAD)
    requires o == i / 4 * 3 && outLen == |src| / 4 * 3 - pad <= out.Length
    modifies out
    ensures ok == GroupValid(src[i..]) && o' <= outLen
    ensures ok ==> out[..o'] == old(out[..o]) + GroupBytes(src[i..]) && o' == (if i + 4 < |src| then o + 3 else outLen)
  {
    hide Value, Bytes, GroupBytes, GroupValid, GroupWord, Padding;
    assert i + 4 < |src| ==> i + 8 <= |src|;
    var w;
    ok, w := GroupAt(src, i);
    if !ok {
      return false, o;
    }
    GroupDecodes(src, i, pad, w);
    o' := PutBytes(out, o, outLen, w);
  }

  /** A group's bytes, as far as there is room. */
  method PutBytes(out: array<Byte>, o: nat, outLen: nat, w: int) returns (o': nat)
    requires 0 <= w && o <= outLen <= out.Length
    modifies out
    ensures var n := if outLen - o < 3 then outLen - o else 3;
            o' == o + n && out[..o'] == old(out[..o]) + Bytes(w)[..n]
  {
    o' := o;
    if o' < outLen {
      out[o'] := w / 0x1_0000 % 0x100;
      o' := o' + 1;
    }
    if o' < outLen {
      out[o'] := w / 0x100 % 0x100;
      o' := o' + 1;
    }
    if o' < outLen {
      out[o'] := w % 0x100;
      o' := o' + 1;
    }
  }

  lemma {:induction false} GroupDecodes(src: Text, i: nat, pad: nat, w: int)
    requires i + 4 <= |src| && (|src| - i) % 4 == 0 && pad == Padding(src) &&
             !(src[|src| - 2] == PAD && src[|src| - 1] != PAD)
    requires forall k :: 0 <= k < 4 ==> ValueIn(src[i..], k) >= 0
    requires w == Joined(ValueIn(src[i..], 0), ValueIn(src[i..], 1), ValueIn(src[i..], 2), ValueIn(src[i..], 3))
    ensures 0 <= w && GroupValid(src[i..])
    ensures GroupBytes(src[i..]) == Bytes(w)[..if i + 4 == |src| then 3 - pad else 3]
  {
    var t := src[i..];
    assert ValueIn(t, 0) >= 0 && ValueIn(t, 1) >= 0 && ValueIn(t, 2) >= 0 && ValueIn(t, 3) >= 0;
  }
}
