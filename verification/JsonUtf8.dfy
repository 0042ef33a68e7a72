/** The bytes the reader writes for a code point, against RFC 3629 section 3: they are the
    well-formed sequence for it, except for the surrogates, which that section has no
    sequences for and the reader lets through. */
module JsonUtf8 {
  import opened Json

  // ------------------------------------------------------------ the standard

  /** The low bits of a byte: what it carries of a code point. */
  function Payload(c: Byte, bits: nat): int
    requires bits > 0
  {
    c as int % bits
  }

  /** How many bytes the first one announces, by the table of that section; 0 if it is
      none to start with. */
  function Announced(c: Byte): nat {
    if c < 0x80 then 1 else if c < 0xC0 then 0 else if c < 0xE0 then 2 else if c < 0xF0 then 3
    else if c < 0xF8 then 4 else 0
  }

  predicate Continues(c: Byte) { 0x80 <= c < 0xC0 }

  /** The code point a sequence carries. */
  function FromUtf8(bs: Text): int
    requires 0 < |bs| <= 4
  {
    if |bs| == 1 then bs[0]
    else if |bs| == 2 then Payload(bs[0], 0x20) * 0x40 + Payload(bs[1], 0x40)
    else if |bs| == 3 then Payload(bs[0], 0x10) * 0x1000 + Payload(bs[1], 0x40) * 0x40 + Payload(bs[2], 0x40)
    else Payload(bs[0], 8) * 0x4_0000 + Payload(bs[1], 0x40) * 0x1000 + Payload(bs[2], 0x40) * 0x40
         + Payload(bs[3], 0x40)
  }

  /** How many bytes a code point takes at least. */
  function Shortest(cp: int): nat {
    if cp < 0x80 then 1 else if cp < 0x800 then 2 else if cp < 0x1_0000 then 3 else 4
  }

  predicate Surrogate(cp: int) { 0xD800 <= cp <= 0xDFFF }

  /** A first byte, and as many that continue it as it announces. */
  predicate Shaped(bs: Text) {
    0 < |bs| <= 4 && |bs| == Announced(bs[0]) && forall k :: 0 < k < |bs| ==> Continues(bs[k])
  }

  /** A well-formed sequence: of that shape, for a code point there is, that is no
      surrogate, in no more bytes than it needs. */
  predicate Rfc3629(bs: Text) {
    && Shaped(bs)
    && FromUtf8(bs) < 0x11_0000 && !Surrogate(FromUtf8(bs)) && |bs| == Shortest(FromUtf8(bs))
  }

  // ---------------------------------------------------------- bits and bytes

  lemma {:induction false} PayloadOf(bits: nat, x: nat)
    requires bits in {8, 0x10, 0x20, 0x40} && x < bits
    ensures Payload(0x100 - 2 * bits + x, bits) == x
  {
    assert bits == 8 ==> (0xF0 + x) % 8 == x;
    assert bits == 0x10 ==> (0xE0 + x) % 0x10 == x;
    assert bits == 0x20 ==> (0xC0 + x) % 0x20 == x;
    assert bits == 0x40 ==> (0x80 + x) % 0x40 == x;
  }

  /** Six bits off the end, and put back. */
  lemma {:induction false} SixBits(high: nat, low: nat)
    requires low < 0x40
    ensures (high * 0x40 + low) / 0x40 == high && (high * 0x40 + low) % 0x40 == low
  {
  }

  lemma {:induction false} HighBits(cp: nat)
    ensures cp / 0x40 / 0x40 == cp / 0x1000 && cp / 0x1000 / 0x40 == cp / 0x4_0000
    ensures cp == cp / 0x40 * 0x40 + cp % 0x40
  {
  }

  /** Two bytes with these bits. */
  lemma {:induction false} Two(c: int, d: int)
    requires 0 <= c < 0x20 && 0 <= d < 0x40
    ensures var bs: Text := [0xC0 + c, 0x80 + d];
            var cp := c * 0x40 + d;
            Shaped(bs) && FromUtf8(bs) == cp && (0x80 <= cp < 0x800 ==> Utf8(cp) == bs)
  {
    PayloadOf(0x40, d);
    PayloadOf(0x20, c);
    SixBits(c, d);
    hide Payload;
  }

  lemma {:induction false} Three(b: int, c: int, d: int)
    requires 0 <= b < 0x10 && 0 <= c < 0x40 && 0 <= d < 0x40
    ensures var bs: Text := [0xE0 + b, 0x80 + c, 0x80 + d];
            var cp := b * 0x1000 + c * 0x40 + d;
            Shaped(bs) && FromUtf8(bs) == cp && (0x800 <= cp < 0x1_0000 ==> Utf8(cp) == bs)
  {
    var cp: nat := b * 0x1000 + c * 0x40 + d;
    PayloadOf(0x40, d);
    PayloadOf(0x40, c);
    PayloadOf(0x10, b);
    SixBits(b, c);
    SixBits(b * 0x40 + c, d);
    HighBits(cp);
    assert cp == (b * 0x40 + c) * 0x40 + d;
    assert cp / 0x40 == b * 0x40 + c && cp / 0x1000 == b;
    hide Payload;
  }

  lemma {:induction false} Four(a: int, b: int, c: int, d: int)
    requires 0 <= a < 8 && 0 <= b < 0x40 && 0 <= c < 0x40 && 0 <= d < 0x40
    ensures var bs: Text := [0xF0 + a, 0x80 + b, 0x80 + c, 0x80 + d];
            var cp := a * 0x4_0000 + b * 0x1000 + c * 0x40 + d;
            Shaped(bs) && FromUtf8(bs) == cp && (0x1_0000 <= cp < 0x11_0000 ==> Utf8(cp) == bs)
  {
    var cp: nat := a * 0x4_0000 + b * 0x1000 + c * 0x40 + d;
    PayloadOf(0x40, d);
    PayloadOf(0x40, c);
    PayloadOf(0x40, b);
    PayloadOf(8, a);
    FourParts(a, b, c, d);
    hide Payload;
  }

  lemma {:induction false} FourParts(a: int, b: int, c: int, d: int)
    requires 0 <= a < 8 && 0 <= b < 0x40 && 0 <= c < 0x40 && 0 <= d < 0x40
    ensures var cp := a * 0x4_0000 + b * 0x1000 + c * 0x40 + d;
            cp / 0x4_0000 == a && cp / 0x1000 % 0x40 == b && cp / 0x40 % 0x40 == c && cp % 0x40 == d
  {
    var high: nat := a * 0x40 + b;
    var cp: nat := (high * 0x40 + c) * 0x40 + d;
    SixBits(a, b);
    SixBits(high, c);
    SixBits(high * 0x40 + c, d);
    HighBits(cp);
    assert cp / 0x40 == high * 0x40 + c && cp / 0x1000 == high && cp / 0x4_0000 == a;
  }

  /** A code point's bits, by sixes. */
  lemma {:induction false} Parts(cp: nat)
    ensures cp == cp / 0x40 * 0x40 + cp % 0x40
    ensures cp == cp / 0x1000 * 0x1000 + cp / 0x40 % 0x40 * 0x40 + cp % 0x40
    ensures cp == cp / 0x4_0000 * 0x4_0000 + cp / 0x1000 % 0x40 * 0x1000 + cp / 0x40 % 0x40 * 0x40 + cp % 0x40
  {
    HighBits(cp);
    HighBits(cp / 0x40);
    HighBits(cp / 0x1000);
  }

  // -------------------------------------------------------- what is written

  /** The bytes for a code point have its shape, its bits, and no more length than needed. */
  lemma {:induction false} Utf8IsReadBack(cp: int)
    requires 0 <= cp < 0x11_0000
    ensures Shaped(Utf8(cp)) && FromUtf8(Utf8(cp)) == cp && |Utf8(cp)| == Shortest(cp)
  {
    Parts(cp);
    hide FromUtf8, Announced, Continues;
    if cp < 0x80 {
      OneByte(cp);
    } else if cp < 0x800 {
      Two(cp / 0x40, cp % 0x40);
    } else if cp < 0x1_0000 {
      Three(cp / 0x1000, cp / 0x40 % 0x40, cp % 0x40);
    } else {
      Four(cp / 0x4_0000, cp / 0x1000 % 0x40, cp / 0x40 % 0x40, cp % 0x40);
    }
  }

  lemma {:induction false} OneByte(cp: int)
    requires 0 <= cp < 0x80
    ensures Shaped([cp]) && FromUtf8([cp]) == cp
  {
  }

  /** They are what the standard prescribes exactly when the code point is no surrogate. */
  lemma {:induction false} WellFormedUnlessSurrogate(cp: int)
    requires 0 <= cp < 0x11_0000
    ensures Rfc3629(Utf8(cp)) <==> !Surrogate(cp)
  {
    Utf8IsReadBack(cp);
    hide Utf8, Shaped, FromUtf8;
  }

  /** And the standard prescribes no others. */
  lemma {:induction false} NoOtherBytes(bs: Text)
    requires Rfc3629(bs)
    ensures bs == Utf8(FromUtf8(bs))
  {
    OnlyUtf8(bs);
  }

  /** Nor are there others of that shape and length for a surrogate. */
  lemma {:induction false} OnlyUtf8(bs: Text)
    requires Shaped(bs) && FromUtf8(bs) < 0x11_0000 && |bs| == Shortest(FromUtf8(bs))
    ensures bs == Utf8(FromUtf8(bs))
  {
    if |bs| == 1 {
      assert bs == [bs[0]];
    } else if |bs| == 2 {
      assert bs == [bs[0], bs[1]];
      Two(bs[0] as int - 0xC0, bs[1] as int - 0x80);
    } else if |bs| == 3 {
      assert bs == [bs[0], bs[1], bs[2]];
      Three(bs[0] as int - 0xE0, bs[1] as int - 0x80, bs[2] as int - 0x80);
    } else {
      assert bs == [bs[0], bs[1], bs[2], bs[3]];
      Four(bs[0] as int - 0xF0, bs[1] as int - 0x80, bs[2] as int - 0x80, bs[3] as int - 0x80);
    }
  }

  /** The escape of a lone surrogate comes through, as three bytes the standard forbids. */
  lemma {:induction false} LoneSurrogateComesThrough(rest: Text)
    requires !(rest != [] && rest[0] == BACKSLASH)
    ensures ReadChar([BACKSLASH, 0x75, 0x64, 0x38, 0x30, 0x30] + rest) == Got([0xED, 0xA0, 0x80], rest)
    ensures !Rfc3629([0xED, 0xA0, 0x80])
  {
    var s: Text := [BACKSLASH, 0x75, 0x64, 0x38, 0x30, 0x30] + rest;
    var digits: Text := [0x64, 0x38, 0x30, 0x30];
    assert s[2..][..4] == digits && s[2..][4..] == rest;
    assert digits[..3] == [0x64, 0x38, 0x30] && digits[..3][..2] == [0x64, 0x38] && digits[..3][..2][..1] == [0x64];
    assert HexRun([0x64]) == 0xD by {
      assert [0x64 as Byte][..0] == [];
    }
    assert HexRun([0x64, 0x38]) == 0xD8;
    assert HexRun([0x64, 0x38, 0x30]) == 0xD80;
    assert HexRun(digits) == 0xD800;
    WellFormedUnlessSurrogate(0xD800);
    assert Utf8(0xD800) == [0xED, 0xA0, 0x80];
  }
}
