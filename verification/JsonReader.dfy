/** The reader: a cursor over the text, a growing array of nodes and a growing buffer of
    decoded strings.  A parse is proved to accept what `Json.Parse` accepts and to lay out
    the value it gives; the walks over the nodes give that value's parts. */
module JsonReader {
  import opened Json
  import opened JsonLayout

  // --------------------------------------------------------- digits, one by one

  lemma {:induction false} HexBadPrefix(ds: Text, i: nat)
    requires i <= |ds| && HexRun(ds[..i]) < 0
    ensures HexRun(ds) == -1
  {
    if i < |ds| {
      assert ds[..|ds| - 1][..i] == ds[..i];
      HexBadPrefix(ds[..|ds| - 1], i);
    } else {
      assert ds[..i] == ds;
    }
  }

  lemma {:induction false} HexOneMore(ds: Text, i: nat)
    requires i < |ds|
    ensures var v, d := HexRun(ds[..i]), HexVal(ds[i]);
            HexRun(ds[..i + 1]) == if v < 0 || d < 0 then -1 else v * 16 + d
  {
    assert ds[..i + 1][..i] == ds[..i];
  }

  lemma {:induction false} DigitsOneMore(ds: Text, i: nat)
    requires i < |ds|
    ensures DigitsVal(ds[..i + 1]) == DigitsVal(ds[..i]) * 10 + (ds[i] as int - 48)
  {
    assert ds[..i + 1][..i] == ds[..i];
  }

  lemma {:induction false} DigitsStart(s: Text)
    ensures s[0..] == s && DigitsVal(s[..0]) == 0
    ensures DigitCount(s) == 0 <==> s == [] || !IsDigit(s[0])
  {
  }

  /** A run of digits goes on to where the first one that is none stands. */
  lemma {:induction false} DigitsGoOn(s: Text, k: nat)
    requires k <= DigitCount(s) && DigitCount(s[k..]) == DigitCount(s) - k
    ensures k < |s| && IsDigit(s[k]) ==> k < DigitCount(s) && DigitCount(s[k + 1..]) == DigitCount(s) - (k + 1)
    ensures k == |s| || !IsDigit(s[k]) ==> k == DigitCount(s)
  {
    if k < |s| {
      assert s[k..][0] == s[k] && s[k..][1..] == s[k + 1..];
    }
  }

  /** More digits never make less. */
  lemma {:induction false} DigitsValGrows(ds: Text, i: nat)
    requires i <= |ds| && forall k :: 0 <= k < |ds| ==> IsDigit(ds[k])
    ensures 0 <= DigitsVal(ds[..i]) <= DigitsVal(ds)
  {
    if i < |ds| {
      var n := |ds| - 1;
      DigitsValGrows(ds[..n], i);
      assert ds[..n][..i] == ds[..i];
    } else {
      assert ds[..i] == ds;
      if i > 0 {
        DigitsValGrows(ds[..i - 1], i - 1);
        assert ds[..i - 1][..i - 1] == ds[..i - 1];
      }
    }
  }

  lemma {:induction false} CountedAreDigits(s: Text, k: nat)
    requires k < DigitCount(s)
    ensures IsDigit(s[k])
  {
    if k > 0 {
      CountedAreDigits(s[1..], k - 1);
    }
  }

  lemma {:induction false} CountEnds(s: Text)
    ensures DigitCount(s) < |s| ==> !IsDigit(s[DigitCount(s)])
  {
    if s != [] && IsDigit(s[0]) {
      CountEnds(s[1..]);
    }
  }

  const UINT64_MAX: int := 0xFFFF_FFFF_FFFF_FFFF

  class Reader {
    const text: Text
    var pos: nat
    var depth: nat
    var nodes: array<Node>
    var count: nat
    var sbuf: array<Byte>
    var slen: nat

    ghost predicate Valid()
      reads this
    {
      pos <= |text| && count <= nodes.Length && slen <= sbuf.Length
    }

    ghost function Rest(): Text
      requires Valid()
      reads this
    {
      text[pos..]
    }

    ghost function Nodes(): seq<Node>
      requires Valid()
      reads this, nodes
    {
      nodes[..count]
    }

    ghost function Strs(): Text
      requires Valid()
      reads this, sbuf
    {
      sbuf[..slen]
    }

    constructor (t: Text)
      ensures Valid() && text == t && pos == 0 && depth == 0 && Nodes() == [] && Strs() == []
      ensures fresh(nodes) && fresh(sbuf)
    {
      text := t;
      pos, depth, count, slen := 0, 0, 0, 0;
      nodes, sbuf := new Node[0], new Byte[0];
    }

    // ------------------------------------------------------ the two buffers

    /** A node more, its links empty. */
    method NodeNew(kind: Kind) returns (n: nat)
      requires Valid()
      modifies this`nodes, this`count, nodes
      ensures Valid() && (nodes == old(nodes) || fresh(nodes))
      ensures n == old(count) && Nodes() == old(Nodes()) + [NewNode(kind)]
    {
      if count == nodes.Length {
        var cap := if nodes.Length > 0 then nodes.Length * 2 else 32;
        var a := new Node[cap](_ => NewNode(KNull));
        forall k | 0 <= k < count {
          a[k] := nodes[k];
        }
        nodes := a;
      }
      n := count;
      nodes[n] := NewNode(kind);
      count := count + 1;
    }

    method StrRoom(need: nat)
      requires Valid()
      modifies this`sbuf
      ensures Valid() && (sbuf == old(sbuf) || fresh(sbuf)) && slen + need <= sbuf.Length && Strs() == old(Strs())
    {
      if slen + need <= sbuf.Length {
        return;
      }
      var cap := if sbuf.Length > 0 then sbuf.Length * 2 else 256;
      while cap < slen + need
        invariant cap > 0
        decreases slen + need - cap
      {
        cap := cap * 2;
      }
      var b := new Byte[cap](_ => 0);
      forall k | 0 <= k < slen {
        b[k] := sbuf[k];
      }
      sbuf := b;
    }

    /** The first `n` bytes of `tmp`, and a NUL, at the end of the string buffer. */
    method StrPut(tmp: array<Byte>, n: nat) returns (off: nat)
      requires Valid() && n <= tmp.Length && tmp != sbuf
      modifies this`sbuf, this`slen, sbuf
      ensures Valid() && (sbuf == old(sbuf) || fresh(sbuf))
      ensures off == old(slen) && Strs() == old(Strs()) + tmp[..n] + [0]
    {
      StrRoom(n + 1);
      off := slen;
      forall k | 0 <= k < n {
        sbuf[off + k] := tmp[k];
      }
      slen := slen + n;
      sbuf[slen] := 0;
      slen := slen + 1;
    }

    // ----------------------------------------------------------- characters

    method SkipSpace()
      requires Valid()
      modifies this`pos
      ensures Valid() && pos >= old(pos) && Rest() == SkipWs(old(Rest()))
    {
      while pos < |text| && IsSpace(text[pos])
        invariant Valid() && pos >= old(pos) && SkipWs(Rest()) == SkipWs(old(Rest()))
        decreases |text| - pos
      {
        pos := pos + 1;
      }
    }

    /** Does `lit` stand here? */
    method LooksAt(lit: Text) returns (yes: bool)
      requires Valid()
      ensures yes == (lit <= Rest())
    {
      yes := |text| - pos >= |lit| && text[pos..pos + |lit|] == lit;
      if yes {
        assert Rest()[..|lit|] == lit;
      }
    }

    /** Four hex digits at `p`, -1 if they are not. */
    method HexFour(p: nat) returns (v: int)
      requires p + 4 <= |text|
      ensures v == HexRun(text[p..p + 4])
    {
      ghost var ds := text[p..p + 4];
      v := 0;
      var i := 0;
      while i < 4
        invariant i <= 4 && v == HexRun(ds[..i]) >= 0
      {
        HexOneMore(ds, i);
        var d := HexVal(text[p + i]);
        if d < 0 {
          HexBadPrefix(ds, i + 1);
          return -1;
        }
        v := v * 16 + d;
        i := i + 1;
      }
      assert ds[..4] == ds;
    }

    /** A code point's bytes, at `n`. */
    method Utf8Put(out: array<Byte>, n: nat, cp: int) returns (n': nat)
      requires 0 <= cp < 0x11_0000 && n + 4 <= out.Length
      modifies out
      ensures n <= n' <= n + 4 && out[..n'] == old(out[..n]) + Utf8(cp)
    {
      if cp < 0x80 {
        out[n] := cp;
        n' := n + 1;
      } else if cp < 0x800 {
        out[n] := 0xC0 + cp / 0x40;
        out[n + 1] := 0x80 + cp % 0x40;
        n' := n + 2;
      } else if cp < 0x1_0000 {
        out[n] := 0xE0 + cp / 0x1000;
        out[n + 1] := 0x80 + cp / 0x40 % 0x40;
        out[n + 2] := 0x80 + cp % 0x40;
        n' := n + 3;
      } else {
        out[n] := 0xF0 + cp / 0x4_0000;
        out[n + 1] := 0x80 + cp / 0x1000 % 0x40;
        out[n + 2] := 0x80 + cp / 0x40 % 0x40;
        out[n + 3] := 0x80 + cp % 0x40;
        n' := n + 4;
      }
    }

    /** The code point of a `\u` escape, the cursor on its digits; -1 if it has none. */
    method CodePoint() returns (cp: int)
      requires Valid()
      modifies this`pos
      ensures Valid() && cp < 0x11_0000 && pos >= old(pos)
      ensures var r := ReadCodePoint(old(Rest()));
              if r.Fail? then cp < 0 else cp == r.v >= 0 && Rest() == r.rest
    {
      ghost var s := Rest();
      if |text| - pos < 4 {
        return -1;
      }
      assert s[..4] == text[pos..pos + 4];
      cp := HexFour(pos);
      HexIsSmall(s[..4]);
      if cp < 0 {
        return -1;
      }
      pos := pos + 4;
      if 0xD800 <= cp <= 0xDBFF && |text| - pos >= 6 && text[pos] == BACKSLASH && text[pos + 1] == 0x75 {
        assert s[6..10] == text[pos + 2..pos + 6];
        var lo := HexFour(pos + 2);
        if 0xDC00 <= lo <= 0xDFFF {
          cp := 0x1_0000 + (cp - 0xD800) * 0x400 + (lo - 0xDC00);
          pos := pos + 6;
        }
      }
    }

    /** One character of a string, decoded at `n`. */
    method DecodeChar(tmp: array<Byte>, n: nat) returns (ok: bool, n': nat)
      requires Valid() && pos < |text| && text[pos] != QUOTE && n + 4 <= tmp.Length
      modifies this`pos, tmp
      ensures Valid() && n <= n' <= n + 4 && pos >= old(pos) && (ok ==> pos > old(pos))
      ensures var r := ReadChar(old(Rest()));
              ok == r.Got? && (ok ==> Rest() == r.rest && tmp[..n'] == old(tmp[..n]) + r.v)
    {
      n' := n;
      var c := text[pos];
      if c != BACKSLASH {
        if c < 0x20 {
          return false, n;
        }
        tmp[n] := c;
        pos := pos + 1;
        return true, n + 1;
      }
      pos := pos + 1;
      if pos == |text| {
        return false, n;
      }
      var e := text[pos];
      pos := pos + 1;
      if e == 0x75 {
        var cp := CodePoint();
        if cp < 0 {
          return false, n;
        }
        n' := Utf8Put(tmp, n, cp);
        return true, n';
      }
      var v := EscapeVal(e);
      if v < 0 {
        return false, n;
      }
      tmp[n] := v;
      return true, n + 1;
    }

    /** Twice the scratch space, with what it holds. */
    method Widen(tmp: array<Byte>, n: nat) returns (b: array<Byte>)
      requires n <= tmp.Length
      ensures fresh(b) && b.Length == tmp.Length * 2 && b[..n] == tmp[..n]
    {
      b := new Byte[tmp.Length * 2](_ => 0);
      forall k | 0 <= k < n {
        b[k] := tmp[k];
      }
    }

    /** The characters of a string up to its quote, decoded into scratch space. */
    method DecodeChars() returns (ok: bool, tmp: array<Byte>, n: nat)
      requires Valid()
      modifies this`pos
      ensures Valid() && fresh(tmp) && n <= tmp.Length && pos >= old(pos)
      ensures ok == ReadChars(old(Rest()), []).Got?
      ensures ok ==> ReadChars(old(Rest()), []) == Got(tmp[..n], Rest())
    {
      tmp := new Byte[256](_ => 0);
      n := 0;
      while pos < |text| && text[pos] != QUOTE
        modifies this`pos, tmp
        invariant Valid() && fresh(tmp) && n <= tmp.Length && tmp.Length >= 256 && pos >= old(pos)
        invariant ReadChars(old(Rest()), []) == ReadChars(Rest(), tmp[..n])
        decreases |text| - pos
      {
        if n + 5 > tmp.Length {
          tmp := Widen(tmp, n);
        }
        ok, n := DecodeChar(tmp, n);
        if !ok {
          return;
        }
      }
      ok := pos < |text|;
      if ok {
        pos := pos + 1;
      }
    }

    /** A string, from its quote on, decoded into the string buffer; -1 if it is none. */
    method ParseString() returns (off: int)
      requires Valid()
      modifies this`pos, this`sbuf, this`slen, sbuf
      ensures Valid() && (sbuf == old(sbuf) || fresh(sbuf)) && pos >= old(pos)
      ensures var r := ReadString(old(Rest()));
              if r.Fail? then off == -1
              else off == old(slen) && Rest() == r.rest && Strs() == old(Strs()) + r.v + [0]
    {
      if pos >= |text| || text[pos] != QUOTE {
        return -1;
      }
      pos := pos + 1;
      var ok, tmp, n := DecodeChars();
      if !ok {
        return -1;
      }
      off := StrPut(tmp, n);
    }

    // -------------------------------------------------------------- numbers

    /** A run of digits, accumulated unsigned: -1 if there is none, if a fraction or an
        exponent follows, or if 64 bits cannot hold it. */
    method ParseDigits() returns (u: int)
      requires Valid()
      modifies this`pos
      ensures Valid()
      ensures var r := ReadDigits(old(Rest()));
              if r.Fail? || r.v > UINT64_MAX then u == -1 else u == r.v >= 0 && Rest() == r.rest
    {
      hide DigitCount, DigitsVal;
      ghost var s := Rest();
      ghost var n := DigitCount(s);
      DigitsStart(s);
      if pos >= |text| || !IsDigit(text[pos]) {
        return -1;
      }
      u := 0;
      ghost var k: nat := 0;
      while pos < |text| && IsDigit(text[pos])
        modifies this`pos
        invariant Valid() && k <= n && pos == old(pos) + k && DigitCount(s[k..]) == n - k
        invariant 0 <= u == DigitsVal(s[..k]) <= UINT64_MAX
        decreases |text| - pos
      {
        var d := text[pos] as int - 48;
        DigitsGoOn(s, k);
        DigitsOneMore(s, k);
        if u > (UINT64_MAX - d) / 10 {
          TooLong(s, k + 1);
          return -1;
        }
        u := u * 10 + d;
        pos := pos + 1;
        k := k + 1;
      }
      DigitsGoOn(s, k);
      assert Rest() == s[k..];
      if pos < |text| && IsReal(text[pos]) {
        return -1;
      }
    }

    /** An integer, sign and all. */
    method ParseNumber() returns (ok: bool, v: int)
      requires Valid()
      modifies this`pos
      ensures Valid()
      ensures var r := ReadNumber(old(Rest()));
              ok == r.Got? && (ok ==> v == r.v && Rest() == r.rest)
    {
      v := 0;
      var neg := pos < |text| && text[pos] == MINUS;
      if neg {
        pos := pos + 1;
      }
      var u := ParseDigits();
      if neg {
        ok := 0 <= u <= INT64_MAX + 1;
        v := 0 - u;
      } else {
        ok := 0 <= u <= INT64_MAX;
        v := u;
      }
    }

    // --------------------------------------------------------------- values

    /** A node for a value that is no container. */
    method Leaf(kind: Kind, num: int, str: nat) returns (n: int)
      requires Valid()
      modifies this`nodes, this`count, nodes
      ensures Valid() && (nodes == old(nodes) || fresh(nodes))
      ensures n == old(count) && Nodes() == old(Nodes()) + [NewNode(kind).(num := num, str := str)]
    {
      n := NodeNew(kind);
      nodes[n] := nodes[n].(num := num, str := str);
    }

    /** A value that is no container; -1 if there is none. */
    method ParseScalar() returns (r: int)
      requires Valid()
      modifies this`pos, this`nodes, this`count, this`sbuf, this`slen, nodes, sbuf
      ensures Valid() && (nodes == old(nodes) || fresh(nodes)) && (sbuf == old(sbuf) || fresh(sbuf))
      ensures var v := ReadScalar(old(Rest()));
              if v.Fail? then r == -1
              else r == old(count) && Rest() == v.rest && Made(old(Nodes()), old(Strs()), Nodes(), Strs(), v.v)
    {
      hide StrAt, ReadString, ReadNumber, Made;
      if pos < |text| && text[pos] == QUOTE {
        r := ParseStringNode();
        return;
      }
      ghost var ns, ss := Nodes(), Strs();
      var yes := LooksAt(TRUE_TEXT);
      if yes {
        pos := pos + 4;
        r := Leaf(KBool, 1, 0);
        LeafIsMade(ns, ss, Bool(true));
        return;
      }
      yes := LooksAt(FALSE_TEXT);
      if yes {
        pos := pos + 5;
        r := Leaf(KBool, 0, 0);
        LeafIsMade(ns, ss, Bool(false));
        return;
      }
      yes := LooksAt(NULL_TEXT);
      if yes {
        pos := pos + 4;
        r := Leaf(KNull, 0, 0);
        LeafIsMade(ns, ss, Null);
        return;
      }
      if pos < |text| && (text[pos] == MINUS || IsDigit(text[pos])) {
        var ok, v := ParseNumber();
        if ok {
          r := Leaf(KNum, v, 0);
          LeafIsMade(ns, ss, Num(v));
          return;
        }
      }
      return -1;
    }

    method ParseStringNode() returns (r: int)
      requires Valid()
      modifies this`pos, this`nodes, this`count, this`sbuf, this`slen, nodes, sbuf
      ensures Valid() && (nodes == old(nodes) || fresh(nodes)) && (sbuf == old(sbuf) || fresh(sbuf))
      ensures var v := ReadString(old(Rest()));
              if v.Fail? then r == -1
              else r == old(count) && Rest() == v.rest && Made(old(Nodes()), old(Strs()), Nodes(), Strs(), Str(v.v))
    {
      hide ReadString, Made;
      var off := ParseString();
      if off < 0 {
        return -1;
      }
      ghost var s := ReadString(old(Rest())).v;
      r := Leaf(KStr, 0, off);
      StrIsMade(old(Nodes()), old(Strs()), s);
    }

    /** A value: its node, -1 if there is none. The value's other nodes come right after,
        and neither the nodes nor the strings from before have changed. */
    method ParseValue() returns (r: int)
      requires Valid()
      modifies this`pos, this`depth, this`nodes, this`count, this`sbuf, this`slen, nodes, sbuf
      ensures Valid() && (nodes == old(nodes) || fresh(nodes)) && (sbuf == old(sbuf) || fresh(sbuf)) &&
              depth == old(depth)
      ensures var v := ReadValue(old(Rest()), old(depth));
              if v.Fail? then r == -1
              else r == old(count) && Rest() == v.rest && Made(old(Nodes()), old(Strs()), Nodes(), Strs(), v.v)
      decreases |text| - pos, 3
    {
      SkipSpace();
      if pos >= |text| {
        return -1;
      }
      if text[pos] == Open(true) {
        r := ParseContainer(true);
      } else if text[pos] == Open(false) {
        r := ParseContainer(false);
      } else {
        r := ParseScalar();
      }
    }

    method ParseContainer(isObj: bool) returns (r: int)
      requires Valid() && pos < |text| && text[pos] == Open(isObj)
      modifies this`pos, this`depth, this`nodes, this`count, this`sbuf, this`slen, nodes, sbuf
      ensures Valid() && (nodes == old(nodes) || fresh(nodes)) && (sbuf == old(sbuf) || fresh(sbuf)) &&
              depth == old(depth)
      ensures var v := ReadGroup(old(Rest()), isObj, old(depth));
              if v.Fail? then r == -1
              else r == old(count) && Rest() == v.rest && Made(old(Nodes()), old(Strs()), Nodes(), Strs(), v.v)
      decreases |text| - pos, 2
    {
      if depth >= MAX_DEPTH {
        return -1;
      }
      depth := depth + 1;
      r := ParseContainerBody(isObj);
      depth := depth - 1;
    }

    /** A container whose depth has been counted. */
    method ParseContainerBody(isObj: bool) returns (r: int)
      requires Valid() && pos < |text| && text[pos] == Open(isObj) && 0 < depth <= MAX_DEPTH
      modifies this`pos, this`depth, this`nodes, this`count, this`sbuf, this`slen, nodes, sbuf
      ensures Valid() && (nodes == old(nodes) || fresh(nodes)) && (sbuf == old(sbuf) || fresh(sbuf)) &&
              depth == old(depth)
      ensures var v := ReadGroup(old(Rest()), isObj, old(depth) - 1);
              if v.Fail? then r == -1
              else r == old(count) && Rest() == v.rest && Made(old(Nodes()), old(Strs()), Nodes(), Strs(), v.v)
      decreases |text| - pos, 1
    {
      hide Made, ReadKids, SkipWs;
      var self := NodeNew(GroupKind(isObj));
      assert Nodes()[..self] == old(Nodes());
      pos := pos + 1;
      SkipSpace();
      if pos < |text| && text[pos] == Close(isObj) {
        pos := pos + 1;
        EmptyIsMade(old(Nodes()), Strs(), isObj);
        return self;
      }
      r := ParseKids(self, isObj);
    }

    /** The kids of the container `self`, its node the last one made. */
    method ParseKids(self: nat, isObj: bool) returns (r: int)
      requires Valid() && self + 1 == count && nodes[self] == NewNode(GroupKind(isObj))
      modifies this`pos, this`depth, this`nodes, this`count, this`sbuf, this`slen, nodes, sbuf
      ensures Valid() && (nodes == old(nodes) || fresh(nodes)) && (sbuf == old(sbuf) || fresh(sbuf)) &&
              depth == old(depth)
      ensures var v := ReadKids(old(Rest()), old(depth), isObj, []);
              if v.Fail? then r == -1
              else r == self && Rest() == v.rest
                   && Made(old(Nodes())[..self], old(Strs()), Nodes(), Strs(), Group(isObj, v.v))
      decreases |text| - pos, 6
    {
      hide ReadKid, SkipWs, Made, Lays;
      ghost var ns, ss, done: seq<Kid> := Nodes()[..self], Strs(), [];
      var prev := -1;
      while true
        invariant Valid() && (nodes == old(nodes) || fresh(nodes)) && (sbuf == old(sbuf) || fresh(sbuf))
        invariant depth == old(depth) && pos >= old(pos)
        invariant PartlyMade(ns, ss, Nodes(), Strs(), isObj, done, prev)
        invariant ReadKids(old(Rest()), depth, isObj, []) == ReadKids(Rest(), depth, isObj, done)
        decreases |text| - pos
      {
        ghost var kid := ReadKid(Rest(), depth, isObj);
        prev := HangKid(self, isObj, prev, ns, ss, done);
        if prev < 0 {
          return -1;
        }
        done := done + [kid.v];
        var sep := Separator(isObj);
        if sep < 0 {
          return -1;
        }
        if sep == 0 {
          GroupIsMade(ns, ss, Nodes(), Strs(), isObj, done, prev);
          return self;
        }
      }
    }

    /** What follows a kid: 1 for a comma, 0 for the container's end, -1 for neither. */
    method Separator(isObj: bool) returns (sep: int)
      requires Valid()
      modifies this`pos
      ensures Valid() && pos >= old(pos)
      ensures var s := SkipWs(old(Rest()));
              if Starts(s, COMMA) then sep == 1 && Rest() == s[1..]
              else if Starts(s, Close(isObj)) then sep == 0 && Rest() == s[1..]
              else sep == -1
    {
      SkipSpace();
      if pos < |text| && text[pos] == COMMA {
        pos := pos + 1;
        return 1;
      }
      if pos < |text| && text[pos] == Close(isObj) {
        pos := pos + 1;
        return 0;
      }
      return -1;
    }

    /** One turn of a container's loop: a kid, hung behind the kids so far. */
    method HangKid(self: nat, isObj: bool, prev: int, ghost ns: seq<Node>, ghost ss: Text, ghost done: seq<Kid>)
      returns (child: int)
      requires Valid() && self == |ns| && PartlyMade(ns, ss, Nodes(), Strs(), isObj, done, prev)
      modifies this`pos, this`depth, this`nodes, this`count, this`sbuf, this`slen, nodes, sbuf
      ensures Valid() && (nodes == old(nodes) || fresh(nodes)) && (sbuf == old(sbuf) || fresh(sbuf)) &&
              depth == old(depth)
      ensures var kid := ReadKid(old(Rest()), old(depth), isObj);
              if kid.Fail? then child == -1
              else child >= 0 && Rest() == kid.rest && PartlyMade(ns, ss, Nodes(), Strs(), isObj, done + [kid.v], child)
      decreases |text| - pos, 5
    {
      ghost var was, strs := Nodes(), Strs();
      ghost var kid := ReadKid(Rest(), depth, isObj);
      child := ParseKid(isObj);
      if child >= 0 {
        KidIsMade(ns, ss, was, strs, Nodes(), Strs(), isObj, done, prev, kid.v);
        Link(self, prev, child);
      }
    }

    /** A kid hangs from its container if it is the first, else from the one before it. */
    method Link(self: nat, prev: int, child: nat)
      requires Valid() && self < count && prev < count
      modifies nodes
      ensures Valid() && Nodes() == Hung(old(Nodes()), self, prev, child)
    {
      if prev < 0 {
        nodes[self] := nodes[self].(firstChild := child);
      } else {
        nodes[prev] := nodes[prev].(nextSibling := child);
      }
    }

    /** An object member's key and colon: where the key stands in the string buffer. */
    method ParseKey(isObj: bool) returns (ok: bool, koff: int)
      requires Valid()
      modifies this`pos, this`sbuf, this`slen, sbuf
      ensures Valid() && (sbuf == old(sbuf) || fresh(sbuf)) && pos >= old(pos)
      ensures var key := ReadKey(old(Rest()), isObj);
              && ok == key.Got?
              && (ok ==> Rest() == key.rest && Strs() == old(Strs()) + (if isObj then key.v + [0] else []))
              && (ok && isObj ==> koff == old(slen))
    {
      hide ReadChars, SkipWs;
      if !isObj {
        return true, -1;
      }
      SkipSpace();
      koff := ParseString();
      if koff < 0 {
        return false, -1;
      }
      SkipSpace();
      ok := pos < |text| && text[pos] == COLON;
      if ok {
        pos := pos + 1;
      }
    }

    /** One kid; its key is remembered until its node is there to hold it. */
    method ParseKid(isObj: bool) returns (r: int)
      requires Valid()
      modifies this`pos, this`depth, this`nodes, this`count, this`sbuf, this`slen, nodes, sbuf
      ensures Valid() && (nodes == old(nodes) || fresh(nodes)) && (sbuf == old(sbuf) || fresh(sbuf)) &&
              depth == old(depth)
      ensures var v := ReadKid(old(Rest()), old(depth), isObj);
              if v.Fail? then r == -1
              else r == old(count) && Rest() == v.rest
                   && MadeKid(old(Nodes()), old(Strs()), Nodes(), Strs(), isObj, v.v)
      decreases |text| - pos, 4
    {
      ghost var key := ReadKey(Rest(), isObj);
      var ok, koff := ParseKey(isObj);
      if !ok {
        return -1;
      }
      ghost var strs := Strs();
      r := ParseValue();
      if r < 0 {
        return -1;
      }
      ghost var now, v := Nodes(), ReadValue(key.rest, depth).v;
      if isObj {
        nodes[r] := nodes[r].(key := koff + 1);
      }
      KeyIsMade(old(Nodes()), old(Strs()), strs, now, Strs(), isObj, Kid(key.v, v), koff);
    }
  }

  // ------------------------------------------------------ what a parse makes

  lemma {:induction false} HexGrowsBy16(ds: Text, i: nat, bound: nat)
    requires i < |ds| && HexRun(ds[..i]) < bound
    ensures HexRun(ds[..i + 1]) < 16 * bound
  {
    HexOneMore(ds, i);
  }

  lemma {:induction false} HexIsSmall(ds: Text)
    requires |ds| == 4
    ensures HexRun(ds) < 0x1_0000
  {
    assert ds[..4] == ds && ds[..0] == [];
    HexGrowsBy16(ds, 0, 1);
    HexGrowsBy16(ds, 1, 16);
    HexGrowsBy16(ds, 2, 256);
    HexGrowsBy16(ds, 3, 4096);
  }

  /** Once a prefix is out of range, so is the number. */
  lemma {:induction false} TooLong(s: Text, k: nat)
    requires k <= DigitCount(s) && DigitsVal(s[..k]) > UINT64_MAX
    ensures DigitsVal(s[..DigitCount(s)]) > UINT64_MAX
  {
    var ds := s[..DigitCount(s)];
    forall i | 0 <= i < |ds| ensures IsDigit(ds[i]) {
      CountedAreDigits(s, i);
    }
    DigitsValGrows(ds, k);
    assert ds[..k] == s[..k];
  }

  /** The nodes and strings from before, and then the value's own. */
  ghost predicate Made(ns: seq<Node>, ss: Text, ns': seq<Node>, ss': Text, v: Json) {
    && ns <= ns' && ss <= ss' && |ns'| == |ns| + Size(v)
    && Lays(ns', ss', |ns|, v)
    && ns'[|ns|].key == 0 && ns'[|ns|].nextSibling == -1
  }

  ghost predicate MadeKid(ns: seq<Node>, ss: Text, ns': seq<Node>, ss': Text, isObj: bool, kid: Kid) {
    && ns <= ns' && ss <= ss' && |ns'| == |ns| + Size(kid.val)
    && Lays(ns', ss', |ns|, kid.val)
    && KeyLaid(ss', ns'[|ns|].key, isObj, kid.key) && ns'[|ns|].nextSibling == -1
  }

  /** A container's loop, so far. */
  ghost predicate PartlyMade(ns: seq<Node>, ss: Text, ns': seq<Node>, ss': Text, isObj: bool, kids: seq<Kid>,
                             prev: int) {
    var self := |ns|;
    && ns <= ns' && ss <= ss' && |ns'| == self + 1 + SizeOfKids(kids)
    && ns'[self] == NewNode(GroupKind(isObj)).(firstChild := if kids == [] then -1 else self + 1)
    && prev == (if kids == [] then -1 else LastStart(self + 1, kids))
    && LaysKids(ns', ss', self + 1, isObj, kids)
  }

  function Hung(ns: seq<Node>, self: nat, prev: int, child: nat): seq<Node>
    requires self < |ns| && prev < |ns|
  {
    if prev < 0 then ns[self := ns[self].(firstChild := child)]
    else ns[prev := ns[prev].(nextSibling := child)]
  }

  lemma {:induction false} LeafIsMade(ns: seq<Node>, ss: Text, v: Json)
    requires v.Null? || v.Bool? || v.Num?
    ensures Made(ns, ss, ns + [match v
                               case Null => NewNode(KNull)
                               case Bool(b) => NewNode(KBool).(num := if b then 1 else 0)
                               case Num(n) => NewNode(KNum).(num := n)], ss, v)
  {
  }

  lemma {:induction false} EmptyIsMade(ns: seq<Node>, ss: Text, isObj: bool)
    ensures Made(ns, ss, ns + [NewNode(GroupKind(isObj))], ss, Group(isObj, []))
  {
  }

  lemma {:induction false} StrIsMade(ns: seq<Node>, ss: Text, s: Text)
    ensures Made(ns, ss, ns + [NewNode(KStr).(num := 0, str := |ss|)], ss + s + [0], Str(s))
  {
    var ss' := ss + s + [0];
    assert ss'[|ss|..|ss| + |s|] == s;
    assert ss <= ss + s <= ss';
  }

  /** Setting the key's offset on a value's node makes it a member. */
  lemma {:induction false} KeyIsMade(ns: seq<Node>, ss: Text, strs: Text, ns': seq<Node>, ss': Text,
                                     isObj: bool, kid: Kid, koff: int)
    requires Made(ns, strs, ns', ss', kid.val)
    requires strs == ss + (if isObj then kid.key + [0] else []) && (if isObj then koff == |ss| else kid.key == [])
    ensures var ns1 := if isObj then ns'[|ns| := ns'[|ns|].(key := koff + 1)] else ns';
            MadeKid(ns, ss, ns1, ss', isObj, kid)
  {
    if isObj {
      var ns1 := ns'[|ns| := ns'[|ns|].(key := koff + 1)];
      assert strs == ss + kid.key + [0] && strs[koff..koff + |kid.key|] == kid.key;
      StrStays(strs, ss', koff, kid.key);
      assert ss <= ss + kid.key <= strs;
      LaysStays(ns', ns1, ss', ss', |ns|, kid.val);
    }
  }

  /** One turn of a container's loop. */
  lemma {:induction false} KidIsMade(ns: seq<Node>, ss: Text, ns1: seq<Node>, ss1: Text, ns2: seq<Node>, ss2: Text,
                                     isObj: bool, kids: seq<Kid>, prev: int, kid: Kid)
    requires PartlyMade(ns, ss, ns1, ss1, isObj, kids, prev) && MadeKid(ns1, ss1, ns2, ss2, isObj, kid)
    ensures prev < |ns2|
    ensures PartlyMade(ns, ss, Hung(ns2, |ns|, prev, |ns1|), ss2, isObj, kids + [kid], |ns1|)
  {
    var c := |ns| + 1;
    LaysKidsStay(ns1, ns2, ss1, ss2, c, isObj, kids);
    if kids != [] {
      LastIsInside(c, kids);
    }
    AppendKid(ns2, ss2, c, isObj, kids, kid);
    SizeOfMore(kids, [kid]);
    SizeOfOne(kid);
    assert (kids + [kid])[..|kids|] == kids;
    var ns3 := Hung(ns2, |ns|, prev, |ns1|);
    var linked := Linked(ns2, c, kids, |ns1|);
    LaysKidsStay(linked, ns3, ss2, ss2, c, isObj, kids + [kid]);
  }

  lemma {:induction false} GroupIsMade(ns: seq<Node>, ss: Text, ns': seq<Node>, ss': Text, isObj: bool, kids: seq<Kid>,
                                       prev: int)
    requires PartlyMade(ns, ss, ns', ss', isObj, kids, prev)
    ensures Made(ns, ss, ns', ss', Group(isObj, kids))
  {
  }
}
