/** The writer: a growing, NUL-terminated buffer and one bit that says whether the next
    value needs a comma.  Each method is proved to append exactly the text `Json` prints,
    and never to write past its buffer. */
module JsonWriter {
  import opened Json

  // ------------------------------------------------------------- escaped runs

  lemma {:induction false} Assoc(a: Text, b: Text, c: Text)
    ensures a + b + c == a + (b + c)
  {
  }

  lemma {:induction false} EscapeOfBoth(a: Text, b: Text)
    ensures Escape(a + b) == Escape(a) + Escape(b)
  {
    if a == [] {
      assert a + b == b;
    } else {
      EscapeOfBoth(a[1..], b);
      assert (a + b)[1..] == a[1..] + b;
      Assoc(EscapeByte(a[0]), Escape(a[1..]), Escape(b));
    }
  }

  predicate AllPlain(s: Text) { forall k :: 0 <= k < |s| ==> Plain(s[k]) }

  lemma {:induction false} EscapeOfPlain(s: Text)
    requires AllPlain(s)
    ensures Escape(s) == s
  {
    if s != [] {
      EscapeOfPlain(s[1..]);
    }
  }

  lemma {:induction false} EscapeOfNone()
    ensures Escape([]) == []
  {
  }

  lemma {:induction false} EscapeOfOne(c: Byte)
    ensures Escape([c]) == EscapeByte(c)
  {
    assert [c][1..] == [];
  }

  // ------------------------------------------------------------------- digits

  function Pow10(n: nat): nat { if n == 0 then 1 else 10 * Pow10(n - 1) }

  function Reversed(s: Text): (r: Text)
    ensures |r| == |s|
    ensures forall k :: 0 <= k < |s| ==> r[k] == s[|s| - 1 - k]
  {
    if s == [] then [] else [s[|s| - 1]] + Reversed(s[..|s| - 1])
  }

  class Writer {
    var buf: array<Byte>
    var len: nat
    var needComma: bool

    /** Once something is written there is a NUL behind it. A buffer that was only
        reserved holds whatever it holds. */
    ghost predicate Valid()
      reads this, buf
    {
      len <= buf.Length && (len > 0 ==> len < buf.Length && buf[len] == 0)
    }

    /** What has been written. */
    ghost function Out(): Text
      requires Valid()
      reads this, buf
    {
      buf[..len]
    }

    constructor ()
      ensures Valid() && Out() == [] && !needComma && fresh(buf)
    {
      buf, len, needComma := new Byte[0], 0, false;
    }

    /** Room for `need` more bytes and the NUL. */
    method Grow(need: nat)
      requires Valid()
      modifies this
      ensures Valid() && (buf == old(buf) || fresh(buf)) && len + need < buf.Length
      ensures Out() == old(Out()) && len == old(len) && needComma == old(needComma)
    {
      if len + need + 1 <= buf.Length {
        return;
      }
      var cap := if buf.Length > 0 then buf.Length else 256;
      while cap < len + need + 1
        invariant cap > 0
        decreases len + need + 1 - cap
      {
        cap := cap * 2;
      }
      var b := new Byte[cap];
      forall k | 0 <= k < buf.Length {
        b[k] := buf[k];
      }
      buf := b;
    }

    /** Appends without checking: the caller has made room. */
    method RawUnchecked(s: Text)
      requires Valid() && len + |s| < buf.Length
      modifies this`len, buf
      ensures Valid() && Out() == old(Out()) + s
    {
      forall k | 0 <= k < |s| {
        buf[len + k] := s[k];
      }
      len := len + |s|;
      buf[len] := 0;
    }

    method PutUnchecked(c: Byte)
      requires Valid() && len + 1 < buf.Length
      modifies this`len, buf
      ensures Valid() && Out() == old(Out()) + [c]
    {
      buf[len] := c;
      len := len + 1;
      buf[len] := 0;
    }

    method Put(s: Text)
      requires Valid()
      modifies this, buf
      ensures Valid() && (buf == old(buf) || fresh(buf)) && Out() == old(Out()) + s && needComma == old(needComma)
    {
      Grow(|s|);
      RawUnchecked(s);
    }

    /** Formatted text, as a value that needs no separator of its own. */
    method Raw(s: Text)
      requires Valid()
      modifies this, buf
      ensures Valid() && (buf == old(buf) || fresh(buf)) && Out() == old(Out()) + s && needComma
    {
      Put(s);
      needComma := true;
    }

    method Sep()
      requires Valid()
      modifies this, buf
      ensures Valid() && (buf == old(buf) || fresh(buf)) && Out() == old(Out()) + Separator(old(needComma)) && needComma
    {
      if needComma {
        Grow(1);
        PutUnchecked(COMMA);
      }
      needComma := true;
    }

    method Begin(isObj: bool)
      requires Valid()
      modifies this, buf
      ensures Valid() && (buf == old(buf) || fresh(buf))
      ensures Out() == old(Out()) + Separator(old(needComma)) + [Open(isObj)] && !needComma
    {
      Sep();
      Grow(1);
      PutUnchecked(Open(isObj));
      needComma := false;
    }

    method End(isObj: bool)
      requires Valid()
      modifies this, buf
      ensures Valid() && (buf == old(buf) || fresh(buf)) && Out() == old(Out()) + [Close(isObj)] && needComma
    {
      Grow(1);
      PutUnchecked(Close(isObj));
      needComma := true;
    }

    /** A string in quotes, copying runs that need no escaping whole. */
    method StrEscaped(s: Text)
      requires Valid() && NulFree(s)
      modifies this, buf
      ensures Valid() && (buf == old(buf) || fresh(buf)) && Out() == old(Out()) + Quoted(s) &&
              needComma == old(needComma)
    {
      hide Escape, EscapeByte;
      EscapeOfNone();
      ghost var start := Out() + [QUOTE];
      Grow(|s| + 2);
      PutUnchecked(QUOTE);
      var p, run := 0, 0;
      while true
        invariant run <= p <= |s| && Valid() && (buf == old(buf) || fresh(buf)) && needComma == old(needComma)
        invariant Out() == start + Escape(s[..run]) && AllPlain(s[run..p])
        decreases |s| - p
      {
        var c: Byte := if p < |s| then s[p] else 0;
        if Plain(c) {
          assert s[run..p + 1] == s[run..p] + [c];
          p := p + 1;
          continue;
        }
        FlushRun(s, run, p);
        EscapedUpTo(s, run, p);
        Assoc(start, Escape(s[..run]), s[run..p]);
        if c == 0 {
          break;
        }
        PutEscaped(s, p, start);
        p := p + 1;
        run := p;
      }
      assert s[..p] == s;
      Grow(1);
      PutUnchecked(QUOTE);
      InQuotes(old(Out()), s);
    }

    /** A byte that needs escaping. */
    method PutEscaped(s: Text, p: nat, ghost start: Text)
      requires Valid() && p < |s| && Out() == start + Escape(s[..p])
      modifies this, buf
      ensures Valid() && (buf == old(buf) || fresh(buf)) && Out() == start + Escape(s[..p + 1]) &&
              needComma == old(needComma)
    {
      hide Escape;
      Grow(6);
      RawUnchecked(EscapeByte(s[p]));
      EscapedOneMore(s, p);
      Assoc(start, Escape(s[..p]), EscapeByte(s[p]));
    }

    /** The bytes since the last escape, as they stand. */
    method FlushRun(s: Text, run: nat, p: nat)
      requires Valid() && run <= p <= |s|
      modifies this, buf
      ensures Valid() && (buf == old(buf) || fresh(buf)) && Out() == old(Out()) + s[run..p] &&
              needComma == old(needComma)
    {
      if p > run {
        Grow(p - run);
        RawUnchecked(s[run..p]);
      }
    }

    method Key(key: Text)
      requires Valid() && NulFree(key)
      modifies this, buf
      ensures Valid() && (buf == old(buf) || fresh(buf))
      ensures Out() == old(Out()) + Separator(old(needComma)) + KeyText(true, key) && !needComma
    {
      hide Quoted;
      Sep();
      Assoc(Out(), Quoted(key), [COLON]);
      StrEscaped(key);
      Grow(1);
      PutUnchecked(COLON);
      needComma := false;
    }

    method NullValue()
      requires Valid()
      modifies this, buf
      ensures Valid() && (buf == old(buf) || fresh(buf))
      ensures Out() == old(Out()) + Separator(old(needComma)) + Print(Null) && needComma
    {
      Sep();
      Put(NULL_TEXT);
    }

    method StrValue(s: Text)
      requires Valid() && NulFree(s)
      modifies this, buf
      ensures Valid() && (buf == old(buf) || fresh(buf))
      ensures Out() == old(Out()) + Separator(old(needComma)) + Print(Str(s)) && needComma
    {
      Sep();
      StrEscaped(s);
    }

    /** An integer, its digits straight into the buffer. */
    method I64(v: int)
      requires Valid() && INT64_MIN <= v <= INT64_MAX
      modifies this, buf
      ensures Valid() && (buf == old(buf) || fresh(buf))
      ensures Out() == old(Out()) + Separator(old(needComma)) + Print(Num(v)) && needComma
    {
      Sep();
      Grow(24);
      var u: nat := if v < 0 then -(v + 1) + 1 else v;
      var tmp, n := ReverseDigits(u);
      if v < 0 {
        PutUnchecked(MINUS);
      }
      PutReversed(tmp, n, Digits(u));
      Assoc(old(Out()) + Separator(old(needComma)), [MINUS], Digits(u));
    }

    /** Staged digits, back to front. */
    method PutReversed(tmp: array<Byte>, count: nat, ghost ds: Text)
      requires Valid() && count <= tmp.Length && tmp[..count] == Reversed(ds) && len + count < buf.Length && tmp != buf
      modifies this`len, buf
      ensures Valid() && Out() == old(Out()) + ds
    {
      var n, out := count, len;
      while n > 0
        modifies buf
        invariant 0 <= n && len <= out && out + n == len + count
        invariant forall k :: 0 <= k < len ==> buf[k] == old(Out())[k]
        invariant forall k :: len <= k < out ==> buf[k] == ds[k - len]
      {
        n := n - 1;
        assert tmp[..count][n] == ds[count - 1 - n];
        buf[out] := tmp[n];
        out := out + 1;
      }
      assert buf[len..out] == ds && buf[..len] == old(Out());
      assert buf[..out] == buf[..len] + buf[len..out];
      len := out;
      buf[len] := 0;
    }
  }

  lemma {:induction false} InQuotes(a: Text, s: Text)
    ensures a + [QUOTE] + Escape(s) + [QUOTE] == a + Quoted(s)
  {
    Assoc(a, [QUOTE], Escape(s));
    Assoc(a, [QUOTE] + Escape(s), [QUOTE]);
  }

  lemma {:induction false} EscapedUpTo(s: Text, run: nat, p: nat)
    requires run <= p <= |s| && AllPlain(s[run..p])
    ensures Escape(s[..run]) + s[run..p] == Escape(s[..p])
  {
    EscapeOfPlain(s[run..p]);
    EscapeOfBoth(s[..run], s[run..p]);
    assert s[..p] == s[..run] + s[run..p];
  }

  lemma {:induction false} EscapedOneMore(s: Text, p: nat)
    requires p < |s|
    ensures Escape(s[..p]) + EscapeByte(s[p]) == Escape(s[..p + 1])
  {
    EscapeOfOne(s[p]);
    EscapeOfBoth(s[..p], [s[p]]);
    assert s[..p + 1] == s[..p] + [s[p]];
  }

  lemma {:induction false} Pow10Of19()
    ensures Pow10(19) == 10_000_000_000_000_000_000
  {
    assert Pow10(5) == 100_000;
    assert Pow10(10) == 10_000_000_000;
    assert Pow10(15) == 1_000_000_000_000_000;
  }

  lemma {:induction false} Pow10Less(n: nat)
    requires n > 0
    ensures Pow10(n) == 10 * Pow10(n - 1) && (n == 1 ==> Pow10(n - 1) == 1)
  {
  }

  /** The digits of a 64-bit magnitude, last one first. */
  method ReverseDigits(u0: nat) returns (tmp: array<Byte>, n: nat)
    requires u0 <= INT64_MAX + 1
    ensures fresh(tmp) && n <= 19 && tmp.Length == 24 && tmp[..n] == Reversed(Digits(u0))
  {
    hide Pow10, Digits, Reversed;
    tmp := new Byte[24];
    var u: nat := u0;
    n := 0;
    ghost var tail: Text := [];
    Pow10Of19();
    NoDigits(Digits(u0), tmp[..0]);
    while true
      invariant n < 19 && u < Pow10(19 - n) && (n > 0 ==> u > 0)
      invariant Digits(u0) == Digits(u) + tail && tmp[..n] == Reversed(tail)
      decreases u
    {
      Pow10Less(19 - n);
      LastDigit(u, tail);
      tmp[n] := 48 + u % 10;
      n := n + 1;
      tail := [48 + u % 10] + tail;
      u := u / 10;
      if u == 0 {
        break;
      }
    }
  }

  lemma {:induction false} NoDigits(ds: Text, none: Text)
    requires none == []
    ensures ds == ds + [] && none == Reversed([])
  {
  }

  lemma {:induction false} LastDigit(u: nat, tail: Text)
    ensures Digits(u) + tail == if u < 10 then [48 + u % 10] + tail else Digits(u / 10) + ([48 + u % 10] + tail)
    ensures Reversed([48 + u % 10] + tail) == Reversed(tail) + [48 + u % 10]
  {
    Assoc(Digits(u / 10), [48 + u % 10], tail);
  }

  /** A whole value, one writer call at a time: whatever the calls nest to, the comma bit
      puts the separators where `Print` has them. */
  method WriteValue(w: Writer, v: Json)
    requires w.Valid() && Writable(v)
    modifies w, w.buf
    ensures w.Valid() && (w.buf == old(w.buf) || fresh(w.buf))
    ensures w.Out() == old(w.Out()) + Separator(old(w.needComma)) + Print(v) && w.needComma
    decreases Size(v), 0
  {
    match v
    case Null => w.NullValue();
    case Num(n) => w.I64(n);
    case Str(s) => w.StrValue(s);
    case Group(isObj, kids) =>
      w.Begin(isObj);
      WriteKids(w, isObj, kids);
      w.End(isObj);
      InBrackets(old(w.Out()) + Separator(old(w.needComma)), isObj, kids);
  }

  method WriteKids(w: Writer, isObj: bool, kids: seq<Kid>)
    requires w.Valid() && WritableKids(isObj, kids)
    modifies w, w.buf
    ensures w.Valid() && (w.buf == old(w.buf) || fresh(w.buf))
    ensures w.Out() == old(w.Out()) + PrintKids(isObj, kids, old(w.needComma))
    decreases SizeOfKids(kids), 2
  {
    hide Print, KeyText, PrintKids, SizeOfKids, WritableKids, Size, Writable;
    assert kids[0..] == kids;
    ghost var whole := w.Out() + PrintKids(isObj, kids, w.needComma);
    var i := 0;
    while i < |kids|
      invariant i <= |kids| && w.Valid() && (w.buf == old(w.buf) || fresh(w.buf))
      invariant WritableKids(isObj, kids[i..]) && SizeOfKids(kids[i..]) <= SizeOfKids(kids)
      invariant w.Out() + PrintKids(isObj, kids[i..], w.needComma) == whole
    {
      ghost var out, comma := w.Out(), w.needComma;
      FirstOfThese(isObj, kids[i..]);
      assert kids[i..][1..] == kids[i + 1..];
      WriteKid(w, isObj, kids[i]);
      OneKidMore(out, isObj, kids[i..], comma);
      i := i + 1;
    }
    assert kids[i..] == [];
    NoKids(isObj, w.needComma);
  }

  method WriteKid(w: Writer, isObj: bool, kid: Kid)
    requires w.Valid() && Writable(kid.val) && (isObj ==> NulFree(kid.key))
    modifies w, w.buf
    ensures w.Valid() && (w.buf == old(w.buf) || fresh(w.buf)) && w.needComma
    ensures w.Out() == KeyedOut(old(w.Out()), isObj, kid.key, old(w.needComma))
                       + Separator(!isObj && old(w.needComma)) + Print(kid.val)
    decreases Size(kid.val), 1
  {
    if isObj {
      w.Key(kid.key);
    }
    WriteValue(w, kid.val);
  }

  function KeyedOut(out: Text, isObj: bool, key: Text, comma: bool): Text {
    if isObj then out + Separator(comma) + KeyText(true, key) else out
  }

  lemma {:induction false} FirstOfThese(isObj: bool, kids: seq<Kid>)
    requires kids != [] && WritableKids(isObj, kids)
    ensures Writable(kids[0].val) && (isObj ==> NulFree(kids[0].key)) && WritableKids(isObj, kids[1..])
    ensures SizeOfKids(kids) == Size(kids[0].val) + SizeOfKids(kids[1..])
  {
  }

  lemma {:induction false} NoKids(isObj: bool, comma: bool)
    ensures PrintKids(isObj, [], comma) == []
  {
  }

  lemma {:induction false} InBrackets(a: Text, isObj: bool, kids: seq<Kid>)
    ensures a + [Open(isObj)] + PrintKids(isObj, kids, false) + [Close(isObj)] == a + Print(Group(isObj, kids))
  {
    Assoc(a, [Open(isObj)], PrintKids(isObj, kids, false));
    Assoc(a, [Open(isObj)] + PrintKids(isObj, kids, false), [Close(isObj)]);
  }

  lemma {:induction false} OneKidMore(out: Text, isObj: bool, kids: seq<Kid>, comma: bool)
    requires kids != []
    ensures KeyedOut(out, isObj, kids[0].key, comma)
            + Separator(!isObj && comma) + Print(kids[0].val) + PrintKids(isObj, kids[1..], true)
            == out + PrintKids(isObj, kids, comma)
  {
    var sep, key, val, rest := Separator(comma), KeyText(isObj, kids[0].key), Print(kids[0].val),
      PrintKids(isObj, kids[1..], true);
    FivePieces(out, sep, key, val, rest);
  }

  lemma {:induction false} FivePieces(a: Text, b: Text, c: Text, d: Text, e: Text)
    ensures a + b + c + d + e == a + (b + c + d + e)
    ensures a + b + c + [] + d + e == a + (b + c + d + e)
    ensures c == [] ==> a + b + d + e == a + (b + c + d + e)
  {
  }
}
