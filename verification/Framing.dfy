/** Frames over a byte stream that moves as few bytes at a time as it likes: a length in
    four bytes, low one first, and then that many bytes. */
module Framing {
  import opened Json

  const MAX_FRAME: nat := 64 * 1024 * 1024
  const WIDTH: nat := 0x1_0000_0000

  // ------------------------------------------------------------- the meaning

  function Header(len: nat): (h: Text)
    ensures |h| == 4
  {
    [len % 0x100, len / 0x100 % 0x100, len / 0x1_0000 % 0x100, len / 0x100_0000 % 0x100]
  }

  function Announced(h: Text): (len: nat)
    requires |h| == 4
    ensures len < WIDTH
  {
    h[0] as int + h[1] as int * 0x100 + h[2] as int * 0x1_0000 + h[3] as int * 0x100_0000
  }

  /** The bytes that sending `buf` puts on the stream: the length and the count written are
      both cut to 32 bits. */
  function Sent(buf: Text): Text { Header(|buf|) + buf[..|buf| % WIDTH] }

  /** A frame, one refused for its announced length, or the stream's end. */
  datatype Received = Frame(bytes: Text, rest: Text) | Refused(len: nat, rest: Text) | Broken

  function Receive(s: Text): Received {
    if |s| < 4 then Broken
    else
      var len := Announced(s[..4]);
      if len == 0 || len > MAX_FRAME then Refused(len, s[4..])
      else if |s| - 4 < len then Broken
      else Frame(s[4..4 + len], s[4 + len..])
  }

  lemma {:induction false} HeaderIsReadBack(len: nat)
    ensures var h := Header(len);
            h[0] as int + h[1] as int * 0x100 + h[2] as int * 0x1_0000 + h[3] as int * 0x100_0000 == len % 0x1_0000_0000
    ensures Announced(Header(len)) == len % WIDTH
  {
    var a, b, c := len / 0x100, len / 0x1_0000, len / 0x100_0000;
    assert a / 0x100 == b && b / 0x100 == c;
    assert len == len % 0x100 + 0x100 * a && a == a % 0x100 + 0x100 * b && b == b % 0x100 + 0x100 * c;
    assert c == c % 0x100 + 0x100 * (c / 0x100);
    var low := len % 0x100 + a % 0x100 * 0x100 + b % 0x100 * 0x1_0000 + c % 0x100 * 0x100_0000;
    assert len == low + WIDTH * (c / 0x100);
    WrapsTo(len, low, c / 0x100);
  }

  lemma {:induction false} WrapsTo(len: nat, low: nat, k: nat)
    requires len == low + WIDTH * k && low < WIDTH
    ensures len % WIDTH == low
  {
  }

  /** What comes of sending any bytes at all. */
  lemma {:induction false} SentIsReceived(buf: Text, more: Text)
    ensures var len := |buf| % WIDTH;
            Receive(Sent(buf) + more) ==
            if 1 <= len <= MAX_FRAME then Frame(buf[..len], more) else Refused(len, buf[..len] + more)
  {
    var s, h := Sent(buf) + more, Header(|buf|);
    HeaderIsReadBack(|buf|);
    hide Header, Announced;
    assert s == h + (buf[..|buf| % WIDTH] + more);
    assert s[..4] == h && s[4..] == buf[..|buf| % WIDTH] + more;
  }

  /** A frame arrives as it was sent exactly when it has 1 to MAX_FRAME bytes. */
  lemma {:induction false} ArrivesIffItFits(buf: Text, more: Text)
    ensures Receive(Sent(buf) + more) == Frame(buf, more) <==> 1 <= |buf| <= 0x400_0000
  {
    SentIsReceived(buf, more);
    hide Sent, Receive;
    if |buf| < WIDTH {
      assert |buf| % WIDTH == |buf| && buf[..|buf|] == buf;
    }
  }

  function SentAll(frames: seq<Text>): Text {
    if frames == [] then [] else Sent(frames[0]) + SentAll(frames[1..])
  }

  function ReceiveAll(s: Text): (frames: seq<Text>)
    decreases |s|
  {
    var r := Receive(s);
    if r.Frame? then [r.bytes] + ReceiveAll(r.rest) else []
  }

  /** Frames that fit are received as the same sequence. */
  lemma {:induction false} SequenceArrives(frames: seq<Text>)
    requires forall f :: f in frames ==> 1 <= |f| <= MAX_FRAME
    ensures ReceiveAll(SentAll(frames)) == frames
  {
    if frames == [] {
      assert Receive([]).Broken?;
    } else {
      ArrivesIffItFits(frames[0], SentAll(frames[1..]));
      SequenceArrives(frames[1..]);
      hide Receive, Sent;
      assert frames == [frames[0]] + frames[1..];
    }
  }

  lemma {:induction false} SentAllOneMore(frames: seq<Text>, f: Text)
    ensures SentAll(frames + [f]) == SentAll(frames) + Sent(f)
  {
    hide Sent;
    if frames == [] {
      assert frames + [f] == [f] && [f][1..] == [];
    } else {
      assert (frames + [f])[1..] == frames[1..] + [f];
      SentAllOneMore(frames[1..], f);
    }
  }

  /** While sends and receives alternate as they will, the stream is a queue of frames: a
      send adds one at the end, a receive takes the first. */
  lemma {:induction false} StreamIsQueue(queue: seq<Text>, stream: Text, f: Text)
    requires stream == SentAll(queue) && forall g :: g in queue ==> 1 <= |g| <= MAX_FRAME
    ensures stream + Sent(f) == SentAll(queue + [f])
    ensures Receive(stream) == if queue == [] then Broken else Frame(queue[0], SentAll(queue[1..]))
  {
    SentAllOneMore(queue, f);
    if queue != [] {
      ArrivesIffItFits(queue[0], SentAll(queue[1..]));
    }
  }

  // ----------------------------------------------------------------- the pipe

  /** The bytes written and not yet read. A write moves at least one byte unless the other
      end is gone; a read moves at least one if there is one, and waits for it otherwise,
      in vain only at the end of the stream. */
  class Pipe {
    var data: Text
    var gone: bool

    constructor ()
      ensures data == [] && !gone
    {
      data, gone := [], false;
    }

    method WriteSome(buf: array<Byte>, at: nat, n: nat) returns (did: nat)
      requires 0 < n && at + n <= buf.Length
      modifies this`data
      ensures did <= n && (did == 0 <==> gone) && data == old(data) + buf[at..at + did]
    {
      if gone {
        assert buf[at..at + 0] == [];
        return 0;
      }
      did :| 1 <= did <= n;
      data := data + buf[at..at + did];
    }

    method ReadSome(buf: array<Byte>, at: nat, n: nat) returns (did: nat)
      requires 0 < n && at + n <= buf.Length
      modifies this`data, buf
      ensures did <= n && (did == 0 <==> old(data) == []) && did <= |old(data)|
      ensures data == old(data)[did..] && buf[..at + did] == old(buf[..at]) + old(data)[..did]
    {
      if data == [] {
        return 0;
      }
      did :| 1 <= did <= n && did <= |data|;
      forall k | 0 <= k < did {
        buf[at + k] := data[k];
      }
      data := data[did..];
    }
  }

  /** Writes all of `n` bytes, however they are split. */
  method WriteExact(pipe: Pipe, buf: array<Byte>, n: nat) returns (ok: bool)
    requires n <= buf.Length
    modifies pipe`data
    ensures ok == (n == 0 || !pipe.gone)
    ensures ok ==> pipe.data == old(pipe.data) + buf[..n]
  {
    var p: nat, left: nat := 0, n;
    assert buf[..0] == [];
    while left > 0
      invariant p + left == n && (p == 0 || !pipe.gone) && pipe.data == old(pipe.data) + buf[..p]
      decreases left
    {
      var did := pipe.WriteSome(buf, p, left);
      if did == 0 {
        return false;
      }
      assert buf[..p + did] == buf[..p] + buf[p..p + did];
      p, left := p + did, left - did;
    }
    return true;
  }

  /** Reads all of `n` bytes, however they are split; it fails if there are not that many. */
  method ReadExact(pipe: Pipe, buf: array<Byte>, n: nat) returns (ok: bool)
    requires n <= buf.Length
    modifies pipe`data, buf
    ensures ok == (n <= |old(pipe.data)|)
    ensures ok ==> buf[..n] == old(pipe.data)[..n] && pipe.data == old(pipe.data)[n..]
  {
    var p: nat, left: nat := 0, n;
    while left > 0
      invariant p + left == n && p <= |old(pipe.data)|
      invariant pipe.data == old(pipe.data)[p..] && buf[..p] == old(pipe.data)[..p]
      decreases left
    {
      var did := pipe.ReadSome(buf, p, left);
      if did == 0 {
        return false;
      }
      assert old(pipe.data)[..p + did] == old(pipe.data)[..p] + old(pipe.data)[p..][..did];
      p, left := p + did, left - did;
    }
    return true;
  }

  method SendFrame(pipe: Pipe, buf: array<Byte>) returns (ok: bool)
    modifies pipe`data
    ensures ok == !pipe.gone
    ensures ok ==> pipe.data == old(pipe.data) + Sent(buf[..])
  {
    var len := buf.Length;
    var hdr := new Byte[4];
    hdr[0], hdr[1] := len % 0x100, len / 0x100 % 0x100;
    hdr[2], hdr[3] := len / 0x1_0000 % 0x100, len / 0x100_0000 % 0x100;
    assert hdr[..4] == Header(len);
    ok := WriteExact(pipe, hdr, 4);
    if ok {
      hide Header;
      ghost var before := old(pipe.data) + Header(len);
      ok := WriteExact(pipe, buf, len % WIDTH);
      assert buf[..][..len % WIDTH] == buf[..len % WIDTH];
      assert before + buf[..len % WIDTH] == old(pipe.data) + Sent(buf[..]);
    }
  }

  /** A frame, ended by a NUL in memory; or null, with the length that was refused. */
  method RecvFrame(pipe: Pipe) returns (buf: array?<Byte>, len: nat)
    modifies pipe`data
    ensures match Receive(old(pipe.data))
            case Frame(bytes, rest) => buf != null && buf.Length == len + 1 && buf[..len] == bytes && buf[len] == 0 &&
              pipe.data == rest
            case Refused(n, rest) => buf == null && len == n && pipe.data == rest
            case Broken => buf == null && len == 0
  {
    var hdr := new Byte[4];
    ghost var s := pipe.data;
    var ok := ReadExact(pipe, hdr, 4);
    if !ok {
      return null, 0;
    }
    assert hdr[..4] == s[..4];
    len := hdr[0] as int + hdr[1] as int * 0x100 + hdr[2] as int * 0x1_0000 + hdr[3] as int * 0x100_0000;
    assert len == Announced(s[..4]);
    hide Announced;
    if len == 0 || len > MAX_FRAME {
      return null, len;
    }
    buf := new Byte[len + 1];
    ok := ReadExact(pipe, buf, len);
    if !ok {
      return null, 0;
    }
    assert s[4..][..len] == s[4..4 + len] && s[4..][len..] == s[4 + len..];
    buf[len] := 0;
    assert buf[..len] == s[4..4 + len];
  }
}
