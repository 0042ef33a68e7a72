/** The frames of the protocol as JSON values, how each side tells them apart, and the
    writer calls that build them. */
module Frames {
  import opened Json
  import opened JsonWriter
  import opened JsonRoundTrip
  import opened Wrappers
  import JsonDoc
  import JsonConforms
  import JsonGrammar

  const ID: Text := [0x69, 0x64]
  const METHOD: Text := [0x6D, 0x65, 0x74, 0x68, 0x6F, 0x64]
  const PARAMS: Text := [0x70, 0x61, 0x72, 0x61, 0x6D, 0x73]
  const RESULT: Text := [0x72, 0x65, 0x73, 0x75, 0x6C, 0x74]
  const ERROR: Text := [0x65, 0x72, 0x72, 0x6F, 0x72]
  const CODE: Text := [0x63, 0x6F, 0x64, 0x65]
  const MESSAGE: Text := [0x6D, 0x65, 0x73, 0x73, 0x61, 0x67, 0x65]
  const CB: Text := [0x63, 0x62]
  const SEQ: Text := [0x73, 0x65, 0x71]
  const HANDLE: Text := [0x68, 0x61, 0x6E, 0x64, 0x6C, 0x65]
  const ARGS: Text := [0x61, 0x72, 0x67, 0x73]
  const CBSEQ: Text := [0x63, 0x62, 0x73, 0x65, 0x71]
  const RET: Text := [0x40, 0x72, 0x65, 0x74]

  /** How a handler ended. */
  datatype Outcome = Done(result: Json) | Failed(code: int, message: Text)

  /** What one side tells the other. */
  datatype Message =
    | Request(id: int, name: Text, params: Json)
    | Reply(id: int, outcome: Outcome)
    | Callback(seq': int, kind: Text, handle: int, args: Json)
    | Answer(seq': int, ret: int)

  function Members(kids: seq<Kid>): Json { Group(true, kids) }

  /** The JSON of a message. */
  function Frame(m: Message): Json {
    match m
    case Request(id, name, params) => Members([Kid(ID, Num(id)), Kid(METHOD, Str(name)), Kid(PARAMS, params)])
    case Reply(id, Done(result)) => Members([Kid(ID, Num(id)), Kid(RESULT, result)])
    case Reply(id, Failed(code, message)) =>
      Members([Kid(ID, Num(id)), Kid(ERROR, Members([Kid(CODE, Num(code)), Kid(MESSAGE, Str(message))]))])
    case Callback(n, kind, handle, args) =>
      Members([Kid(CB, Str(kind)), Kid(SEQ, Num(n)), Kid(HANDLE, Num(handle)), Kid(ARGS, args)])
    case Answer(n, ret) => Members([Kid(CBSEQ, Num(n)), Kid(RET, Num(ret))])
  }

  predicate Fits(n: int) { INT64_MIN <= n <= INT64_MAX }

  predicate Carries(v: Json) { Writable(v) && Depth(v) < MAX_DEPTH }

  /** Messages the generated code makes: 64-bit numbers, C strings, and values that nest
      at least one level less than the reader goes. */
  predicate Sendable(m: Message) {
    match m
    case Request(id, name, params) => Fits(id) && NulFree(name) && Carries(params)
    case Reply(id, Done(result)) => Fits(id) && Carries(result)
    case Reply(id, Failed(code, message)) => Fits(id) && Fits(code) && NulFree(message)
    case Callback(n, kind, handle, args) => Fits(n) && NulFree(kind) && Fits(handle) && Carries(args)
    case Answer(n, ret) => Fits(n) && Fits(ret)
  }

  // ---------------------------------------------------------------- lookups

  /** The first member of that name. */
  function Lookup(kids: seq<Kid>, key: Text): Option<Json> {
    if kids == [] then None
    else if JsonDoc.CString(kids[0].key) == key then Some(kids[0].val)
    else Lookup(kids[1..], key)
  }

  function Get(v: Json, key: Text): Option<Json> {
    if v.Group? && v.isObj then Lookup(v.kids, key) else None
  }

  /** A number out of a lookup, a boolean as 0 or 1. */
  function NumberOr(v: Option<Json>, dflt: int): int {
    match v
    case Some(Num(n)) => n
    case Some(Bool(b)) => if b then 1 else 0
    case _ => dflt
  }

  function StringOf(v: Option<Json>): Option<Text> {
    match v
    case Some(Str(s)) => Some(JsonDoc.CString(s))
    case _ => None
  }

  lemma {:induction false} LookupIsFirstKeyFrom(kids: seq<Kid>, key: Text, k: nat)
    requires k <= |kids|
    ensures var i := JsonDoc.FirstKey(kids, key, k);
            Lookup(kids[k..], key) == if i < |kids| then Some(kids[i].val) else None
    decreases |kids| - k
  {
    if k < |kids| && JsonDoc.CString(kids[k].key) != key {
      assert kids[k..][1..] == kids[k + 1..];
      LookupIsFirstKeyFrom(kids, key, k + 1);
    }
  }

  /** A member found by walking the nodes is the one this looks up. */
  lemma {:induction false} LookupIsFirstKey(kids: seq<Kid>, key: Text)
    ensures var i := JsonDoc.FirstKey(kids, key, 0);
            Lookup(kids, key) == if i < |kids| then Some(kids[i].val) else None
  {
    assert kids[0..] == kids;
    LookupIsFirstKeyFrom(kids, key, 0);
  }

  lemma {:induction false} CStringOfNulFree(s: Text)
    requires NulFree(s)
    ensures JsonDoc.CString(s) == s
  {
    if s != [] {
      CStringOfNulFree(s[1..]);
    }
  }

  /** The keys are their own C strings. */
  lemma {:induction false} KeysAreCStrings()
    ensures forall k :: k in {ID, METHOD, PARAMS, RESULT, ERROR, CODE, MESSAGE, CB, SEQ, HANDLE, ARGS, CBSEQ, RET} ==>
              JsonDoc.CString(k) == k
  {
    KeysAreNulFree();
    forall k | k in {ID, METHOD, PARAMS, RESULT, ERROR, CODE, MESSAGE, CB, SEQ, HANDLE, ARGS, CBSEQ, RET}
      ensures JsonDoc.CString(k) == k
    {
      CStringOfNulFree(k);
    }
  }

  lemma {:induction false} KeysAreNulFree()
    ensures NulFree(ID) && NulFree(METHOD) && NulFree(PARAMS) && NulFree(RESULT) && NulFree(ERROR) && NulFree(CODE)
    ensures NulFree(MESSAGE) && NulFree(CB) && NulFree(SEQ) && NulFree(HANDLE) && NulFree(ARGS) && NulFree(CBSEQ) &&
            NulFree(RET)
  {
  }


  lemma {:induction false} LookupTwo(a: Kid, b: Kid, key: Text)
    requires JsonDoc.CString(a.key) == a.key && JsonDoc.CString(b.key) == b.key
    ensures Lookup([a, b], key) ==
            if a.key == key then Some(a.val) else if b.key == key then Some(b.val) else None
  {
    assert [a, b][1..] == [b];
    assert [b][1..] == [];
    assert Lookup([], key).None?;
  }

  lemma {:induction false} LookupThree(a: Kid, b: Kid, c: Kid, key: Text)
    requires JsonDoc.CString(a.key) == a.key && JsonDoc.CString(b.key) == b.key && JsonDoc.CString(c.key) == c.key
    ensures Lookup([a, b, c], key) ==
            if a.key == key then Some(a.val) else if b.key == key then Some(b.val)
            else if c.key == key then Some(c.val) else None
  {
    assert [a, b, c][1..] == [b, c];
    LookupTwo(b, c, key);
  }

  lemma {:induction false} LookupFour(a: Kid, b: Kid, c: Kid, d: Kid, key: Text)
    requires JsonDoc.CString(a.key) == a.key && JsonDoc.CString(b.key) == b.key
    requires JsonDoc.CString(c.key) == c.key && JsonDoc.CString(d.key) == d.key
    ensures Lookup([a, b, c, d], key) ==
            if a.key == key then Some(a.val) else if b.key == key then Some(b.val)
            else if c.key == key then Some(c.val) else if d.key == key then Some(d.val)
              else None
  {
    assert [a, b, c, d][1..] == [b, c, d];
    LookupThree(b, c, d, key);
  }

  lemma {:induction false} KeysDiffer()
    ensures ID != METHOD && ID != PARAMS && ID != RESULT && ID != ERROR && ID != CB && ID != CBSEQ && ID != RET
    ensures METHOD != PARAMS && METHOD != RESULT && METHOD != ERROR && METHOD != CB && METHOD != SEQ
    ensures METHOD != HANDLE && METHOD != ARGS && METHOD != CBSEQ && METHOD != RET
    ensures CB != PARAMS && CB != RESULT && CB != ERROR && CB != SEQ && CB != HANDLE && CB != ARGS && CB != CBSEQ &&
            CB != RET
    ensures RESULT != ERROR && SEQ != HANDLE && SEQ != ARGS && HANDLE != ARGS && CBSEQ != RET
  {
    assert ID[0] == 0x69 && METHOD[0] == 0x6D && PARAMS[0] == 0x70 && RESULT[0] == 0x72 && ERROR[0] == 0x65;
    assert CB[0] == 0x63 && SEQ[0] == 0x73 && HANDLE[0] == 0x68 && ARGS[0] == 0x61 && RET[0] == 0x40;
    assert |CB| != |CBSEQ| && CBSEQ[0] == 0x63;
  }

  // --------------------------------------------------- telling frames apart

  /** What each side's lookups find in a request, and do not. */
  lemma {:induction false} RequestIsRequest(id: int, name: Text, params: Json)
    requires NulFree(name)
    ensures var f := Frame(Request(id, name, params));
            && Get(f, CB).None? && Get(f, METHOD).Some? && NumberOr(Get(f, ID), 0) == id
            && StringOf(Get(f, METHOD)) == Some(name) && Get(f, PARAMS) == Some(params)
  {
    hide Lookup, JsonDoc.CString;
    KeysAreCStrings();
    KeysDiffer();
    CStringOfNulFree(name);
    var a, b, c := Kid(ID, Num(id)), Kid(METHOD, Str(name)), Kid(PARAMS, params);
    LookupThree(a, b, c, CB);
    LookupThree(a, b, c, METHOD);
    LookupThree(a, b, c, ID);
    LookupThree(a, b, c, PARAMS);
  }

  lemma {:induction false} ReplyIsReply(id: int, outcome: Outcome)
    ensures var f := Frame(Reply(id, outcome));
            && Get(f, CB).None? && Get(f, METHOD).None? && NumberOr(Get(f, ID), -1) == id
            && (outcome.Done? ==> Get(f, ERROR).None? && Get(f, RESULT) == Some(outcome.result))
            && (outcome.Failed? ==> Get(f, ERROR).Some?)
  {
    KeysAreCStrings();
    KeysDiffer();
    var a := Kid(ID, Num(id));
    var b := match outcome
      case Done(result) => Kid(RESULT, result)
      case Failed(code, message) => Kid(ERROR, Members([Kid(CODE, Num(code)), Kid(MESSAGE, Str(message))]));
    LookupTwo(a, b, CB);
    LookupTwo(a, b, METHOD);
    LookupTwo(a, b, ID);
    LookupTwo(a, b, ERROR);
    LookupTwo(a, b, RESULT);
  }

  /** What the client reports of a failure is what the server said. */
  lemma {:induction false} FailureIsReported(id: int, code: int, message: Text)
    requires NulFree(message)
    ensures var e := Get(Frame(Reply(id, Failed(code, message))), ERROR);
            e.Some? && NumberOr(Get(e.value, CODE), 0) == code &&
                StringOf(Get(e.value, MESSAGE)) == Some(message)
  {
    hide Lookup, JsonDoc.CString;
    KeysAreCStrings();
    KeysDiffer();
    CStringOfNulFree(message);
    var a, b := Kid(CODE, Num(code)), Kid(MESSAGE, Str(message));
    LookupTwo(Kid(ID, Num(id)), Kid(ERROR, Members([a, b])), ERROR);
    LookupTwo(a, b, CODE);
    assert CODE[0] != MESSAGE[0];
    LookupTwo(a, b, MESSAGE);
  }

  lemma {:induction false} CallbackIsCallback(n: int, kind: Text, handle: int, args: Json)
    requires NulFree(kind)
    ensures var f := Frame(Callback(n, kind, handle, args));
            && Get(f, CB).Some? && StringOf(Get(f, CB)) == Some(kind) && NumberOr(Get(f, SEQ), 0) == n
            && NumberOr(Get(f, HANDLE), 0) == handle && Get(f, ARGS) == Some(args)
  {
    hide Lookup, JsonDoc.CString;
    KeysAreCStrings();
    KeysDiffer();
    CStringOfNulFree(kind);
    var a, b, c, d := Kid(CB, Str(kind)), Kid(SEQ, Num(n)), Kid(HANDLE, Num(handle)), Kid(ARGS, args);
    LookupFour(a, b, c, d, CB);
    LookupFour(a, b, c, d, SEQ);
    LookupFour(a, b, c, d, HANDLE);
    LookupFour(a, b, c, d, ARGS);
  }

  lemma {:induction false} AnswerIsAnswer(n: int, ret: int, dflt: int)
    ensures var f := Frame(Answer(n, ret));
            && Get(f, METHOD).None? && NumberOr(Get(f, CBSEQ), -1) == n && NumberOr(Get(f, RET), dflt) == ret
  {
    KeysAreCStrings();
    KeysDiffer();
    var a, b := Kid(CBSEQ, Num(n)), Kid(RET, Num(ret));
    LookupTwo(a, b, METHOD);
    LookupTwo(a, b, CBSEQ);
    LookupTwo(a, b, RET);
  }

  // -------------------------------------------------------------- as values

  /** An object is as writable and as deep as its members. */
  lemma {:induction false} ShallowMember(kid: Kid, kids: seq<Kid>, bound: nat)
    requires NulFree(kid.key) && Writable(kid.val) && Depth(kid.val) < bound
    requires WritableKids(true, kids) && DepthOfKids(kids) < bound
    ensures WritableKids(true, [kid] + kids) && DepthOfKids([kid] + kids) < bound
  {
    assert ([kid] + kids)[1..] == kids;
  }

  lemma {:induction false} TwoMembers(a: Kid, b: Kid, bound: nat)
    requires bound > 0 && NulFree(a.key) && Writable(a.val) && Depth(a.val) < bound
    requires NulFree(b.key) && Writable(b.val) && Depth(b.val) < bound
    ensures Writable(Members([a, b])) && Depth(Members([a, b])) <= bound
    ensures WritableKids(true, [a, b]) && DepthOfKids([a, b]) < bound
  {
    ShallowMember(b, [], bound);
    assert [b] + [] == [b];
    ShallowMember(a, [b], bound);
    assert [a] + [b] == [a, b];
  }

  lemma {:induction false} ThreeMembers(a: Kid, b: Kid, c: Kid, bound: nat)
    requires bound > 0 && NulFree(a.key) && Writable(a.val) && Depth(a.val) < bound
    requires NulFree(b.key) && Writable(b.val) && Depth(b.val) < bound
    requires NulFree(c.key) && Writable(c.val) && Depth(c.val) < bound
    ensures Writable(Members([a, b, c])) && Depth(Members([a, b, c])) <= bound
    ensures WritableKids(true, [a, b, c]) && DepthOfKids([a, b, c]) < bound
  {
    TwoMembers(b, c, bound);
    ShallowMember(a, [b, c], bound);
    assert [a] + [b, c] == [a, b, c];
  }

  lemma {:induction false} CallbackIsWritable(n: int, kind: Text, handle: int, args: Json)
    requires Sendable(Callback(n, kind, handle, args))
    ensures var f := Frame(Callback(n, kind, handle, args)); Writable(f) && Depth(f) <= MAX_DEPTH
  {
    KeysAreNulFree();
    var a, b, c, d := Kid(CB, Str(kind)), Kid(SEQ, Num(n)), Kid(HANDLE, Num(handle)), Kid(ARGS, args);
    ThreeMembers(b, c, d, MAX_DEPTH);
    ShallowMember(a, [b, c, d], MAX_DEPTH);
    assert [a] + [b, c, d] == [a, b, c, d];
  }

  lemma {:induction false} ReplyIsWritable(id: int, outcome: Outcome)
    requires Sendable(Reply(id, outcome))
    ensures var f := Frame(Reply(id, outcome)); Writable(f) && Depth(f) <= MAX_DEPTH
  {
    KeysAreNulFree();
    match outcome
    case Done(result) =>
      TwoMembers(Kid(ID, Num(id)), Kid(RESULT, result), MAX_DEPTH);
    case Failed(code, message) =>
      TwoMembers(Kid(CODE, Num(code)), Kid(MESSAGE, Str(message)), 1);
      TwoMembers(Kid(ID, Num(id)), Kid(ERROR, Members([Kid(CODE, Num(code)), Kid(MESSAGE, Str(message))])), MAX_DEPTH);
  }

  /** Every message is read back as it was sent. */
  lemma {:induction false} FrameIsReadBack(m: Message)
    requires Sendable(m)
    ensures Writable(Frame(m)) && Depth(Frame(m)) <= MAX_DEPTH
    ensures Parse(Print(Frame(m))) == Got(Frame(m), [])
  {
    match m {
      case Request(id, name, params) =>
        KeysAreNulFree();
        ThreeMembers(Kid(ID, Num(id)), Kid(METHOD, Str(name)), Kid(PARAMS, params), MAX_DEPTH);
      case Reply(id, outcome) =>
        ReplyIsWritable(id, outcome);
      case Callback(n, kind, handle, args) =>
        CallbackIsWritable(n, kind, handle, args);
      case Answer(n, ret) =>
        KeysAreNulFree();
        TwoMembers(Kid(CBSEQ, Num(n)), Kid(RET, Num(ret)), MAX_DEPTH);
    }
    RoundTrip(Frame(m));
  }

  // ------------------------------------------------------------- as JSON text

  function Ascii(s: string): Text { if s == [] then [] else [s[0] as int % 256] + Ascii(s[1..]) }

  /** The texts on the wire are JSON, by the standard's own grammar, for objects of these
      members. */
  lemma {:induction false} FramesSay(m: Message)
    requires Sendable(m)
    ensures var text := Print(Frame(m));
            match m
            case Request(id, name, params) =>
              JsonGrammar.Denotes(true, text, Group(true,
                [Kid(Ascii("id"), Num(id)), Kid(Ascii("method"), Str(name)), Kid(Ascii("params"), params)]))
            case Reply(id, Done(result)) =>
              JsonGrammar.Denotes(true, text, Group(true, [Kid(Ascii("id"), Num(id)), Kid(Ascii("result"), result)]))
            case Reply(id, Failed(code, message)) =>
              JsonGrammar.Denotes(true, text, Group(true,
                [Kid(Ascii("id"), Num(id)),
                 Kid(Ascii("error"), Group(true,
                   [Kid(Ascii("code"), Num(code)), Kid(Ascii("message"), Str(message))]))]))
            case Callback(n, kind, handle, args) =>
              JsonGrammar.Denotes(true, text, Group(true,
                [Kid(Ascii("cb"), Str(kind)), Kid(Ascii("seq"), Num(n)), Kid(Ascii("handle"), Num(handle)),
                 Kid(Ascii("args"), args)]))
            case Answer(n, ret) =>
              JsonGrammar.Denotes(true, text, Group(true,
                [Kid(Ascii("cbseq"), Num(n)), Kid(Ascii("@ret"), Num(ret))]))
  {
    FrameIsReadBack(m);
    JsonConforms.PrintIsJson(Frame(m));
    KeysSay();
    hide JsonGrammar.Denotes, Print, Ascii;
  }

  lemma {:induction false} KeysSay()
    ensures Ascii("id") == ID && Ascii("method") == METHOD && Ascii("params") == PARAMS && Ascii("result") == RESULT
    ensures Ascii("error") == ERROR && Ascii("code") == CODE && Ascii("message") == MESSAGE && Ascii("cb") == CB
    ensures Ascii("seq") == SEQ && Ascii("handle") == HANDLE && Ascii("args") == ARGS && Ascii("cbseq") == CBSEQ
    ensures Ascii("@ret") == RET
  {
    AsciiOf("id");
    AsciiOf("method");
    AsciiOf("params");
    AsciiOf("result");
    AsciiOf("error");
    AsciiOf("code");
    AsciiOf("message");
    AsciiOf("cb");
    AsciiOf("seq");
    AsciiOf("handle");
    AsciiOf("args");
    AsciiOf("cbseq");
    AsciiOf("@ret");
    hide Ascii;
  }

  lemma {:induction false} AsciiOf(s: string)
    ensures |Ascii(s)| == |s| && forall i :: 0 <= i < |s| ==> Ascii(s)[i] == s[i] as int % 256
  {
    if s != [] {
      AsciiOf(s[1..]);
    }
  }

  // ------------------------------------------------------------ no NUL bytes

  lemma {:induction false} EscapeHasNoNul(s: Text)
    requires NulFree(s)
    ensures NulFree(Escape(s))
  {
    if s != [] {
      EscapeHasNoNul(s[1..]);
    }
  }

  lemma {:induction false} DigitsHaveNoNul(u: nat)
    ensures NulFree(Digits(u))
    decreases u
  {
    if u >= 10 {
      DigitsHaveNoNul(u / 10);
    }
  }

  /** Printed text holds no NUL, so a frame's C length is its length. */
  lemma {:induction false} PrintHasNoNul(v: Json)
    requires Writable(v)
    ensures NulFree(Print(v))
    decreases Size(v), 0
  {
    match v
    case Null =>
    case Num(n) => DigitsHaveNoNul(if n < 0 then -n else n);
    case Str(s) => EscapeHasNoNul(s);
    case Group(isObj, kids) => KidsHaveNoNul(isObj, kids, false);
  }

  lemma {:induction false} KidsHaveNoNul(isObj: bool, kids: seq<Kid>, comma: bool)
    requires WritableKids(isObj, kids)
    ensures NulFree(PrintKids(isObj, kids, comma))
    decreases SizeOfKids(kids), 1
  {
    if kids != [] {
      EscapeHasNoNul(kids[0].key);
      PrintHasNoNul(kids[0].val);
      KidsHaveNoNul(isObj, kids[1..], true);
    }
  }

  // ------------------------------------------------------- building by calls

  lemma {:induction false} Joined(isObj: bool, a: seq<Kid>, kid: Kid, comma: bool)
    ensures PrintKids(isObj, a + [kid], comma) ==
            PrintKids(isObj, a, comma) + Separator(comma || a != []) + KeyText(isObj, kid.key) + Print(kid.val)
    decreases |a|
  {
    if a == [] {
      assert [] + [kid] == [kid] && [kid][1..] == [];
      assert PrintKids(isObj, [], true) == [];
    } else {
      assert (a + [kid])[1..] == a[1..] + [kid];
      Joined(isObj, a[1..], kid, true);
      FourMore(Separator(comma) + KeyText(isObj, a[0].key) + Print(a[0].val),
               PrintKids(isObj, a[1..], true), Separator(true), KeyText(isObj, kid.key), Print(kid.val));
    }
  }

  lemma {:induction false} FourMore(a: Text, b: Text, c: Text, d: Text, e: Text)
    ensures a + (b + c + d + e) == a + b + c + d + e
  {
  }

  /** An object half written: its first members are in the buffer. */
  ghost predicate Begun(w: Writer, kids: seq<Kid>)
    reads w, w.buf
  {
    w.Valid() && w.Out() == [Open(true)] + PrintKids(true, kids, false) && w.needComma == (kids != [])
  }

  lemma {:induction false} BegunOneMore(out: Text, kids: seq<Kid>, kid: Kid)
    requires out == [Open(true)] + PrintKids(true, kids, false)
    ensures out + Separator(kids != []) + KeyText(true, kid.key) + [] + Print(kid.val) ==
            [Open(true)] + PrintKids(true, kids + [kid], false)
  {
    Joined(true, kids, kid, false);
    FourMore([Open(true)], PrintKids(true, kids, false), Separator(kids != []), KeyText(true, kid.key), Print(kid.val));
  }

  method BeginObject(ghost kids: seq<Kid>) returns (w: Writer)
    ensures fresh(w) && fresh(w.buf) && Begun(w, kids[..0])
  {
    w := new Writer();
    w.Begin(true);
  }

  /** The next member, its value written in place. */
  method PutMember(w: Writer, key: Text, v: Json, ghost kids: seq<Kid>, ghost i: nat)
    requires i < |kids| && kids[i] == Kid(key, v) && Begun(w, kids[..i]) && NulFree(key) && Writable(v)
    modifies w, w.buf
    ensures (w.buf == old(w.buf) || fresh(w.buf)) && Begun(w, kids[..i + 1])
  {
    w.Key(key);
    ghost var keyed := w.Out();
    WriteValue(w, v);
    OneMemberMore(old(w.Out()), keyed, w.Out(), kids, i);
  }

  /** The next member, another writer's text spliced in verbatim: the same as writing the
      value that text shows. */
  method SpliceMember(w: Writer, key: Text, text: Text, ghost v: Json, ghost kids: seq<Kid>, ghost i: nat)
    requires i < |kids| && kids[i] == Kid(key, v) && Begun(w, kids[..i]) && NulFree(key) && text == Print(v)
    modifies w, w.buf
    ensures (w.buf == old(w.buf) || fresh(w.buf)) && Begun(w, kids[..i + 1])
  {
    w.Key(key);
    ghost var keyed := w.Out();
    w.Raw(text);
    assert keyed + [] == keyed;
    OneMemberMore(old(w.Out()), keyed, w.Out(), kids, i);
  }

  lemma {:induction false} OneMemberMore(out: Text, keyed: Text, whole: Text, kids: seq<Kid>, i: nat)
    requires i < |kids| && out == [Open(true)] + PrintKids(true, kids[..i], false)
    requires keyed == out + Separator(kids[..i] != []) + KeyText(true, kids[i].key)
    requires whole == keyed + [] + Print(kids[i].val)
    ensures whole == [Open(true)] + PrintKids(true, kids[..i + 1], false)
  {
    assert kids[..i + 1] == kids[..i] + [kids[i]];
    BegunOneMore(out, kids[..i], kids[i]);
  }

  method EndObject(w: Writer, ghost kids: seq<Kid>) returns (text: Text)
    requires Begun(w, kids[..|kids|])
    modifies w, w.buf
    ensures text == Print(Members(kids))
  {
    assert kids[..|kids|] == kids;
    w.End(true);
    text := w.buf[..w.len];
  }

  /** A reply as far as its id. */
  method BeginReply(id: int, ghost kids: seq<Kid>) returns (w: Writer)
    requires kids != [] && kids[0] == Kid(ID, Num(id)) && Fits(id)
    ensures fresh(w) && fresh(w.buf) && Begun(w, kids[..1])
  {
    KeysAreNulFree();
    w := BeginObject(kids);
    PutMember(w, ID, Num(id), kids, 0);
  }

  /** A request as far as its method's name. */
  method BeginCall(id: int, name: Text, ghost kids: seq<Kid>) returns (w: Writer)
    requires |kids| > 1 && kids[0] == Kid(ID, Num(id)) && kids[1] == Kid(METHOD, Str(name)) && Fits(id) && NulFree(name)
    ensures fresh(w) && fresh(w.buf) && Begun(w, kids[..2])
  {
    KeysAreNulFree();
    w := BeginReply(id, kids);
    PutMember(w, METHOD, Str(name), kids, 1);
  }

  method WriteRequest(id: int, name: Text, params: Json) returns (text: Text)
    requires Sendable(Request(id, name, params))
    ensures text == Print(Frame(Request(id, name, params)))
  {
    hide Begun, Print, NulFree;
    KeysAreNulFree();
    ghost var kids := Frame(Request(id, name, params)).kids;
    var w := BeginCall(id, name, kids);
    PutMember(w, PARAMS, params, kids, 2);
    text := EndObject(w, kids);
  }

  /** A result, spliced in from the handler's own writer. */
  method WriteResult(id: int, out: Text, ghost result: Json) returns (text: Text)
    requires Fits(id) && out == Print(result)
    ensures text == Print(Frame(Reply(id, Done(result))))
  {
    hide Begun, Print, NulFree;
    KeysAreNulFree();
    ghost var kids := Frame(Reply(id, Done(result))).kids;
    var w := BeginReply(id, kids);
    SpliceMember(w, RESULT, out, result, kids, 1);
    text := EndObject(w, kids);
  }

  method WriteError(id: int, code: int, message: Text) returns (text: Text)
    requires Sendable(Reply(id, Failed(code, message)))
    ensures text == Print(Frame(Reply(id, Failed(code, message))))
  {
    hide Begun, Print, NulFree;
    KeysAreNulFree();
    TwoMembers(Kid(CODE, Num(code)), Kid(MESSAGE, Str(message)), 1);
    ghost var kids := Frame(Reply(id, Failed(code, message))).kids;
    var w := BeginReply(id, kids);
    PutMember(w, ERROR, Members([Kid(CODE, Num(code)), Kid(MESSAGE, Str(message))]), kids, 1);
    text := EndObject(w, kids);
  }

  /** A callback as far as its handle. */
  method BeginCallback(n: int, kind: Text, handle: int, ghost kids: seq<Kid>) returns (w: Writer)
    requires |kids| > 2 && Fits(n) && NulFree(kind) && Fits(handle)
    requires kids[0] == Kid(CB, Str(kind)) && kids[1] == Kid(SEQ, Num(n)) && kids[2] == Kid(HANDLE, Num(handle))
    ensures fresh(w) && fresh(w.buf) && Begun(w, kids[..3])
  {
    KeysAreNulFree();
    w := BeginObject(kids);
    PutMember(w, CB, Str(kind), kids, 0);
    PutMember(w, SEQ, Num(n), kids, 1);
    PutMember(w, HANDLE, Num(handle), kids, 2);
  }

  /** A callback, its arguments spliced in, or null if it has none. */
  method WriteCallback(n: int, kind: Text, handle: int, hasArgs: bool, argsText: Text, ghost args: Json)
                       returns (text: Text)
    requires Fits(n) && NulFree(kind) && Fits(handle) && (if hasArgs then argsText == Print(args) else args == Null)
    ensures text == Print(Frame(Callback(n, kind, handle, args)))
  {
    hide Begun, Print, NulFree;
    KeysAreNulFree();
    ghost var kids := Frame(Callback(n, kind, handle, args)).kids;
    var w := BeginCallback(n, kind, handle, kids);
    if hasArgs {
      SpliceMember(w, ARGS, argsText, args, kids, 3);
    } else {
      PutMember(w, ARGS, Null, kids, 3);
    }
    text := EndObject(w, kids);
  }

  method WriteAnswer(n: int, ret: int) returns (text: Text)
    requires Fits(n) && Fits(ret)
    ensures text == Print(Frame(Answer(n, ret)))
  {
    hide Begun, Print, NulFree;
    KeysAreNulFree();
    ghost var kids := Frame(Answer(n, ret)).kids;
    var w := BeginObject(kids);
    PutMember(w, CBSEQ, Num(n), kids, 0);
    PutMember(w, RET, Num(ret), kids, 1);
    text := EndObject(w, kids);
  }
}
