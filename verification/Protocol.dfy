/** Calls and callbacks nested in each other over one pipe.  A client call sends a request
    and then reads frames until its reply; the server, part-way through a request, may send
    a callback and then reads frames until its answer; both serve what else arrives in
    between.  The two sides as a step relation over texts, and what every run keeps. */
module Protocol {
  import opened Json
  import opened Wrappers
  import opened Frames
  import Framing

  const E_PARSE: int := -32700
  const E_INVALID_REQ: int := -32600
  const MALFORMED: Text := [0x6D, 0x61, 0x6C, 0x66, 0x6F, 0x72, 0x6D, 0x65, 0x64, 0x20, 0x4A, 0x53, 0x4F, 0x4E]
  const NO_METHOD: Text := [0x6D, 0x69, 0x73, 0x73, 0x69, 0x6E, 0x67, 0x20, 0x6D, 0x65, 0x74, 0x68, 0x6F, 0x64]

  /** An exchange in progress: on the client a call waiting for its reply or a callback
      being served, on the server a request being handled or a callback waiting. */
  datatype Level = Call(id: int) | Cb(seq': int)

  /** The logs are of messages in the order they were sent, and as their receivers
      understood them. */
  datatype State = State(
    client: seq<Level>, server: seq<Level>,
    up: seq<Text>, down: seq<Text>,
    nextId: int, nextSeq: int,
    connected: bool, outOfStep: bool,
    sent: seq<Message>, taken: seq<Message>)

  const INITIAL: State := State([], [], [], [], 1, 1, true, false, [], [])

  datatype Event =
    | ClientCalls(name: Text, params: Json)
    | ClientAnswers(ret: int)
    | ClientReceives
    | ServerReplies(outcome: Outcome)
    | ServerAsks(kind: Text, handle: int, args: Json)
    | ServerReceives(dflt: int)

  function Top(levels: seq<Level>): Level
    requires levels != []
  {
    levels[|levels| - 1]
  }

  function Popped(levels: seq<Level>): seq<Level>
    requires levels != []
  {
    levels[..|levels| - 1]
  }

  /** The caller's own code runs: outside any call, or inside a callback. */
  predicate ClientRuns(s: State) { s.client == [] || Top(s.client).Cb? }

  /** A handler runs. */
  predicate ServerRuns(s: State) { s.server != [] && Top(s.server).Call? }

  // ------------------------------------------------------------------ steps

  /** A message that can be sent and whose frame the other side takes. */
  predicate Passes(m: Message) { Sendable(m) && |Print(Frame(m))| <= Framing.MAX_FRAME }

  predicate Enabled(s: State, e: Event) {
    s.connected &&
    match e
    case ClientCalls(name, params) => ClientRuns(s) && Passes(Request(s.nextId, name, params))
    case ClientAnswers(ret) => ClientRuns(s) && s.client != [] && Passes(Answer(Top(s.client).seq', ret))
    case ClientReceives => !ClientRuns(s) && s.down != []
    case ServerReplies(outcome) => ServerRuns(s) && Passes(Reply(Top(s.server).id, outcome))
    case ServerAsks(kind, handle, args) => ServerRuns(s) && Passes(Callback(s.nextSeq, kind, handle, args))
    case ServerReceives(_) => !ServerRuns(s) && s.up != []
  }

  function SendUp(s: State, m: Message): State { s.(up := s.up + [Print(Frame(m))], sent := s.sent + [m]) }

  function SendDown(s: State, m: Message): State { s.(down := s.down + [Print(Frame(m))], sent := s.sent + [m]) }

  function Take(s: State, m: Message): State { s.(taken := s.taken + [m]) }

  /** A frame no side can make sense of ends the client's connection. */
  function GiveUp(s: State): State { s.(connected := false, outOfStep := true) }

  /** A frame reaches a client waiting for a reply. */
  function ClientTakes(s: State, text: Text): State
    requires s.client != [] && Top(s.client).Call?
  {
    var p := Parse(text);
    if p.Fail? then GiveUp(s)
    else if Get(p.v, CB).Some? then
      var n := NumberOr(Get(p.v, SEQ), 0);
      var m := Callback(n, StringOf(Get(p.v, CB)).UnwrapOr([]), NumberOr(Get(p.v, HANDLE), 0),
                        Get(p.v, ARGS).UnwrapOr(Null));
      Take(s.(client := s.client + [Cb(n)]), m)
    else if NumberOr(Get(p.v, ID), -1) != Top(s.client).id then GiveUp(s)
    else Take(s.(client := Popped(s.client)), Reply(Top(s.client).id, OutcomeOf(p.v)))
  }

  function OutcomeOf(v: Json): Outcome {
    var e := Get(v, ERROR);
    if e.Some? then Failed(NumberOr(Get(e.value, CODE), 0), StringOf(Get(e.value, MESSAGE)).UnwrapOr(ERROR))
    else if Get(v, RESULT).Some? then Done(Get(v, RESULT).value)
    else Failed(0, [])
  }

  /** A parsed request: a handler starts on it, unless it names no method. */
  function ServerHandles(s: State, v: Json): State {
    var id, name := NumberOr(Get(v, ID), 0), StringOf(Get(v, METHOD));
    if name.None? then SendDown(s.(outOfStep := true), Reply(id, Failed(E_INVALID_REQ, NO_METHOD)))
    else Take(s.(server := s.server + [Call(id)]), Request(id, name.value, Get(v, PARAMS).UnwrapOr(Null)))
  }

  /** A frame reaches a server between requests, or one waiting for an answer. */
  function ServerTakes(s: State, text: Text, dflt: int): State
    requires !ServerRuns(s)
  {
    var p := Parse(text);
    if s.server == [] then
      if p.Fail? then SendDown(s.(outOfStep := true), Reply(0, Failed(E_PARSE, MALFORMED))) else ServerHandles(s, p.v)
    else if p.Got? && Get(p.v, METHOD).Some? then ServerHandles(s, p.v)
    else
      var n := Top(s.server).seq';
      var done := s.(server := Popped(s.server));
      if p.Got? && NumberOr(Get(p.v, CBSEQ), -1) == n then Take(done, Answer(n, NumberOr(Get(p.v, RET), dflt)))
      else done.(outOfStep := true)
  }

  function Step(s: State, e: Event): State
    requires Enabled(s, e)
  {
    match e
    case ClientCalls(name, params) =>
      SendUp(s.(client := s.client + [Call(s.nextId)], nextId := s.nextId + 1), Request(s.nextId, name, params))
    case ClientAnswers(ret) => SendUp(s.(client := Popped(s.client)), Answer(Top(s.client).seq', ret))
    case ClientReceives => ClientTakes(s.(down := s.down[1..]), s.down[0])
    case ServerReplies(outcome) => SendDown(s.(server := Popped(s.server)), Reply(Top(s.server).id, outcome))
    case ServerAsks(kind, handle, args) =>
      SendDown(s.(server := s.server + [Cb(s.nextSeq)], nextSeq := s.nextSeq + 1),
               Callback(s.nextSeq, kind, handle, args))
    case ServerReceives(dflt) => ServerTakes(s.(up := s.up[1..]), s.up[0], dflt)
  }

  // ------------------------------------------------------------- transcripts

  /** What a message does to the exchanges in progress, if it may come there: calls start
      outside callbacks' questions and end innermost first. */
  function After(open: Option<seq<Level>>, m: Message): Option<seq<Level>> {
    if open.None? then None
    else
      var st := open.value;
      match m
      case Request(id, _, _) => if st == [] || Top(st).Cb? then Some(st + [Call(id)]) else None
      case Reply(id, _) => if st != [] && Top(st) == Call(id) then Some(Popped(st)) else None
      case Callback(n, _, _, _) => if st != [] && Top(st).Call? then Some(st + [Cb(n)]) else None
      case Answer(n, _) => if st != [] && Top(st) == Cb(n) then Some(Popped(st)) else None
  }

  /** The exchanges a transcript leaves open, if it is properly nested. */
  function Nest(ms: seq<Message>): Option<seq<Level>> {
    if ms == [] then Some([]) else After(Nest(ms[..|ms| - 1]), ms[|ms| - 1])
  }

  predicate ToServer(m: Message) { m.Request? || m.Answer? }

  lemma {:induction false} NestOneMore(ms: seq<Message>, m: Message)
    ensures Nest(ms + [m]) == After(Nest(ms), m)
  {
    assert (ms + [m])[..|ms|] == ms;
  }

  /** Calls and callbacks take turns, a call outermost. */
  predicate Alternates(levels: seq<Level>) { forall i :: 0 <= i < |levels| ==> levels[i].Call? == (i % 2 == 0) }

  lemma {:induction false} NestAlternates(ms: seq<Message>)
    requires Nest(ms).Some?
    ensures Alternates(Nest(ms).value)
  {
    if ms != [] {
      NestAlternates(ms[..|ms| - 1]);
      AfterAlternates(Nest(ms[..|ms| - 1]).value, ms[|ms| - 1]);
      hide Alternates, After;
    }
  }

  lemma {:induction false} AfterAlternates(open: seq<Level>, m: Message)
    requires Alternates(open)
    ensures After(Some(open), m).Some? ==> Alternates(After(Some(open), m).value)
  {
    assert open != [] ==> Top(open).Call? == ((|open| - 1) % 2 == 0);
  }

  // --------------------------------------------------------------- invariant

  /** Nothing is on its way, and both sides see the same exchanges. */
  predicate Settled(s: State) {
    s.up == [] && s.down == [] && s.sent == s.taken && Nest(s.sent) == Some(s.client) && Nest(s.sent) == Some(s.server)
  }

  /** One message is on its way: its sender has moved on and its receiver has not. */
  predicate InFlight(s: State) {
    s.sent != [] &&
    var m := s.sent[|s.sent| - 1];
    && s.taken == s.sent[..|s.sent| - 1] && Passes(m)
    && (if ToServer(m)
        then s.up == [Print(Frame(m))] && s.down == []
             && Nest(s.sent) == Some(s.client) && Nest(s.taken) == Some(s.server)
        else s.down == [Print(Frame(m))] && s.up == []
             && Nest(s.sent) == Some(s.server) && Nest(s.taken) == Some(s.client))
  }

  predicate Inv(s: State) { s.connected && !s.outOfStep && (Settled(s) || InFlight(s)) }

  /** Whoever runs, nothing is on its way. */
  lemma {:induction false} RunningIsSettled(s: State)
    requires Inv(s) && (ClientRuns(s) || ServerRuns(s))
    ensures ClientRuns(s) && ServerRuns(s) ==> false
    ensures Settled(s)
  {
    hide Passes, Print, Frame, Nest, After, Alternates, ToServer, ClientRuns, ServerRuns;
    NestAlternates(s.sent);
    TopTells(s);
    if InFlight(s) {
      NestAlternates(s.taken);
      NestOneMore(s.taken, s.sent[|s.sent| - 1]);
      assert s.taken + [s.sent[|s.sent| - 1]] == s.sent;
      Flips(Nest(s.taken).value, s.sent[|s.sent| - 1]);
    }
  }

  /** By the height of its stack one can tell whether a side runs. */
  lemma {:induction false} TopTells(s: State)
    ensures Alternates(s.client) ==> ClientRuns(s) == (|s.client| % 2 == 0)
    ensures Alternates(s.server) ==> ServerRuns(s) == (|s.server| % 2 == 1)
  {
  }

  lemma {:induction false} Flips(open: seq<Level>, m: Message)
    requires Alternates(open) && After(Some(open), m).Some?
    ensures |open| % 2 == (if ToServer(m) then 0 else 1)
    ensures |After(Some(open), m).value| % 2 == (if ToServer(m) then 1 else 0)
  {
  }

  lemma {:induction false} SendUpKeeps(s: State, s1: State, m: Message)
    requires Inv(s) && Settled(s) && ToServer(m) && Passes(m)
    requires After(Some(s.client), m) == Some(s1.client)
    requires s1 == s.(client := s1.client, nextId := s1.nextId)
    ensures Inv(SendUp(s1, m)) && InFlight(SendUp(s1, m))
  {
    NestOneMore(s.sent, m);
    assert (s.sent + [m])[..|s.sent|] == s.sent;
  }

  lemma {:induction false} SendDownKeeps(s: State, s1: State, m: Message)
    requires Inv(s) && Settled(s) && !ToServer(m) && Passes(m)
    requires After(Some(s.server), m) == Some(s1.server)
    requires s1 == s.(server := s1.server, nextSeq := s1.nextSeq)
    ensures Inv(SendDown(s1, m)) && InFlight(SendDown(s1, m))
  {
    NestOneMore(s.sent, m);
    assert (s.sent + [m])[..|s.sent|] == s.sent;
  }

  /** A side that waits with a frame before it has the message in flight before it. */
  lemma {:induction false} FrameIsInFlight(s: State)
    requires Inv(s) && (s.up != [] || s.down != [])
    ensures InFlight(s) && !Settled(s)
    ensures var m := s.sent[|s.sent| - 1];
            s.taken + [m] == s.sent && Nest(s.sent) == After(Nest(s.taken), m) &&
                Parse(Print(Frame(m))) == Got(Frame(m), [])
  {
    var m := s.sent[|s.sent| - 1];
    assert s.taken + [m] == s.sent;
    FrameIsReadBack(m);
  }

  /** The client understands a callback as it was asked. */
  lemma {:induction false} ClientTakesCallback(s: State, m: Message)
    requires s.client != [] && Top(s.client).Call? && m.Callback? && Sendable(m) &&
             Parse(Print(Frame(m))) == Got(Frame(m), [])
    ensures ClientTakes(s, Print(Frame(m))) == Take(s.(client := s.client + [Cb(m.seq')]), m)
  {
    CallbackIsCallback(m.seq', m.kind, m.handle, m.args);
  }

  lemma {:induction false} ClientTakesReply(s: State, m: Message)
    requires s.client != [] && m.Reply? && Top(s.client) == Call(m.id) && Sendable(m)
    requires Parse(Print(Frame(m))) == Got(Frame(m), [])
    ensures ClientTakes(s, Print(Frame(m))) == Take(s.(client := Popped(s.client)), m)
  {
    ReplyIsReply(m.id, m.outcome);
    if m.outcome.Failed? {
      FailureIsReported(m.id, m.outcome.code, m.outcome.message);
    }
  }

  lemma {:induction false} ServerTakesRequest(s: State, m: Message, dflt: int)
    requires !ServerRuns(s) && m.Request? && Sendable(m) && Parse(Print(Frame(m))) == Got(Frame(m), [])
    ensures ServerTakes(s, Print(Frame(m)), dflt) == Take(s.(server := s.server + [Call(m.id)]), m)
  {
    RequestIsRequest(m.id, m.name, m.params);
  }

  lemma {:induction false} ServerTakesAnswer(s: State, m: Message, dflt: int)
    requires s.server != [] && m.Answer? && Top(s.server) == Cb(m.seq') && Parse(Print(Frame(m))) == Got(Frame(m), [])
    ensures ServerTakes(s, Print(Frame(m)), dflt) == Take(s.(server := Popped(s.server)), m)
  {
    AnswerIsAnswer(m.seq', m.ret, dflt);
  }

  /** A reply to another request ends the connection, and is taken for nobody's. */
  lemma {:induction false} OtherReplyIsRefused(s: State, m: Message)
    requires s.client != [] && Top(s.client).Call? && m.Reply? && m.id != Top(s.client).id && Sendable(m)
    ensures ClientTakes(s, Print(Frame(m))) == s.(connected := false, outOfStep := true)
  {
    FrameIsReadBack(m);
    ReplyIsReply(m.id, m.outcome);
  }

  /** An answer to another callback unblocks the one that waits, but is not taken for its
      answer: whoever asked is told the default. */
  lemma {:induction false} OtherAnswerIsRefused(s: State, m: Message, dflt: int)
    requires s.server != [] && Top(s.server).Cb? && m.Answer? && m.seq' != Top(s.server).seq' && Sendable(m)
    ensures ServerTakes(s, Print(Frame(m)), dflt) == s.(server := Popped(s.server), outOfStep := true)
  {
    FrameIsReadBack(m);
    AnswerIsAnswer(m.seq', m.ret, dflt);
  }

  /** What the reader does not accept is a message for nobody. */
  lemma {:induction false} GarbageIsRefused(s: State, text: Text, dflt: int)
    requires Parse(text).Fail?
    ensures s.client != [] && Top(s.client).Call? ==>
              ClientTakes(s, text) == s.(connected := false, outOfStep := true)
    ensures s.server != [] && Top(s.server).Cb? ==>
              ServerTakes(s, text, dflt) == s.(server := Popped(s.server), outOfStep := true)
    ensures s.server == [] ==> ServerTakes(s, text, dflt).taken == s.taken && ServerTakes(s, text, dflt).outOfStep
  {
  }

  /** Receiving settles: the message is taken for what it was, and the stacks agree again. */
  lemma {:induction false} ClientReceiveSettles(s: State)
    requires Inv(s) && Enabled(s, ClientReceives)
    ensures Inv(Step(s, ClientReceives)) && Settled(Step(s, ClientReceives))
  {
    FrameIsInFlight(s);
    var m := s.sent[|s.sent| - 1];
    var s1 := s.(down := s.down[1..]);
    if m.Callback? {
      ClientTakesCallback(s1, m);
    } else {
      ClientTakesReply(s1, m);
    }
  }

  lemma {:induction false} ServerReceiveSettles(s: State, dflt: int)
    requires Inv(s) && Enabled(s, ServerReceives(dflt))
    ensures Inv(Step(s, ServerReceives(dflt))) && Settled(Step(s, ServerReceives(dflt)))
  {
    FrameIsInFlight(s);
    var m := s.sent[|s.sent| - 1];
    var s1 := s.(up := s.up[1..]);
    if m.Request? {
      ServerTakesRequest(s1, m, dflt);
    } else {
      ServerTakesAnswer(s1, m, dflt);
    }
  }

  /** Every step keeps the invariant. */
  lemma {:induction false} StepKeepsInv(s: State, e: Event)
    requires Inv(s) && Enabled(s, e)
    ensures Inv(Step(s, e))
  {
    match e
    case ClientCalls(name, params) =>
      RunningIsSettled(s);
      var s1 := s.(client := s.client + [Call(s.nextId)], nextId := s.nextId + 1);
      SendUpKeeps(s, s1, Request(s.nextId, name, params));
    case ClientAnswers(ret) =>
      RunningIsSettled(s);
      SendUpKeeps(s, s.(client := Popped(s.client)), Answer(Top(s.client).seq', ret));
    case ClientReceives => ClientReceiveSettles(s);
    case ServerReplies(outcome) =>
      RunningIsSettled(s);
      SendDownKeeps(s, s.(server := Popped(s.server)), Reply(Top(s.server).id, outcome));
    case ServerAsks(kind, handle, args) =>
      RunningIsSettled(s);
      var s1 := s.(server := s.server + [Cb(s.nextSeq)], nextSeq := s.nextSeq + 1);
      SendDownKeeps(s, s1, Callback(s.nextSeq, kind, handle, args));
    case ServerReceives(dflt) => ServerReceiveSettles(s, dflt);
  }

  // ------------------------------------------------------------------- runs

  /** A run from the start: states, and the events between them. */
  ghost predicate IsRun(states: seq<State>, events: seq<Event>) {
    && |states| == |events| + 1 && states[0] == INITIAL
    && forall i {:trigger events[i]} :: 0 <= i < |events| ==>
        Enabled(states[i], events[i]) && states[i + 1] == Step(states[i], events[i])
  }

  lemma {:induction false} RunKeepsInv(states: seq<State>, events: seq<Event>, k: nat)
    requires IsRun(states, events) && k < |states|
    ensures Inv(states[k])
    decreases k
  {
    if k > 0 {
      RunKeepsInv(states, events, k - 1);
      assert Enabled(states[k - 1], events[k - 1]);
      StepKeepsInv(states[k - 1], events[k - 1]);
    }
  }

  /** In every reachable state at most one frame is in flight, no frame has been taken for
      something else, and no reply or answer has been out of step. */
  lemma {:induction false} NeverOutOfStep(states: seq<State>, events: seq<Event>, k: nat)
    requires IsRun(states, events) && k < |states|
    ensures var s := states[k];
            && s.connected && !s.outOfStep
            && |s.up| + |s.down| <= 1
            && (s.sent == s.taken || (s.sent != [] && s.taken == s.sent[..|s.sent| - 1]))
  {
    RunKeepsInv(states, events, k);
  }

  /** The frame in flight has no NUL in it, so either side sees all of it as a C string,
      and it comes whole through a byte stream, whatever follows it there. */
  lemma {:induction false} FramesArrive(states: seq<State>, events: seq<Event>, k: nat, t: Text, more: Text)
    requires IsRun(states, events) && k < |states| && (t in states[k].up || t in states[k].down)
    ensures NulFree(t) && Framing.Receive(Framing.Sent(t) + more) == Framing.Frame(t, more)
  {
    var s := states[k];
    RunKeepsInv(states, events, k);
    FrameIsInFlight(s);
    var m := s.sent[|s.sent| - 1];
    assert t == Print(Frame(m));
    FrameIsReadBack(m);
    PrintHasNoNul(Frame(m));
    GroupsPrintSomething(Frame(m));
    hide Print, Frame, Framing.Receive, Framing.Sent;
    Framing.ArrivesIffItFits(t, more);
  }

  lemma {:induction false} GroupsPrintSomething(v: Json)
    requires v.Group?
    ensures Print(v) != []
  {
  }

  predicate ClientCanMove(s: State) { ClientRuns(s) || s.down != [] }

  predicate ServerCanMove(s: State) { ServerRuns(s) || s.up != [] }

  /** No deadlock, and no race: in every reachable state exactly one side can move. */
  lemma {:induction false} OneSideMoves(states: seq<State>, events: seq<Event>, k: nat)
    requires IsRun(states, events) && k < |states|
    ensures ClientCanMove(states[k]) != ServerCanMove(states[k])
  {
    var s := states[k];
    RunKeepsInv(states, events, k);
    if ClientRuns(s) || ServerRuns(s) {
      RunningIsSettled(s);
    } else {
      assert !Settled(s);
    }
  }

  /** Between frames the two stacks mirror each other. */
  lemma {:induction false} StacksMirror(states: seq<State>, events: seq<Event>, k: nat)
    requires IsRun(states, events) && k < |states|
    ensures var s := states[k];
            && (s.up == [] && s.down == [] ==> s.client == s.server)
            && (s.up != [] || s.down != [] ==>
                  s.sent != [] &&
                  var m := s.sent[|s.sent| - 1];
                  if ToServer(m) then After(Some(s.server), m) == Some(s.client)
                  else After(Some(s.client), m) == Some(s.server))
  {
    var s := states[k];
    RunKeepsInv(states, events, k);
    if s.up != [] || s.down != [] {
      FrameIsInFlight(s);
    }
  }

  /** Whatever was said over a run is properly nested. */
  lemma {:induction false} TranscriptNests(states: seq<State>, events: seq<Event>, k: nat)
    requires IsRun(states, events) && k < |states|
    ensures Nest(states[k].sent).Some?
  {
    RunKeepsInv(states, events, k);
  }

  // ---------------------------------------------------- what nesting comes to

  lemma {:induction false} PrefixNests(ms: seq<Message>, k: nat)
    requires Nest(ms).Some? && k <= |ms|
    ensures Nest(ms[..k]).Some?
    decreases |ms|
  {
    if k == |ms| {
      assert ms[..k] == ms;
    } else {
      PrefixNests(ms[..|ms| - 1], k);
      assert ms[..|ms| - 1][..k] == ms[..k];
    }
  }

  predicate Opens(m: Message) { m.Request? || m.Callback? }

  function LevelOf(m: Message): Level
    requires Opens(m)
  {
    if m.Request? then Call(m.id) else Cb(m.seq')
  }

  /** Does `i` open the level that stands at height `h` throughout `i + 1 .. j`? */
  ghost predicate OpenedAt(ms: seq<Message>, i: nat, j: nat, h: nat) {
    && i < j <= |ms| && Opens(ms[i])
    && Nest(ms[..i]).Some? && |Nest(ms[..i]).value| == h
    && forall k {:trigger Nest(ms[..k])} :: i < k <= j ==>
         Nest(ms[..k]).Some? && |Nest(ms[..k]).value| > h &&
             Nest(ms[..k]).value[..h + 1] == Nest(ms[..i]).value + [LevelOf(ms[i])]
  }

  /** Every open level has its opening message, and has been open ever since. */
  lemma {:induction false} LevelHasOpener(ms: seq<Message>, j: nat, h: nat) returns (i: nat)
    requires j <= |ms| && Nest(ms[..j]).Some? && h < |Nest(ms[..j]).value|
    ensures OpenedAt(ms, i, j, h)
    decreases j
  {
    var m := ms[j - 1];
    assert ms[..j][..j - 1] == ms[..j - 1];
    var before := Nest(ms[..j - 1]).value;
    if h < |before| {
      i := LevelHasOpener(ms, j - 1, h);
      assert Nest(ms[..j]).value[..h + 1] == before[..h + 1];
    } else {
      i := j - 1;
    }
  }

  /** In a properly nested transcript every reply closes the request of its id: nothing
      between them touched what was open before, and everything opened in between has
      been closed.  So answers unwind innermost first. */
  lemma {:induction false} ReplyClosesItsRequest(ms: seq<Message>, j: nat) returns (i: nat)
    requires Nest(ms).Some? && j < |ms| && ms[j].Reply?
    ensures i < j && ms[i].Request? && ms[i].id == ms[j].id
    ensures Nest(ms[..i]).Some? && Nest(ms[..j + 1]) == Nest(ms[..i])
    ensures OpenedAt(ms, i, j, |Nest(ms[..i]).value|)
  {
    PrefixNests(ms, j);
    PrefixNests(ms, j + 1);
    assert ms[..j + 1][..j] == ms[..j];
    var st := Nest(ms[..j]).value;
    i := LevelHasOpener(ms, j, |st| - 1);
    assert Nest(ms[..j]).Some?;
    assert st[..|st|] == st;
    assert Popped(st) == Nest(ms[..i]).value;
  }

  lemma {:induction false} AnswerClosesItsCallback(ms: seq<Message>, j: nat) returns (i: nat)
    requires Nest(ms).Some? && j < |ms| && ms[j].Answer?
    ensures i < j && ms[i].Callback? && ms[i].seq' == ms[j].seq'
    ensures Nest(ms[..i]).Some? && Nest(ms[..j + 1]) == Nest(ms[..i])
    ensures OpenedAt(ms, i, j, |Nest(ms[..i]).value|)
  {
    PrefixNests(ms, j);
    PrefixNests(ms, j + 1);
    assert ms[..j + 1][..j] == ms[..j];
    var st := Nest(ms[..j]).value;
    i := LevelHasOpener(ms, j, |st| - 1);
    assert Nest(ms[..j]).Some?;
    assert st[..|st|] == st;
    assert Popped(st) == Nest(ms[..i]).value;
  }

  // ------------------------------------------------------------- fresh names

  /** Requests and callbacks are each numbered upwards, to below these two. */
  predicate Ascends(ms: seq<Message>, nextId: int, nextSeq: int) {
    ms == [] ||
    var m := ms[|ms| - 1];
    && (m.Request? ==> m.id < nextId)
    && (m.Callback? ==> m.seq' < nextSeq)
    && Ascends(ms[..|ms| - 1], if m.Request? then m.id else nextId, if m.Callback? then m.seq' else nextSeq)
  }

  lemma {:induction false} AscendsBelow(ms: seq<Message>, nextId: int, nextSeq: int, i: nat)
    requires Ascends(ms, nextId, nextSeq) && i < |ms|
    ensures (ms[i].Request? ==> ms[i].id < nextId) && (ms[i].Callback? ==> ms[i].seq' < nextSeq)
  {
    var m, n := ms[|ms| - 1], |ms| - 1;
    if i < n {
      AscendsBelow(ms[..n], if m.Request? then m.id else nextId, if m.Callback? then m.seq' else nextSeq, i);
    }
  }

  /** No number is given twice. */
  lemma {:induction false} NumberedOnce(ms: seq<Message>, nextId: int, nextSeq: int, i: nat, j: nat)
    requires Ascends(ms, nextId, nextSeq) && i < j < |ms|
    ensures ms[i].Request? && ms[j].Request? ==> ms[i].id < ms[j].id
    ensures ms[i].Callback? && ms[j].Callback? ==> ms[i].seq' < ms[j].seq'
    decreases |ms|
  {
    var m, n := ms[|ms| - 1], |ms| - 1;
    var id', seq' := if m.Request? then m.id else nextId, if m.Callback? then m.seq' else nextSeq;
    if j < n {
      NumberedOnce(ms[..n], id', seq', i, j);
    } else {
      AscendsBelow(ms[..n], id', seq', i);
    }
  }

  /** A step sends at most one message, and numbers it anew if it opens something. */
  lemma {:induction false} StepSends(s: State, e: Event)
    requires Inv(s) && Enabled(s, e) && !e.ClientReceives? && !e.ServerReceives?
    ensures var s' := Step(s, e);
            && |s'.sent| == |s.sent| + 1 && s'.sent[..|s.sent|] == s.sent
            && var m := s'.sent[|s.sent|];
            && (m.Request? ==> m.id == s.nextId) && (m.Callback? ==> m.seq' == s.nextSeq)
            && s'.nextId == s.nextId + (if m.Request? then 1 else 0)
            && s'.nextSeq == s.nextSeq + (if m.Callback? then 1 else 0)
  {
  }

  lemma {:induction false} StepAscends(s: State, e: Event)
    requires Inv(s) && Enabled(s, e) && Ascends(s.sent, s.nextId, s.nextSeq)
    ensures var s' := Step(s, e); Ascends(s'.sent, s'.nextId, s'.nextSeq)
  {
    if e.ClientReceives? {
      ClientReceiveSends(s);
    } else if e.ServerReceives? {
      ServerReceiveSends(s, e.dflt);
    } else {
      StepSends(s, e);
    }
  }

  lemma {:induction false} ClientReceiveSends(s: State)
    requires Inv(s) && Enabled(s, ClientReceives)
    ensures var s' := Step(s, ClientReceives); s'.sent == s.sent && s'.nextId == s.nextId && s'.nextSeq == s.nextSeq
  {
  }

  lemma {:induction false} ServerReceiveSends(s: State, dflt: int)
    requires Inv(s) && Enabled(s, ServerReceives(dflt))
    ensures var s' := Step(s, ServerReceives(dflt));
            s'.sent == s.sent && s'.nextId == s.nextId && s'.nextSeq == s.nextSeq
  {
    FrameIsInFlight(s);
    var m := s.sent[|s.sent| - 1];
    var s1 := s.(up := s.up[1..]);
    if m.Request? {
      ServerTakesRequest(s1, m, dflt);
    } else {
      ServerTakesAnswer(s1, m, dflt);
    }
  }

  lemma {:induction false} RunAscends(states: seq<State>, events: seq<Event>, k: nat)
    requires IsRun(states, events) && k < |states|
    ensures Ascends(states[k].sent, states[k].nextId, states[k].nextSeq)
    decreases k
  {
    if k > 0 {
      RunAscends(states, events, k - 1);
      RunKeepsInv(states, events, k - 1);
      assert Enabled(states[k - 1], events[k - 1]);
      StepAscends(states[k - 1], events[k - 1]);
    }
  }

  /** So over a run each request gets at most one reply, and it is the one its handler
      made: the reply the client takes for a request is the server's to that request. */
  lemma {:induction false} OneReplyEach(states: seq<State>, events: seq<Event>, k: nat, i: nat, j: nat)
    requires IsRun(states, events) && k < |states|
    requires var ms := states[k].sent;
             i < |ms| && j < |ms| && ms[i].Reply? && ms[j].Reply? && ms[i].id == ms[j].id
    ensures i == j
  {
    var ms := states[k].sent;
    RunKeepsInv(states, events, k);
    RunAscends(states, events, k);
    var a := ReplyClosesItsRequest(ms, i);
    var b := ReplyClosesItsRequest(ms, j);
    if a != b {
      NumberedOnce(ms, states[k].nextId, states[k].nextSeq, if a < b then a else b, if a < b then b else a);
    }
  }
}
