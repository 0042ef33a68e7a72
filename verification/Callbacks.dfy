/** Which callbacks a client asked for.  The server keeps a bit per handle and kind and
    sends nothing for a bit that is not set; the client keeps the function per handle and
    kind.  The two are written by one call and purged by another, and agree over every
    run, except for the null handle. */
module Callbacks {
  import opened Wrappers
  import opened Registry
  import opened HandleTable

  /** The most kinds there can be: the bits of a word, and the places for functions. */
  const KINDS: nat := 32

  /** One handle's entry.  On the server `what` is the kinds whose bit is set, on the
      client the functions by kind, 0 for none. */
  datatype Entry<+T> = Entry(handle: nat, what: T)

  type Bits = set<nat>
  type Functions = fs: seq<nat> | |fs| == KINDS witness seq(KINDS, i => 0)

  function NoFunctions(): Functions { seq(KINDS, i => 0) }

  /** What is kept for `h`: the first entry has it. */
  function Of<T>(list: seq<Entry<T>>, h: nat): Option<T> {
    if list == [] then None
    else if list[0].handle == h then Some(list[0].what)
    else Of(list[1..], h)
  }

  /** The list once `h` has `what`. */
  function With<T>(list: seq<Entry<T>>, h: nat, what: T): seq<Entry<T>> {
    if Of(list, h).None? then [Entry(h, what)] + list
    else if list[0].handle == h then [Entry(h, what)] + list[1..]
    else [list[0]] + With(list[1..], h, what)
  }

  function Purged<T>(list: seq<Entry<T>>, h: nat): seq<Entry<T>> {
    if list == [] then []
    else if list[0].handle == h then Purged(list[1..], h)
    else [list[0]] + Purged(list[1..], h)
  }

  lemma {:induction false} WithOf<T>(list: seq<Entry<T>>, h: nat, what: T, other: nat)
    ensures Of(With(list, h, what), other) == if other == h then Some(what) else Of(list, other)
  {
    if Of(list, h).Some? && list[0].handle != h {
      WithOf(list[1..], h, what, other);
    }
  }

  lemma {:induction false} PurgedOf<T>(list: seq<Entry<T>>, h: nat, other: nat)
    ensures Of(Purged(list, h), other) == if other == h then None else Of(list, other)
  {
    if list != [] {
      PurgedOf(list[1..], h, other);
    }
  }

  predicate IsWanted(server: seq<Entry<Bits>>, h: nat, kind: nat) { kind in Of(server, h).UnwrapOr({}) }

  /** The function of that kind, 0 when there is none or no such kind. */
  function FunctionOf(client: seq<Entry<Functions>>, h: nat, kind: nat): nat {
    if kind < KINDS then Of(client, h).UnwrapOr(NoFunctions())[kind] else 0
  }

  function SetBit(e: Bits, kind: nat, on: bool): Bits { if on then e + {kind} else e - {kind} }

  // ------------------------------------------------------------ the two lists

  /** A list of entries, newest first. */
  class Registrations<T> {
    var list: seq<Entry<T>>

    constructor ()
      ensures list == []
    {
      list := [];
    }

    /** The position of the entry for `h`, -1 when there is none. */
    method Find(h: nat) returns (i: int)
      ensures i < |list| && (i >= 0 ==> list[i].handle == h && Of(list, h) == Some(list[i].what))
      ensures i < 0 <==> Of(list, h).None?
      ensures forall t :: i >= 0 ==> With(list, h, t) == list[i := Entry(h, t)]
    {
      i := 0;
      while i < |list|
        invariant 0 <= i <= |list| && Of(list, h) == Of(list[i..], h)
        invariant forall t :: Of(list, h).Some? ==> With(list, h, t) == list[..i] + With(list[i..], h, t)
      {
        assert list[i..][1..] == list[i + 1..];
        if list[i].handle == h {
          return;
        }
        assert list[..i + 1] == list[..i] + [list[i]];
        i := i + 1;
      }
      i := -1;
    }

    /** Give `h` what `what` says, in the entry it has or in one put in front. */
    method Set(h: nat, what: T)
      modifies this
      ensures list == With(old(list), h, what)
    {
      var i := Find(h);
      list := if i < 0 then [Entry(h, what)] + list else list[i := Entry(h, what)];
    }

    /** Unlink every entry for `h`. */
    method Purge(h: nat)
      modifies this
      ensures list == Purged(old(list), h)
    {
      ghost var was := list;
      var i := 0;
      while i < |list|
        invariant 0 <= i <= |list|
        invariant list[..i] + Purged(list[i..], h) == Purged(was, h)
        decreases |list| - i
      {
        ghost var rest := list[i + 1..];
        assert list[i..][1..] == rest;
        if list[i].handle == h {
          list := list[..i] + list[i + 1..];
          assert list[i..] == rest;
        } else {
          assert list[..i + 1] == list[..i] + [list[i]];
          i := i + 1;
        }
      }
      assert list[..i] == list;
    }
  }

  /** Is that callback wanted? */
  method Wanted(server: Registrations<Bits>, h: nat, kind: nat) returns (yes: bool)
    ensures yes == IsWanted(server.list, h, kind)
  {
    var i := server.Find(h);
    yes := i >= 0 && kind in server.list[i].what;
  }

  /** May bits be set for `h`?  A null handle resolves to null and is let through. */
  predicate Accepts(live: Live, h: nat) {
    h == 0 || (h in live && live[h].tag == Handle && live[h].ptr != 0)
  }

  lemma {:induction false} AcceptsHandles(st: State, h: nat)
    requires Forest(st) && h != 0
    ensures Accepts(st.live, h) <==> h in st.live && st.live[h].tag == Handle
  {
    assert h in st.live ==> Sound(st, h);
  }

  /** The server's half of a registration: a handle that does not resolve is refused. */
  method SetCallback(table: Table, server: Registrations<Bits>, h: nat, kind: nat, enabled: bool) returns (ok: bool)
    requires table.Valid()
    modifies server
    ensures ok <==>
            h == 0 || (h in table.Abs().live && table.Abs().live[h].tag == Handle && table.Abs().live[h].ptr != 0)
    ensures server.list == Told(old(server.list), table.Abs().live, h, kind, enabled)
  {
    var p := table.Get(h, Handle);
    if h != 0 && p == 0 {
      return false;
    }
    var i := server.Find(h);
    server.Set(h, SetBit(if i < 0 then {} else server.list[i].what, kind, enabled));
    ok := true;
  }

  function Told(server: seq<Entry<Bits>>, live: Live, h: nat, kind: nat, on: bool): seq<Entry<Bits>> {
    if Accepts(live, h) then With(server, h, SetBit(Of(server, h).UnwrapOr({}), kind, on)) else server
  }

  function Held(client: seq<Entry<Functions>>, h: nat, kind: nat, f: nat): seq<Entry<Functions>>
    requires kind < KINDS
  {
    var fs: Functions := Of(client, h).UnwrapOr(NoFunctions())[kind := f];
    With(client, h, fs)
  }

  /** The client's half: the function is kept whatever the server then says. */
  method CbRegister(
    table: Table, server: Registrations<Bits>, client: Registrations<Functions>, h: nat, kind: nat, f: nat)
    returns (rc: int)
    requires table.Valid() && kind < KINDS
    modifies server, client
    ensures client.list == Held(old(client.list), h, kind, f)
    ensures server.list == Told(old(server.list), table.Abs().live, h, kind, f != 0)
    ensures rc == 0 <==> Accepts(table.Abs().live, h)
  {
    var i := client.Find(h);
    var fs: Functions := (if i < 0 then NoFunctions() else client.list[i].what)[kind := f];
    client.Set(h, fs);
    var ok := SetCallback(table, server, h, kind, f != 0);
    rc := if ok then 0 else -1;
  }

  /** The id whose registrations an operation takes along, 0 for none. */
  ghost function Taken(st: State, op: Op): nat {
    match op
    case DropOwner(o) => o
    case DropPtr(ptr, tag) => Lookup(st.live, ptr, tag)
    case _ => 0
  }

  function Remaining<T>(list: seq<Entry<T>>, o: nat): seq<Entry<T>> { if o == 0 then list else Purged(list, o) }

  /** Drop what is under `o`, and what it registered. */
  method DropOwner(table: Table, server: Registrations<Bits>, o: nat)
    requires table.Valid()
    modifies table, server
    ensures table.Valid() && table.Abs() == Step(old(table.Abs()), Op.DropOwner(o))
    ensures server.list == Remaining(old(server.list), o)
  {
    table.HandleDropOwner(o);
    if o != 0 {
      server.Purge(o);
    }
  }

  method DropPtr(table: Table, server: Registrations<Bits>, ptr: nat, tag: Tag)
    requires table.Valid()
    modifies table, server
    ensures table.Valid() && table.Abs() == Step(old(table.Abs()), Op.DropPtr(ptr, tag))
    ensures server.list == Remaining(old(server.list), Taken(old(table.Abs()), Op.DropPtr(ptr, tag)))
  {
    DropOwnerIsRebuild(table.Abs(), 0);
    var i := table.FindPtr(ptr, tag);
    if i >= 0 {
      DropOwner(table, server, table.tab[i].id);
    }
  }

  // ------------------------------------------------------------ whole runs

  datatype World = World(st: State, server: seq<Entry<Bits>>, client: seq<Entry<Functions>>)

  const Start := World(Initial, [], [])

  datatype Move = Serve(op: Op) | Register(h: nat, kind: nat, f: nat) | Release(h: nat)

  /** A release that does not resolve is refused before it does anything, and the client
      does nothing after a refusal; one of null is no refusal. */
  ghost function After(w: World, m: Move): World
    requires m.Register? ==> m.kind < KINDS
  {
    match m
    case Serve(op) => w.(st := Step(w.st, op), server := Remaining(w.server, Taken(w.st, op)))
    case Register(h, kind, f) =>
      w.(server := Told(w.server, w.st.live, h, kind, f != 0), client := Held(w.client, h, kind, f))
    case Release(h) =>
      if !Accepts(w.st.live, h) then w
      else World(Step(w.st, Op.DropOwner(h)), Remaining(w.server, h), Purged(w.client, h))
  }

  /** The server never forgets a handle by itself, and starts over only once the
      connection is gone; a client names no handle it has not been given. */
  ghost predicate Allowed(w: World, m: Move) {
    match m
    case Serve(op) => Legal(w.st, op) && !op.Reset? && (op.Drop? ==> !Accepts(w.st.live, op.id))
    case Register(h, kind, _) => kind < KINDS && Seq(h) < w.st.nextSeq
    case Release(_) => true
  }

  ghost predicate IsRun(ws: seq<World>, ms: seq<Move>) {
    && |ws| == |ms| + 1 && ws[0] == Start
    && forall k | 0 <= k < |ms| :: Allowed(ws[k], ms[k]) && ws[k + 1] == After(ws[k], ms[k])
  }

  /** The server sends what the client has a function for. */
  ghost predicate Agrees(w: World, h: nat, kind: nat) {
    IsWanted(w.server, h, kind) <==> Accepts(w.st.live, h) && FunctionOf(w.client, h, kind) != 0
  }

  /** For null only the one half. */
  ghost predicate AgreesOn(w: World, h: nat, kind: nat) {
    && (h != 0 ==> Agrees(w, h, kind))
    && (FunctionOf(w.client, 0, kind) != 0 ==> IsWanted(w.server, 0, kind))
  }

  ghost predicate Given(w: World, h: nat) { Of(w.client, h).Some? ==> Seq(h) < w.st.nextSeq }

  ghost predicate Inv(w: World) {
    && Forest(w.st)
    && (forall h :: Given(w, h))
    && (forall h, kind :: AgreesOn(w, h, kind))
  }

  /** Nothing owns a handle, so a handle goes only by itself. */
  lemma {:induction false} OnlyItself(st: State, h: nat, o: nat)
    requires Forest(st) && h in st.live && st.live[h].tag == Handle
    ensures Under(st.live, h, o, WALK) ==> h == o
  {
    assert Sound(st, h);
    assert !Under(st.live, st.live[h].owner, o, WALK - 1);
  }

  lemma {:induction false} AcceptedUntilTaken(st: State, op: Op, h: nat)
    requires Forest(st) && Legal(st, op) && !op.Reset? && (op.Drop? ==> !Accepts(st.live, op.id)) && h != 0
    ensures Accepts(st.live, h) && h != Taken(st, op) ==> Accepts(Step(st, op).live, h)
    ensures Accepts(Step(st, op).live, h) && Seq(h) < st.nextSeq ==> Accepts(st.live, h) && h != Taken(st, op)
  {
    StepOnId(st, op, h);
    if h in st.live && st.live[h].tag == Handle {
      OnlyItself(st, h, Taken(st, op));
      if op.DropUnder? {
        OnlyItself(st, h, op.id);
      }
    }
    hide Forest, Root, Seq;
  }

  lemma {:induction false} SeqBefore(st: State, op: Op)
    requires Forest(st) && Legal(st, op)
    ensures st.nextSeq <= Step(st, op).nextSeq
  {
    StepOnId(st, op, 0);
    hide Forest, Legal;
  }

  lemma {:induction false} ServeKeeps(w: World, op: Op, h: nat, kind: nat)
    requires Inv(w) && Allowed(w, Serve(op))
    ensures Given(After(w, Serve(op)), h) && AgreesOn(After(w, Serve(op)), h, kind)
  {
    var o := Taken(w.st, op);
    assert Given(w, h) && AgreesOn(w, h, kind);
    SeqBefore(w.st, op);
    PurgedOf(w.server, o, h);
    PurgedOf(w.server, o, 0);
    if h != 0 {
      AcceptedUntilTaken(w.st, op, h);
    }
    hide Forest, Step, Purged, Taken, Seq, Legal, Accepts, OneStep;
  }

  lemma {:induction false} RegisterKeeps(w: World, h: nat, kind: nat, f: nat, other: nat, k: nat)
    requires Inv(w) && Allowed(w, Register(h, kind, f))
    ensures Given(After(w, Register(h, kind, f)), other) && AgreesOn(After(w, Register(h, kind, f)), other, k)
  {
    assert Given(w, other) && AgreesOn(w, other, k);
    var bits := SetBit(Of(w.server, h).UnwrapOr({}), kind, f != 0);
    var fs: Functions := Of(w.client, h).UnwrapOr(NoFunctions())[kind := f];
    WithOf(w.server, h, bits, other);
    WithOf(w.server, h, bits, 0);
    WithOf(w.client, h, fs, other);
    WithOf(w.client, h, fs, 0);
    hide Forest, With, Seq;
  }

  lemma {:induction false} ReleaseKeeps(w: World, h: nat, other: nat, kind: nat)
    requires Inv(w) && Accepts(w.st.live, h)
    ensures Given(After(w, Release(h)), other) && AgreesOn(After(w, Release(h)), other, kind)
  {
    ServeKeeps(w, Op.DropOwner(h), other, kind);
    PurgedOf(w.client, h, other);
    PurgedOf(w.client, h, 0);
    hide Forest, Step, Purged, Seq;
  }

  lemma {:induction false} MoveKeeps(w: World, m: Move, h: nat, kind: nat)
    requires Inv(w) && Allowed(w, m)
    ensures Given(After(w, m), h) && AgreesOn(After(w, m), h, kind)
  {
    hide Forest, Step, Purged, With, Seq, Legal, Agrees, IsWanted, FunctionOf;
    match m
    case Serve(op) => ServeKeeps(w, op, h, kind);
    case Register(g, k, f) => RegisterKeeps(w, g, k, f, h, kind);
    case Release(g) =>
      if Accepts(w.st.live, g) {
        ReleaseKeeps(w, g, h, kind);
      } else {
        assert Given(w, h) && AgreesOn(w, h, kind);
      }
  }

  lemma {:induction false} StepKeeps(w: World, m: Move)
    requires Inv(w) && Allowed(w, m)
    ensures Inv(After(w, m))
  {
    match m {
      case Serve(op) => StepKeepsForest(w.st, op);
      case Register(_, _, _) =>
      case Release(h) => StepKeepsForest(w.st, Op.DropOwner(h));
    }
    assert Forest(After(w, m).st);
    forall h ensures Given(After(w, m), h) {
      MoveKeeps(w, m, h, 0);
    }
    forall h, kind ensures AgreesOn(After(w, m), h, kind) {
      MoveKeeps(w, m, h, kind);
    }
  }

  /** In every state of every run, a callback is sent to a live handle exactly when the
      client has a function for it, and none is sent to a handle that is gone. */
  lemma {:induction false} SentIffTaken(ws: seq<World>, ms: seq<Move>, n: nat)
    requires IsRun(ws, ms) && n < |ws|
    ensures Inv(ws[n])
    ensures forall h, kind | h != 0 ::
              IsWanted(ws[n].server, h, kind) <==>
              h in ws[n].st.live && ws[n].st.live[h].tag == Handle && FunctionOf(ws[n].client, h, kind) != 0
  {
    if n > 0 {
      SentIffTaken(ws, ms, n - 1);
      StepKeeps(ws[n - 1], ms[n - 1]);
    }
    assert Inv(ws[n]);
    hide IsRun, IsWanted, FunctionOf;
    var w := ws[n];
    forall h, kind | h != 0
      ensures IsWanted(w.server, h, kind) <==>
              h in w.st.live && w.st.live[h].tag == Handle && FunctionOf(w.client, h, kind) != 0
    {
      assert AgreesOn(w, h, kind);
      AcceptsHandles(w.st, h);
    }
  }

  /** What a registration does on both sides, and that it does no more. */
  lemma {:induction false} RegisterIs(w: World, h: nat, kind: nat, f: nat, other: nat, k: nat)
    requires kind < KINDS
    ensures var w' := After(w, Register(h, kind, f));
            && w'.st == w.st
            && FunctionOf(w'.client, other, k) ==
               (if (other, k) == (h, kind) then f else FunctionOf(w.client, other, k))
            && (IsWanted(w'.server, other, k) <==>
                  if (other, k) == (h, kind) &&
                     (h == 0 || (h in w.st.live && w.st.live[h].tag == Handle && w.st.live[h].ptr != 0))
                  then f != 0 else IsWanted(w.server, other, k))
  {
    var bits := SetBit(Of(w.server, h).UnwrapOr({}), kind, f != 0);
    var fs: Functions := Of(w.client, h).UnwrapOr(NoFunctions())[kind := f];
    WithOf(w.server, h, bits, other);
    WithOf(w.client, h, fs, other);
    hide With;
  }

  /** What the release of a live handle does on both sides. */
  lemma {:induction false} ReleaseIs(w: World, h: nat, other: nat, k: nat)
    requires h != 0 && h in w.st.live && w.st.live[h].tag == Handle && w.st.live[h].ptr != 0
    ensures var w' := After(w, Release(h));
            && w'.st == Step(w.st, Op.DropOwner(h))
            && FunctionOf(w'.client, other, k) == (if other == h then 0 else FunctionOf(w.client, other, k))
            && (IsWanted(w'.server, other, k) <==> other != h && IsWanted(w.server, other, k))
  {
    PurgedOf(w.server, h, other);
    PurgedOf(w.client, h, other);
    hide Purged, Step;
  }

  /** Over a run, what was registered last for a handle and kind is what its callbacks
      reach, until the handle is released: as long as it is live they are sent exactly if
      that was a function, and the client has it. */
  lemma {:induction false} LastRegistrationHolds(ws: seq<World>, ms: seq<Move>, j: nat, n: nat, h: nat, kind: nat,
                                                 f: nat)
    requires IsRun(ws, ms) && j < n < |ws| && h != 0 && ms[j] == Register(h, kind, f)
    requires forall m :: j < m < n ==> ms[m] != Release(h) && !(ms[m].Register? && ms[m].h == h && ms[m].kind == kind)
    ensures FunctionOf(ws[n].client, h, kind) == f
    ensures h in ws[n].st.live && ws[n].st.live[h].tag == Handle ==> (IsWanted(ws[n].server, h, kind) <==> f != 0)
  {
    SentIffTaken(ws, ms, n);
    FunctionStays(ws, ms, j, n, h, kind, f);
    hide IsRun, IsWanted, FunctionOf, Inv;
  }

  lemma {:induction false} FunctionStays(ws: seq<World>, ms: seq<Move>, j: nat, n: nat, h: nat, kind: nat, f: nat)
    requires IsRun(ws, ms) && j < n < |ws| && ms[j] == Register(h, kind, f)
    requires forall m :: j < m < n ==> ms[m] != Release(h) && !(ms[m].Register? && ms[m].h == h && ms[m].kind == kind)
    ensures FunctionOf(ws[n].client, h, kind) == f
    decreases n
  {
    assert Allowed(ws[n - 1], ms[n - 1]);
    if n - 1 > j {
      FunctionStays(ws, ms, j, n - 1, h, kind, f);
    }
    hide IsWanted;
    match ms[n - 1]
    case Serve(_) =>
    case Register(g, k, e) => RegisterIs(ws[n - 1], g, k, e, h, kind);
    case Release(g) => PurgedOf(ws[n - 1].client, g, h);
  }

  /** Null is the exception: a registration for it is accepted, and its release purges
      the client's function but not the server's bit. */
  lemma {:induction false} NullStaysWanted(kind: nat, f: nat)
    requires kind < KINDS && f != 0
    ensures var w := After(After(Start, Register(0, kind, f)), Release(0));
            && IsRun([Start, After(Start, Register(0, kind, f)), w], [Register(0, kind, f), Release(0)])
            && IsWanted(w.server, 0, kind) && FunctionOf(w.client, 0, kind) == 0
  {
    var w := After(Start, Register(0, kind, f));
    var fs: Functions := NoFunctions()[kind := f];
    WithOf<Bits>([], 0, {kind}, 0);
    WithOf<Functions>([], 0, fs, 0);
    PurgedOf(w.client, 0, 0);
  }
}
