/** The meaning of the generated marshalling: one schema, a server that writes a C value
    through it and a client that rebuilds one from what arrives.  For every schema and
    value the client gets back what the server had, field for field, its handles replaced
    by ids that name them in the server's table. */
module Marshal {
  import J = Json
  import opened Wrappers
  import Doc = JsonDoc
  import Frames
  import JsonRoundTrip
  import R = Registry

  type Text = J.Text

  // ---------------------------------------------------------------- schemas

  /** An integer type of C. */
  datatype IntType = IntType(signed: bool, bits: nat)

  /** Kinds of field and element. Records are named, so they can refer to each other. */
  datatype Type =
    | String
    | Path
    | Scalar(c: IntType)
    | Handle(tag: R.Tag)
    | PtrTo(record: Text)
    | ByValue(record: Text)
    | ListOf(elem: Type)
    | Unsupported

  datatype Field = Field(name: Text, t: Type, carried: bool)

  /** A struct, or a count and an array that travel as the array. */
  datatype Record = Struct(fields: seq<Field>) | Counted(elem: Text)

  /** The form a connection's paths take: the server's own, or converted where they do
      convert. */
  datatype Style = Posix | Win32(convert: Text -> Option<Text>)

  /** A path as this connection is sent it. */
  function PathOut(style: Style, s: Text): (t: Text)
    ensures J.NulFree(s) ==> J.NulFree(t)
    ensures style.Posix? || s == [] ==> t == s
  {
    if style.Posix? || s == [] then s
    else
      var t := style.convert(s);
      if t.Some? then Doc.CString(t.value) else s
  }

  /** What there is to send, and how this connection takes its paths. */
  datatype Schema = Schema(records: map<Text, Record>, style: Style)

  /** What a C object holds: a null pointer, a string, an integer, a pointer to one of
      libalpm's objects -- on the client, its id -- a struct's fields, or a list's or an
      array's elements. Memory that was cleared and not written since is `Zeroed`. */
  datatype Val =
    | Null | Chars(s: Text) | Int(n: int) | Obj(p: nat)
    | Rec(vals: seq<Val>) | Items(vals: seq<Val>) | Zeroed

  function Weight(v: Val): nat
    decreases v, 1
  {
    match v
    case Rec(vals) => 1 + WeightOfAll(vals)
    case Items(vals) => 1 + WeightOfAll(vals)
    case _ => 1
  }

  function WeightOfAll(vals: seq<Val>): nat
    decreases vals, 0
  {
    if vals == [] then 0 else 1 + Weight(vals[0]) + WeightOfAll(vals[1..])
  }

  // --------------------------------------------------------------- integers

  function Modulus(bits: nat): nat {
    if bits == 8 then 0x100 else if bits == 16 then 0x1_0000 else if bits == 32 then 0x1_0000_0000
      else 0x1_0000_0000_0000_0000
  }

  predicate InRange(c: IntType, n: int) {
    var m := Modulus(c.bits);
    if c.signed then -(m / 2) <= n < m / 2 else 0 <= n < m
  }

  /** The cast to `long long`. */
  function ToLong(n: int): int { if n > J.INT64_MAX then n - 0x1_0000_0000_0000_0000 else n }

  /** The cast from it: the low bits, read as the type reads them. */
  function FromLong(c: IntType, n: int): int {
    var m := Modulus(c.bits);
    var low := n % m;
    if c.signed && low >= m / 2 then low - m else low
  }

  /** Every value of an integer type comes through the casts, though a large unsigned one
      is negative on the wire. */
  lemma {:induction false} CastsUndo(c: IntType, n: int)
    requires InRange(c, n)
    ensures Frames.Fits(ToLong(n)) && FromLong(c, ToLong(n)) == n
  {
    var m := Modulus(c.bits);
    var k := ToLong(n);
    if k == n {
      if n >= 0 {
        assert n % m == n;
      } else {
        WrapsUp(n, m);
      }
    } else {
      assert m == 0x1_0000_0000_0000_0000;
      WrapsUp(k, m);
    }
  }

  lemma {:induction false} WrapsUp(n: int, m: nat)
    requires 0 - m as int <= n < 0
    ensures n % m == n + m
  {
    assert n == (n + m) + -1 * m;
  }

  // ----------------------------------------------------------------- typing

  predicate Typed(sch: Schema, t: Type, v: Val)
    decreases Weight(v), 2
  {
    match t
    case String => v.Null? || (v.Chars? && J.NulFree(v.s))
    case Path => v.Null? || (v.Chars? && J.NulFree(v.s))
    case Scalar(c) => v.Int? && InRange(c, v.n)
    case Handle(tag) => v.Obj?
    case PtrTo(r) => v.Null? || TypedRecord(sch, r, v)
    case ByValue(r) => TypedRecord(sch, r, v)
    case ListOf(e) => v.Null? || (v.Items? && v.vals != [] && TypedAll(sch, e, v.vals))
    case Unsupported => true
  }

  predicate TypedRecord(sch: Schema, r: Text, v: Val)
    decreases Weight(v), 1
  {
    r in sch.records &&
    match sch.records[r]
    case Struct(fields) => v.Rec? && TypedFields(sch, fields, v.vals)
    case Counted(e) => v.Items? && TypedAll(sch, ByValue(e), v.vals)
  }

  predicate TypedFields(sch: Schema, fields: seq<Field>, vals: seq<Val>)
    decreases WeightOfAll(vals), 0
  {
    |fields| == |vals| &&
    (vals == [] || ((fields[0].carried ==> Typed(sch, fields[0].t, vals[0])) &&
      TypedFields(sch, fields[1..], vals[1..])))
  }

  predicate TypedAll(sch: Schema, t: Type, vals: seq<Val>)
    decreases WeightOfAll(vals), 0
  {
    vals == [] || (Typed(sch, t, vals[0]) && TypedAll(sch, t, vals[1..]))
  }

  /** A struct's members have names of their own. */
  predicate Distinct(fields: seq<Field>) {
    (forall i :: 0 <= i < |fields| ==> J.NulFree(fields[i].name)) &&
    (forall i, j :: 0 <= i < j < |fields| ==> fields[i].name != fields[j].name)
  }

  predicate SchemaGood(sch: Schema) {
    forall r :: r in sch.records && sch.records[r].Struct? ==> Distinct(sch.records[r].fields)
  }

  // ----------------------------------------------------- writing, on the server

  /** What the server writes for a value, filing the objects it meets. */
  ghost function Put(sch: Schema, st: R.State, owner: nat, t: Type, v: Val): (R.State, J.Json)
    requires Typed(sch, t, v)
    decreases Weight(v), 2
  {
    match t
    case String => (st, if v.Null? then J.Null else J.Str(v.s))
    case Path => (st, if v.Null? then J.Null else J.Str(PathOut(sch.style, v.s)))
    case Scalar(c) => (st, J.Num(ToLong(v.n)))
    case Handle(tag) => var (st', id) := R.PutResult(st, v.p, tag, owner); (st', J.Num(id))
    case PtrTo(r) => if v.Null? then (st, J.Null) else PutRecord(sch, st, owner, r, v)
    case ByValue(r) => PutRecord(sch, st, owner, r, v)
    case ListOf(e) =>
      if v.Null? then (st, J.Null)
        else var (st', kids) := PutAll(sch, st, owner, e, v.vals); (st', J.Group(false, kids))
    case Unsupported => (st, J.Null)
  }

  ghost function PutRecord(sch: Schema, st: R.State, owner: nat, r: Text, v: Val): (R.State, J.Json)
    requires TypedRecord(sch, r, v)
    decreases Weight(v), 1
  {
    match sch.records[r]
    case Struct(fields) => var (st', kids) := PutFields(sch, st, owner, fields, v.vals); (st', J.Group(true, kids))
    case Counted(e) => var (st', kids) := PutAll(sch, st, owner, ByValue(e), v.vals); (st', J.Group(false, kids))
  }

  ghost function PutFields(sch: Schema, st: R.State, owner: nat, fields: seq<Field>, vals: seq<Val>)
    : (R.State, seq<J.Kid>)
    requires TypedFields(sch, fields, vals)
    decreases WeightOfAll(vals), 0
  {
    if vals == [] then (st, [])
    else if !fields[0].carried then PutFields(sch, st, owner, fields[1..], vals[1..])
    else
      var (st1, j) := Put(sch, st, owner, fields[0].t, vals[0]);
      var (st2, kids) := PutFields(sch, st1, owner, fields[1..], vals[1..]);
      (st2, [J.Kid(fields[0].name, j)] + kids)
  }

  ghost function PutAll(sch: Schema, st: R.State, owner: nat, t: Type, vals: seq<Val>): (R.State, seq<J.Kid>)
    requires TypedAll(sch, t, vals)
    decreases WeightOfAll(vals), 0
  {
    if vals == [] then (st, [])
    else
      var (st1, j) := Put(sch, st, owner, t, vals[0]);
      var (st2, kids) := PutAll(sch, st1, owner, t, vals[1..]);
      (st2, [J.Kid([], j)] + kids)
  }

  // --------------------------------------------------- rebuilding, on the client

  lemma {:induction false} LookupIsSmaller(kids: seq<J.Kid>, key: Text)
    ensures var j := Frames.Lookup(kids, key); j.Some? ==> J.Size(j.value) <= J.SizeOfKids(kids)
  {
    if kids != [] {
      LookupIsSmaller(kids[1..], key);
    }
  }

  function Mass(j: Option<J.Json>): nat { if j.Some? then J.Size(j.value) else 0 }

  function Member(j: Option<J.Json>, key: Text): (m: Option<J.Json>)
    ensures j.Some? ==> Mass(m) < Mass(j)
    ensures j.None? ==> m.None?
  {
    if j.None? then None
    else
      var m := Frames.Get(j.value, key);
      if j.value.Group? then LookupIsSmaller(j.value.kids, key); m else m
  }

  predicate NullNode(j: Option<J.Json>) { j.None? || j.value.Null? }

  function FillString(j: Option<J.Json>): Val {
    var s := Frames.StringOf(j);
    if s.Some? then Chars(s.value) else Null
  }

  /** What the client makes of a node, or of none. */
  function Fill(sch: Schema, t: Type, j: Option<J.Json>): Val
    decreases Mass(j), 3
  {
    match t
    case String => FillString(j)
    case Path => FillString(j)
    case Scalar(c) => Int(FromLong(c, Frames.NumberOr(j, 0)))
    case Handle(_) => Obj(Frames.NumberOr(j, 0) % Modulus(64))
    case PtrTo(r) => if NullNode(j) then Null else FillRecord(sch, r, j)
    case ByValue(r) => if j.None? then Zeroed else FillRecord(sch, r, j)
    case ListOf(e) =>
      if NullNode(j) || !j.value.Group? || j.value.kids == [] then Null else Items(FillAll(sch, e, j.value.kids))
    case Unsupported => Zeroed
  }

  function FillRecord(sch: Schema, r: Text, j: Option<J.Json>): Val
    requires j.Some?
    decreases Mass(j), 2
  {
    if r !in sch.records then Zeroed
    else
      match sch.records[r]
      case Struct(fields) => Rec(FillFields(sch, fields, j))
      case Counted(e) => Items(if j.value.Group? then FillAll(sch, ByValue(e), j.value.kids) else [])
  }

  function FillFields(sch: Schema, fields: seq<Field>, j: Option<J.Json>): seq<Val>
    requires j.Some?
    decreases Mass(j), 1, |fields|
  {
    if fields == [] then []
    else [if fields[0].carried then Fill(sch, fields[0].t, Member(j, fields[0].name)) else Zeroed]
         + FillFields(sch, fields[1..], j)
  }

  function FillAll(sch: Schema, t: Type, kids: seq<J.Kid>): seq<Val>
    decreases J.SizeOfKids(kids), 4, |kids|
  {
    if kids == [] then [] else [Fill(sch, t, Some(kids[0].val))] + FillAll(sch, t, kids[1..])
  }

  // -------------------------------------------------------- what must come of it

  /** Is `w` what a client should hold for the server's `v`? The same value, but for
      handles, which are ids filed for those very objects, for paths, which are in the
      connection's form, and for what does not cross, which is zero. */
  ghost predicate Mirrors(live: R.Live, sch: Schema, t: Type, v: Val, w: Val)
    requires Typed(sch, t, v)
    decreases Weight(v), 2
  {
    match t
    case String => w == v
    case Path =>
      if v.Null? || v.s == [] || sch.style.Posix? then w == v
      else (match sch.style.convert(v.s)
            case Some(win32) => w == Chars(Doc.CString(win32))
            case None => w == v)
    case Scalar(_) => w == v
    case Handle(tag) => w.Obj? && (if v.p == 0 then w.p == 0 else w.p != 0 && R.FiledAs(live, w.p, v.p, tag))
    case PtrTo(r) => if v.Null? then w.Null? else MirrorsRecord(live, sch, r, v, w)
    case ByValue(r) => MirrorsRecord(live, sch, r, v, w)
    case ListOf(e) => if v.Null? then w.Null? else w.Items? && MirrorsAll(live, sch, e, v.vals, w.vals)
    case Unsupported => w.Zeroed?
  }

  ghost predicate MirrorsRecord(live: R.Live, sch: Schema, r: Text, v: Val, w: Val)
    requires TypedRecord(sch, r, v)
    decreases Weight(v), 1
  {
    match sch.records[r]
    case Struct(fields) => w.Rec? && MirrorsFields(live, sch, fields, v.vals, w.vals)
    case Counted(e) => w.Items? && MirrorsAll(live, sch, ByValue(e), v.vals, w.vals)
  }

  ghost predicate MirrorsFields(live: R.Live, sch: Schema, fields: seq<Field>, vs: seq<Val>, ws: seq<Val>)
    requires TypedFields(sch, fields, vs)
    decreases WeightOfAll(vs), 0
  {
    |ws| == |vs| &&
    (vs == [] ||
     ((if fields[0].carried then Mirrors(live, sch, fields[0].t, vs[0], ws[0]) else ws[0].Zeroed?)
      && MirrorsFields(live, sch, fields[1..], vs[1..], ws[1..])))
  }

  ghost predicate MirrorsAll(live: R.Live, sch: Schema, t: Type, vs: seq<Val>, ws: seq<Val>)
    requires TypedAll(sch, t, vs)
    decreases WeightOfAll(vs), 0
  {
    |ws| == |vs| && (vs == [] || (Mirrors(live, sch, t, vs[0], ws[0]) && MirrorsAll(live, sch, t, vs[1..], ws[1..])))
  }

  // ---------------------------------------------------------- the server's table

  /** How high a type's handles reach. */
  function Reach(t: Type): nat {
    match t
    case Handle(tag) => R.Level(tag) + 1
    case ListOf(e) => Reach(e)
    case _ => 0
  }

  /** What the generator's choice of owner comes to: it is above whatever is filed. */
  predicate Reaches(sch: Schema, top: nat) {
    forall r, i :: r in sch.records && sch.records[r].Struct? && 0 <= i < |sch.records[r].fields| ==>
                     Reach(sch.records[r].fields[i].t) <= top
  }

  predicate FieldsReach(fields: seq<Field>, top: nat) { forall i :: 0 <= i < |fields| ==> Reach(fields[i].t) <= top }

  /** A sound table with room for `n` more objects, and an owner above them. */
  ghost predicate Ready(st: R.State, owner: nat, top: nat, n: nat) {
    && R.Forest(st)
    && (owner == 0 || (owner in st.live && R.Level(st.live[owner].tag) >= top))
    && st.nextSeq + n <= R.SEQ_LIMIT && st.nextRoot + n <= R.ROOT_LIMIT
  }

  /** What was filed is filed still, for the same objects. */
  ghost predicate Grows(a: R.Live, b: R.Live) {
    forall id :: id in a ==> R.FiledAs(b, id, a[id].ptr, a[id].tag)
  }

  /** What is new is filed under `owner`, and what was there has moved nowhere else. */
  ghost predicate FiledFor(a: R.Live, b: R.Live, owner: nat) {
    forall id {:trigger b[id]} :: id in b && !(id in a && b[id].owner == a[id].owner) ==> b[id].owner == owner
  }

  lemma {:induction false} FiledOn(a: R.Live, b: R.Live, c: R.Live, owner: nat)
    requires Grows(a, b) && Grows(b, c) && FiledFor(a, b, owner) && FiledFor(b, c, owner)
    ensures Grows(a, c) && FiledFor(a, c, owner)
  {
    forall id | id in c && !(id in a && c[id].owner == a[id].owner) ensures c[id].owner == owner {
      assert id in b && b[id].owner == c[id].owner ==> b[id].owner == owner;
    }
  }

  lemma {:induction false} FileReady(st: R.State, owner: nat, tag: R.Tag, p: nat, top: nat, n: nat)
    requires Ready(st, owner, top, 1 + n) && R.Level(tag) < top
    ensures var (st', id) := R.PutResult(st, p, tag, owner);
            && Ready(st', owner, top, n) && Grows(st.live, st'.live) && FiledFor(st.live, st'.live, owner)
            && 0 <= id < R.INT64_LIMIT
            && (if p == 0 then id == 0 else id != 0 && R.FiledAs(st'.live, id, p, tag))
  {
    hide R.Forest, R.PutResult, R.FreshId;
    R.PutKeepsForest(st, p, tag, owner);
    R.FreshIdIsNew(st, tag, owner);
    FileFiles(st, owner, tag, p);
    var (st', id) := R.PutResult(st, p, tag, owner);
    if p != 0 {
      IdFits(st', id);
    }
  }

  lemma {:induction false} FileFiles(st: R.State, owner: nat, tag: R.Tag, p: nat)
    requires R.FreshId(st, tag, owner) !in st.live && R.FreshId(st, tag, owner) != 0
    ensures var (st', id) := R.PutResult(st, p, tag, owner);
            && Grows(st.live, st'.live) && FiledFor(st.live, st'.live, owner)
            && st'.nextSeq <= st.nextSeq + 1 && st'.nextRoot <= st.nextRoot + 1
            && (if p == 0 then id == 0 && st' == st else id != 0 && R.FiledAs(st'.live, id, p, tag))
  {
    hide R.Under, R.FreshId;
  }

  lemma {:induction false} IdFits(st: R.State, id: nat)
    requires R.Forest(st) && id in st.live
    ensures 0 < id < R.INT64_LIMIT
  {
    assert R.Sound(st, id);
    hide R.Forest;
  }

  lemma {:induction false} PutReady(sch: Schema, st: R.State, owner: nat, t: Type, v: Val, top: nat, n: nat)
    requires Typed(sch, t, v) && Reaches(sch, top) && Reach(t) <= top && Ready(st, owner, top, Weight(v) + n)
    ensures var st' := Put(sch, st, owner, t, v).0;
            Ready(st', owner, top, n) && Grows(st.live, st'.live) && FiledFor(st.live, st'.live, owner)
    decreases Weight(v), 2
  {
    hide R.PutResult, R.Forest;
    match t
    case Handle(tag) => FileReady(st, owner, tag, v.p, top, n);
    case PtrTo(r) => if !v.Null? { PutRecordReady(sch, st, owner, r, v, top, n); }
    case ByValue(r) => PutRecordReady(sch, st, owner, r, v, top, n);
    case ListOf(e) => if !v.Null? { PutAllReady(sch, st, owner, e, v.vals, top, n); }
    case _ =>
  }

  lemma {:induction false} PutRecordReady(sch: Schema, st: R.State, owner: nat, r: Text, v: Val, top: nat, n: nat)
    requires TypedRecord(sch, r, v) && Reaches(sch, top) && Ready(st, owner, top, Weight(v) + n)
    ensures var st' := PutRecord(sch, st, owner, r, v).0;
            Ready(st', owner, top, n) && Grows(st.live, st'.live) && FiledFor(st.live, st'.live, owner)
    decreases Weight(v), 1
  {
    hide R.Forest;
    match sch.records[r]
    case Struct(fields) => PutFieldsReady(sch, st, owner, fields, v.vals, top, n);
    case Counted(e) => PutAllReady(sch, st, owner, ByValue(e), v.vals, top, n);
  }

  lemma {:induction false} PutFieldsReady(sch: Schema, st: R.State, owner: nat, fields: seq<Field>, vals: seq<Val>,
                                          top: nat, n: nat)
    requires TypedFields(sch, fields, vals) && Reaches(sch, top) && FieldsReach(fields, top)
    requires Ready(st, owner, top, WeightOfAll(vals) + n)
    ensures var st' := PutFields(sch, st, owner, fields, vals).0;
            Ready(st', owner, top, n) && Grows(st.live, st'.live) && FiledFor(st.live, st'.live, owner)
    decreases WeightOfAll(vals), 0
  {
    hide R.Forest;
    if vals != [] {
      var rest := WeightOfAll(vals[1..]) + n;
      if fields[0].carried {
        PutReady(sch, st, owner, fields[0].t, vals[0], top, rest);
        var st1 := Put(sch, st, owner, fields[0].t, vals[0]).0;
        PutFieldsReady(sch, st1, owner, fields[1..], vals[1..], top, n);
        FiledOn(st.live, st1.live, PutFields(sch, st1, owner, fields[1..], vals[1..]).0.live, owner);
      } else {
        PutFieldsReady(sch, st, owner, fields[1..], vals[1..], top, n);
      }
    }
  }

  lemma {:induction false} PutAllReady(sch: Schema, st: R.State, owner: nat, t: Type, vals: seq<Val>, top: nat, n: nat)
    requires TypedAll(sch, t, vals) && Reaches(sch, top) && Reach(t) <= top &&
             Ready(st, owner, top, WeightOfAll(vals) + n)
    ensures var st' := PutAll(sch, st, owner, t, vals).0;
            Ready(st', owner, top, n) && Grows(st.live, st'.live) && FiledFor(st.live, st'.live, owner)
    decreases WeightOfAll(vals), 0
  {
    hide R.Forest;
    if vals != [] {
      PutReady(sch, st, owner, t, vals[0], top, WeightOfAll(vals[1..]) + n);
      var st1 := Put(sch, st, owner, t, vals[0]).0;
      PutAllReady(sch, st1, owner, t, vals[1..], top, n);
      FiledOn(st.live, st1.live, PutAll(sch, st1, owner, t, vals[1..]).0.live, owner);
    }
  }

  // ------------------------------------------------ what mirrors goes on mirroring

  lemma {:induction false} MirrorsOn(a: R.Live, b: R.Live, sch: Schema, t: Type, v: Val, w: Val)
    requires Typed(sch, t, v) && Mirrors(a, sch, t, v, w) && Grows(a, b)
    ensures Mirrors(b, sch, t, v, w)
    decreases Weight(v), 2
  {
    match t
    case PtrTo(r) => if !v.Null? { MirrorsRecordOn(a, b, sch, r, v, w); }
    case ByValue(r) => MirrorsRecordOn(a, b, sch, r, v, w);
    case ListOf(e) => if !v.Null? { MirrorsAllOn(a, b, sch, e, v.vals, w.vals); }
    case _ =>
  }

  lemma {:induction false} MirrorsRecordOn(a: R.Live, b: R.Live, sch: Schema, r: Text, v: Val, w: Val)
    requires TypedRecord(sch, r, v) && MirrorsRecord(a, sch, r, v, w) && Grows(a, b)
    ensures MirrorsRecord(b, sch, r, v, w)
    decreases Weight(v), 1
  {
    match sch.records[r]
    case Struct(fields) => MirrorsFieldsOn(a, b, sch, fields, v.vals, w.vals);
    case Counted(e) => MirrorsAllOn(a, b, sch, ByValue(e), v.vals, w.vals);
  }

  lemma {:induction false} MirrorsFieldsOn(a: R.Live, b: R.Live, sch: Schema, fields: seq<Field>, vs: seq<Val>,
                                           ws: seq<Val>)
    requires TypedFields(sch, fields, vs) && MirrorsFields(a, sch, fields, vs, ws) && Grows(a, b)
    ensures MirrorsFields(b, sch, fields, vs, ws)
    decreases WeightOfAll(vs), 0
  {
    if vs != [] {
      if fields[0].carried {
        MirrorsOn(a, b, sch, fields[0].t, vs[0], ws[0]);
      }
      MirrorsFieldsOn(a, b, sch, fields[1..], vs[1..], ws[1..]);
    }
  }

  lemma {:induction false} MirrorsAllOn(a: R.Live, b: R.Live, sch: Schema, t: Type, vs: seq<Val>, ws: seq<Val>)
    requires TypedAll(sch, t, vs) && MirrorsAll(a, sch, t, vs, ws) && Grows(a, b)
    ensures MirrorsAll(b, sch, t, vs, ws)
    decreases WeightOfAll(vs), 0
  {
    if vs != [] {
      MirrorsOn(a, b, sch, t, vs[0], ws[0]);
      MirrorsAllOn(a, b, sch, t, vs[1..], ws[1..]);
    }
  }

  // ------------------------------------------------------------ the round trip

  /** Members put in front under other names hide nothing. */
  lemma {:induction false} LookupBehind(pre: seq<J.Kid>, kids: seq<J.Kid>, key: Text)
    requires forall p :: p in pre ==> Doc.CString(p.key) != key
    ensures Frames.Lookup(pre + kids, key) == Frames.Lookup(kids, key)
  {
    if pre == [] {
      assert pre + kids == kids;
    } else {
      assert (pre + kids)[1..] == pre[1..] + kids;
      LookupBehind(pre[1..], kids, key);
    }
  }

  predicate Elsewhere(pre: seq<J.Kid>, fields: seq<Field>) {
    forall p, f :: p in pre && f in fields ==> Doc.CString(p.key) != f.name
  }

  lemma {:induction false} FirstMemberFound(pre: seq<J.Kid>, kid: J.Kid, kids: seq<J.Kid>, fields: seq<Field>)
    requires fields != [] && Distinct(fields) && Elsewhere(pre, fields) && kid.key == fields[0].name
    ensures Frames.Lookup(pre + ([kid] + kids), fields[0].name) == Some(kid.val)
    ensures Elsewhere(pre + [kid], fields[1..])
  {
    Frames.CStringOfNulFree(kid.key);
    assert fields[0] in fields;
    LookupBehind(pre, [kid] + kids, fields[0].name);
    assert ([kid] + kids)[0] == kid;
    forall p, f | p in pre + [kid] && f in fields[1..] ensures Doc.CString(p.key) != f.name {
      assert f in fields;
    }
  }

  lemma {:induction false} PutMirrors(sch: Schema, st: R.State, owner: nat, t: Type, v: Val, top: nat, n: nat)
    requires SchemaGood(sch) && Typed(sch, t, v) && Reaches(sch, top) && Reach(t) <= top &&
             Ready(st, owner, top, Weight(v) + n)
    ensures var (st', j) := Put(sch, st, owner, t, v); Mirrors(st'.live, sch, t, v, Fill(sch, t, Some(j)))
    decreases Weight(v), 2
  {
    hide R.PutResult, R.Forest;
    match t
    case String => if v.Chars? { Frames.CStringOfNulFree(v.s); }
    case Path => if v.Chars? { Frames.CStringOfNulFree(PathOut(sch.style, v.s)); }
    case Scalar(c) => CastsUndo(c, v.n);
    case Handle(tag) => FileReady(st, owner, tag, v.p, top, n);
    case PtrTo(r) => if !v.Null? { PutRecordMirrors(sch, st, owner, r, v, top, n); }
    case ByValue(r) => PutRecordMirrors(sch, st, owner, r, v, top, n);
    case ListOf(e) => if !v.Null? { PutAllMirrors(sch, st, owner, e, v.vals, top, n); }
    case Unsupported =>
  }

  lemma {:induction false} PutRecordMirrors(sch: Schema, st: R.State, owner: nat, r: Text, v: Val, top: nat, n: nat)
    requires SchemaGood(sch) && TypedRecord(sch, r, v) && Reaches(sch, top) && Ready(st, owner, top, Weight(v) + n)
    ensures var (st', j) := PutRecord(sch, st, owner, r, v);
            !j.Null? && MirrorsRecord(st'.live, sch, r, v, FillRecord(sch, r, Some(j)))
    decreases Weight(v), 1
  {
    hide R.Forest;
    match sch.records[r]
    case Struct(fields) =>
      PutFieldsMirror(sch, st, owner, fields, v.vals, [], top, n);
      var kids := PutFields(sch, st, owner, fields, v.vals).1;
      assert [] + kids == kids;
    case Counted(e) => PutAllMirrors(sch, st, owner, ByValue(e), v.vals, top, n);
  }

  lemma {:induction false} PutFieldsMirror(sch: Schema, st: R.State, owner: nat, fields: seq<Field>, vals: seq<Val>,
                                           pre: seq<J.Kid>,
                                           top: nat, n: nat)
    requires SchemaGood(sch) && TypedFields(sch, fields, vals) && Reaches(sch, top) && FieldsReach(fields, top)
    requires Ready(st, owner, top, WeightOfAll(vals) + n) && Distinct(fields) && Elsewhere(pre, fields)
    ensures var (st', kids) := PutFields(sch, st, owner, fields, vals);
            MirrorsFields(st'.live, sch, fields, vals, FillFields(sch, fields, Some(J.Group(true, pre + kids))))
    decreases WeightOfAll(vals), 0
  {
    hide R.Forest;
    if vals != [] {
      var (st', kids) := PutFields(sch, st, owner, fields, vals);
      var ws := FillFields(sch, fields, Some(J.Group(true, pre + kids)));
      if fields[0].carried {
        FirstFieldMirrors(sch, st, owner, fields, vals, pre, top, n);
      } else {
        PutFieldsMirror(sch, st, owner, fields[1..], vals[1..], pre, top, n);
        assert ws[1..] == FillFields(sch, fields[1..], Some(J.Group(true, pre + kids)));
      }
    }
  }

  lemma {:induction false} FirstFieldMirrors(sch: Schema, st: R.State, owner: nat, fields: seq<Field>, vals: seq<Val>,
                                             pre: seq<J.Kid>,
                                             top: nat, n: nat)
    requires SchemaGood(sch) && vals != [] && TypedFields(sch, fields, vals) && Reaches(sch, top) &&
             FieldsReach(fields, top)
    requires Ready(st, owner, top, WeightOfAll(vals) + n) && Distinct(fields) && Elsewhere(pre, fields) &&
             fields[0].carried
    ensures var (st', kids) := PutFields(sch, st, owner, fields, vals);
            MirrorsFields(st'.live, sch, fields, vals, FillFields(sch, fields, Some(J.Group(true, pre + kids))))
    decreases WeightOfAll(vals) - 1, 3
  {
    hide R.Forest, Mirrors, MirrorsFields, Fill, FillFields, Put, Reaches, SchemaGood;
    var rest := WeightOfAll(vals[1..]) + n;
    PutReady(sch, st, owner, fields[0].t, vals[0], top, rest);
    PutMirrors(sch, st, owner, fields[0].t, vals[0], top, rest);
    var (st1, j) := Put(sch, st, owner, fields[0].t, vals[0]);
    var (st2, kids) := PutFields(sch, st1, owner, fields[1..], vals[1..]);
    var kid := J.Kid(fields[0].name, j);
    FirstMemberFound(pre, kid, kids, fields);
    PutFieldsReady(sch, st1, owner, fields[1..], vals[1..], top, n);
    PutFieldsMirror(sch, st1, owner, fields[1..], vals[1..], pre + [kid], top, n);
    MirrorsOn(st1.live, st2.live, sch, fields[0].t, vals[0], Fill(sch, fields[0].t, Some(j)));
    assert pre + [kid] + kids == pre + ([kid] + kids);
    hide Elsewhere, Distinct, FieldsReach;
    FirstAndRestMirror(st2.live, sch, fields, vals, J.Group(true, pre + ([kid] + kids)));
  }

  lemma {:induction false} FirstAndRestMirror(live: R.Live, sch: Schema, fields: seq<Field>, vals: seq<Val>, v: J.Json)
    requires vals != [] && TypedFields(sch, fields, vals) && fields[0].carried
    requires Mirrors(live, sch, fields[0].t, vals[0], Fill(sch, fields[0].t, Member(Some(v), fields[0].name)))
    requires MirrorsFields(live, sch, fields[1..], vals[1..], FillFields(sch, fields[1..], Some(v)))
    ensures MirrorsFields(live, sch, fields, vals, FillFields(sch, fields, Some(v)))
  {
    hide Mirrors, Fill, Member;
    var ws := FillFields(sch, fields, Some(v));
    assert ws[1..] == FillFields(sch, fields[1..], Some(v));
  }

  lemma {:induction false} PutAllMirrors(sch: Schema, st: R.State, owner: nat, t: Type, vals: seq<Val>, top: nat,
                                         n: nat)
    requires SchemaGood(sch) && TypedAll(sch, t, vals) && Reaches(sch, top) && Reach(t) <= top
    requires Ready(st, owner, top, WeightOfAll(vals) + n)
    ensures var (st', kids) := PutAll(sch, st, owner, t, vals);
            |kids| == |vals| && MirrorsAll(st'.live, sch, t, vals, FillAll(sch, t, kids))
    decreases WeightOfAll(vals), 0
  {
    hide R.Forest, Mirrors, Put, Fill, SchemaGood, Reaches, Reach;
    if vals != [] {
      PutReady(sch, st, owner, t, vals[0], top, WeightOfAll(vals[1..]) + n);
      PutMirrors(sch, st, owner, t, vals[0], top, WeightOfAll(vals[1..]) + n);
      var (st1, j) := Put(sch, st, owner, t, vals[0]);
      PutAllReady(sch, st1, owner, t, vals[1..], top, n);
      PutAllMirrors(sch, st1, owner, t, vals[1..], top, n);
      var (st2, kids) := PutAll(sch, st1, owner, t, vals[1..]);
      MirrorsOn(st1.live, st2.live, sch, t, vals[0], Fill(sch, t, Some(j)));
      assert ([J.Kid([], j)] + kids)[1..] == kids;
      var ws := FillAll(sch, t, [J.Kid([], j)] + kids);
      assert ws[1..] == FillAll(sch, t, kids);
    }
  }

  // ----------------------------------------------------------- across the wire

  lemma {:induction false} PutWritable(sch: Schema, st: R.State, owner: nat, t: Type, v: Val, top: nat, n: nat)
    requires SchemaGood(sch) && Typed(sch, t, v) && Reaches(sch, top) && Reach(t) <= top &&
             Ready(st, owner, top, Weight(v) + n)
    ensures J.Writable(Put(sch, st, owner, t, v).1)
    decreases Weight(v), 2
  {
    hide R.PutResult, R.Forest;
    match t
    case Scalar(c) => CastsUndo(c, v.n);
    case Handle(tag) => FileReady(st, owner, tag, v.p, top, n);
    case PtrTo(r) => if !v.Null? { PutRecordWritable(sch, st, owner, r, v, top, n); }
    case ByValue(r) => PutRecordWritable(sch, st, owner, r, v, top, n);
    case ListOf(e) => if !v.Null? { PutAllWritable(sch, st, owner, e, v.vals, top, n); }
    case _ =>
  }

  lemma {:induction false} PutRecordWritable(sch: Schema, st: R.State, owner: nat, r: Text, v: Val, top: nat, n: nat)
    requires SchemaGood(sch) && TypedRecord(sch, r, v) && Reaches(sch, top) && Ready(st, owner, top, Weight(v) + n)
    ensures J.Writable(PutRecord(sch, st, owner, r, v).1)
    decreases Weight(v), 1
  {
    hide R.Forest;
    match sch.records[r]
    case Struct(fields) => PutFieldsWritable(sch, st, owner, fields, v.vals, top, n);
    case Counted(e) => PutAllWritable(sch, st, owner, ByValue(e), v.vals, top, n);
  }

  lemma {:induction false} PutFieldsWritable(sch: Schema, st: R.State, owner: nat, fields: seq<Field>, vals: seq<Val>,
                                             top: nat, n: nat)
    requires SchemaGood(sch) && TypedFields(sch, fields, vals) && Reaches(sch, top) && FieldsReach(fields, top)
    requires Ready(st, owner, top, WeightOfAll(vals) + n) && Distinct(fields)
    ensures J.WritableKids(true, PutFields(sch, st, owner, fields, vals).1)
    decreases WeightOfAll(vals), 0
  {
    hide R.Forest;
    if vals != [] {
      var rest := WeightOfAll(vals[1..]) + n;
      if fields[0].carried {
        PutReady(sch, st, owner, fields[0].t, vals[0], top, rest);
        PutWritable(sch, st, owner, fields[0].t, vals[0], top, rest);
        var (st1, j) := Put(sch, st, owner, fields[0].t, vals[0]);
        PutFieldsWritable(sch, st1, owner, fields[1..], vals[1..], top, n);
        var kids := PutFields(sch, st1, owner, fields[1..], vals[1..]).1;
        assert ([J.Kid(fields[0].name, j)] + kids)[1..] == kids;
      } else {
        PutFieldsWritable(sch, st, owner, fields[1..], vals[1..], top, n);
      }
    }
  }

  lemma {:induction false} PutAllWritable(sch: Schema, st: R.State, owner: nat, t: Type, vals: seq<Val>, top: nat,
                                          n: nat)
    requires SchemaGood(sch) && TypedAll(sch, t, vals) && Reaches(sch, top) && Reach(t) <= top
    requires Ready(st, owner, top, WeightOfAll(vals) + n)
    ensures J.WritableKids(false, PutAll(sch, st, owner, t, vals).1)
    decreases WeightOfAll(vals), 0
  {
    hide R.Forest;
    if vals != [] {
      PutReady(sch, st, owner, t, vals[0], top, WeightOfAll(vals[1..]) + n);
      PutWritable(sch, st, owner, t, vals[0], top, WeightOfAll(vals[1..]) + n);
      var (st1, j) := Put(sch, st, owner, t, vals[0]);
      PutAllWritable(sch, st1, owner, t, vals[1..], top, n);
      var kids := PutAll(sch, st1, owner, t, vals[1..]).1;
      assert ([J.Kid([], j)] + kids)[1..] == kids;
    }
  }

  /** The round trip: whatever the schema and the value, what the client rebuilds from the
      parsed text mirrors what the server had, in the server's table as it then is.  The
      text parses exactly when it nests no deeper than the reader goes. */
  lemma {:induction false} RoundTrip(sch: Schema, st: R.State, owner: nat, t: Type, v: Val, top: nat)
    requires SchemaGood(sch) && Typed(sch, t, v) && Reaches(sch, top) && Reach(t) <= top &&
             Ready(st, owner, top, Weight(v))
    ensures var (st', j) := Put(sch, st, owner, t, v);
            var parsed := J.Parse(J.Print(j));
            && (parsed.Got? <==> J.Depth(j) <= J.MAX_DEPTH)
            && (parsed.Got? ==> Mirrors(st'.live, sch, t, v, Fill(sch, t, Some(parsed.v))))
            && R.Forest(st') && Grows(st.live, st'.live)
  {
    hide Put, Mirrors, Fill, Typed, Reaches, SchemaGood, R.Forest, Grows, Reach;
    var (st', j) := Put(sch, st, owner, t, v);
    PutReady(sch, st, owner, t, v, top, 0);
    PutWritable(sch, st, owner, t, v, top, 0);
    PutMirrors(sch, st, owner, t, v, top, 0);
    JsonRoundTrip.RoundTrip(j);
  }

  /** A path, across the wire: a client that takes the server's form gets it as it is, and
      so does any other if it is empty or does not convert; otherwise as converted. */
  lemma {:induction false} PathArrives(sch: Schema, st: R.State, owner: nat, s: Text)
    requires J.NulFree(s)
    ensures var parsed := J.Parse(J.Print(Put(sch, st, owner, Path, Chars(s)).1));
            && parsed.Got?
            && var w := Fill(sch, Path, Some(parsed.v));
               && (sch.style.Posix? || s == [] ==> w == Chars(s))
               && (sch.style.Win32? && s != [] ==>
                     match sch.style.convert(s)
                     case Some(win32) => w == Chars(Doc.CString(win32))
                     case None => w == Chars(s))
  {
    var j := Put(sch, st, owner, Path, Chars(s)).1;
    JsonRoundTrip.RoundTrip(j);
    Frames.CStringOfNulFree(PathOut(sch.style, s));
  }

  /** The object an id names, if it is of that kind. */
  function Resolve(live: R.Live, id: nat, tag: R.Tag): nat {
    if id in live && live[id].tag == tag then live[id].ptr else 0
  }
}
