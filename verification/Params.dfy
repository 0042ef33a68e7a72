/** Handles and lists sent as arguments: strings as they are, handles as their ids, which
    the server resolves, refusing the request if one names nothing. */
module Params {
  import opened Wrappers
  import J = Json
  import Doc = JsonDoc
  import Frames
  import JsonRoundTrip
  import M = Marshal
  import R = Registry

  type Text = J.Text

  const UINT64 := M.IntType(false, 64)

  // ------------------------------------------------------ writing, on the client
  //
  // A C list without elements is a null pointer, and goes as null.

  function StringNode(s: Option<Text>): J.Json { if s.None? then J.Null else J.Str(s.value) }

  function StringNodes(l: seq<Option<Text>>): seq<J.Kid> {
    if l == [] then [] else [J.Kid([], StringNode(l[0]))] + StringNodes(l[1..])
  }

  function PutStrings(l: seq<Option<Text>>): J.Json { if l == [] then J.Null else J.Group(false, StringNodes(l)) }

  function IdNodes(ids: seq<nat>): seq<J.Kid> {
    if ids == [] then [] else [J.Kid([], J.Num(M.ToLong(ids[0])))] + IdNodes(ids[1..])
  }

  function PutIds(ids: seq<nat>): J.Json { if ids == [] then J.Null else J.Group(false, IdNodes(ids)) }

  // ------------------------------------------------------ taking, on the server

  function Kids(j: Option<J.Json>): seq<J.Kid> { if j.Some? && j.value.Group? then j.value.kids else [] }

  function TakeEach(kids: seq<J.Kid>): seq<Option<Text>> {
    if kids == [] then [] else [Frames.StringOf(Some(kids[0].val))] + TakeEach(kids[1..])
  }

  function TakeStrings(j: Option<J.Json>): seq<Option<Text>> { TakeEach(Kids(j)) }

  /** The objects taken, and whether the request is refused. */
  datatype Taken = Taken(ptrs: seq<nat>, bad: bool)

  function NodeId(j: J.Json): nat { M.FromLong(UINT64, Frames.NumberOr(Some(j), 0)) }

  /** One after the other, up to the first that does not resolve. */
  function Resolved(live: R.Live, tag: R.Tag, kids: seq<J.Kid>, so: seq<nat>): Taken {
    if kids == [] then Taken(so, false)
    else
      var p := M.Resolve(live, NodeId(kids[0].val), tag);
      if p == 0 then Taken(so, true) else Resolved(live, tag, kids[1..], so + [p])
  }

  /** An argument that is not there at all refuses the request too. */
  function TakeHandles(live: R.Live, tag: R.Tag, j: Option<J.Json>): Taken {
    if j.None? then Taken([], true) else Resolved(live, tag, Kids(j), [])
  }

  /** A single handle: null is a legitimate argument, an id that names nothing is not. */
  function TakeHandle(live: R.Live, tag: R.Tag, j: Option<J.Json>): Taken {
    if j.None? then Taken([0], true)
    else
      var id := if j.value.Null? then 0 else NodeId(j.value);
      if id == 0 then Taken([0], false)
      else
        var p := M.Resolve(live, id, tag);
        Taken([p], p == 0)
  }

  // ------------------------------------------------------------ the round trips

  predicate CStrings(l: seq<Option<Text>>) { forall s :: s in l && s.Some? ==> J.NulFree(s.value) }

  lemma {:induction false} StringNodesComeBack(l: seq<Option<Text>>)
    requires CStrings(l)
    ensures TakeEach(StringNodes(l)) == l
    ensures J.WritableKids(false, StringNodes(l)) && J.DepthOfKids(StringNodes(l)) == 0
  {
    if l != [] {
      StringNodesComeBack(l[1..]);
      assert l[0] in l && StringNodes(l)[1..] == StringNodes(l[1..]);
      if l[0].Some? {
        Frames.CStringOfNulFree(l[0].value);
      }
    }
  }

  /** A list of strings, null ones among them, arrives as it was sent. */
  lemma {:induction false} StringsArrive(l: seq<Option<Text>>)
    requires CStrings(l)
    ensures var parsed := J.Parse(J.Print(PutStrings(l)));
            parsed.Got? && TakeStrings(Some(parsed.v)) == l
  {
    StringNodesComeBack(l);
    hide StringNodes, TakeEach;
    JsonRoundTrip.RoundTrip(PutStrings(l));
    assert TakeEach([]) == [] by { StringNodesComeBack([]); NoNodes(); }
  }

  lemma {:induction false} NoNodes()
    ensures StringNodes([]) == [] && IdNodes([]) == []
  {
  }

  predicate Ids(ids: seq<nat>) { forall i :: 0 <= i < |ids| ==> ids[i] < 0x1_0000_0000_0000_0000 }

  lemma {:induction false} IdNodesAreIds(ids: seq<nat>)
    requires Ids(ids)
    ensures |IdNodes(ids)| == |ids| && forall i :: 0 <= i < |ids| ==> NodeId(IdNodes(ids)[i].val) == ids[i]
    ensures J.WritableKids(false, IdNodes(ids)) && J.DepthOfKids(IdNodes(ids)) == 0
  {
    if ids != [] {
      M.CastsUndo(UINT64, ids[0]);
      IdNodesAreIds(ids[1..]);
      assert IdNodes(ids)[1..] == IdNodes(ids[1..]);
      hide NodeId;
      forall i | 0 < i < |ids| ensures NodeId(IdNodes(ids)[i].val) == ids[i] {
        assert IdNodes(ids)[i] == IdNodes(ids[1..])[i - 1];
      }
    }
  }

  /** Is this the id of a live object of that kind? */
  predicate Names(live: R.Live, tag: R.Tag, id: nat) { id in live && live[id].tag == tag && live[id].ptr != 0 }

  /** Does every one of these ids name an object of that kind? */
  predicate AllResolve(live: R.Live, tag: R.Tag, ids: seq<nat>) {
    forall i :: 0 <= i < |ids| ==> M.Resolve(live, ids[i], tag) != 0
  }

  function Objects(live: R.Live, tag: R.Tag, ids: seq<nat>): seq<nat> {
    seq(|ids|, i requires 0 <= i < |ids| => M.Resolve(live, ids[i], tag))
  }

  lemma {:induction false} ResolvedIsAll(live: R.Live, tag: R.Tag, kids: seq<J.Kid>, ids: seq<nat>, so: seq<nat>)
    requires |kids| == |ids| && forall i :: 0 <= i < |ids| ==> NodeId(kids[i].val) == ids[i]
    ensures var t := Resolved(live, tag, kids, so);
            && (t.bad <==> !AllResolve(live, tag, ids))
            && (!t.bad ==> t.ptrs == so + Objects(live, tag, ids))
    decreases |kids|
  {
    if kids == [] {
      assert so + Objects(live, tag, ids) == so;
    } else {
      var p := M.Resolve(live, ids[0], tag);
      hide NodeId, M.Resolve;
      ResolvedIsAll(live, tag, kids[1..], ids[1..], so + [p]);
      assert AllResolve(live, tag, ids) <==> p != 0 && AllResolve(live, tag, ids[1..]) by {
        assert forall i :: 1 <= i < |ids| ==> ids[i] == ids[1..][i - 1];
      }
      assert so + [p] + Objects(live, tag, ids[1..]) == so + Objects(live, tag, ids);
    }
  }

  /** A list of handles: the request is refused exactly when some id is stale or of another
      kind, and otherwise the server has the object of each, in order. */
  lemma {:induction false} HandlesArrive(live: R.Live, tag: R.Tag, ids: seq<nat>)
    requires Ids(ids)
    ensures var parsed := J.Parse(J.Print(PutIds(ids)));
            && parsed.Got?
            && var t := TakeHandles(live, tag, Some(parsed.v));
               && (t.bad <==> exists i :: 0 <= i < |ids| && !Names(live, tag, ids[i]))
               && (!t.bad ==> |t.ptrs| == |ids| && forall i :: 0 <= i < |ids| ==> t.ptrs[i] == live[ids[i]].ptr)
  {
    IdNodesAreIds(ids);
    NoNodes();
    JsonRoundTrip.RoundTrip(PutIds(ids));
    ResolvedIsAll(live, tag, IdNodes(ids), ids, []);
    assert [] + Objects(live, tag, ids) == Objects(live, tag, ids);
  }

  // ---------------------------------------------------------------- full circle

  /** The pointers of a list of objects; on the client, their ids. */
  function IdsOf(ws: seq<M.Val>): (ids: seq<nat>)
    requires forall i :: 0 <= i < |ws| ==> ws[i].Obj?
    ensures |ids| == |ws| && forall i :: 0 <= i < |ws| ==> ids[i] == ws[i].p
  {
    if ws == [] then [] else [ws[0].p] + IdsOf(ws[1..])
  }

  lemma {:induction false} MirroredHandles(live: R.Live, sch: M.Schema, tag: R.Tag, vs: seq<M.Val>, ws: seq<M.Val>)
    requires M.TypedAll(sch, M.Handle(tag), vs) && M.MirrorsAll(live, sch, M.Handle(tag), vs, ws)
    ensures |ws| == |vs|
    ensures forall i :: 0 <= i < |vs| ==> vs[i].Obj? && ws[i].Obj? && M.Mirrors(live, sch, M.Handle(tag), vs[i], ws[i])
  {
    if vs != [] {
      MirroredHandles(live, sch, tag, vs[1..], ws[1..]);
      forall i | 0 < i < |vs|
        ensures vs[i].Obj? && ws[i].Obj? && M.Mirrors(live, sch, M.Handle(tag), vs[i], ws[i])
      {
        assert vs[i] == vs[1..][i - 1] && ws[i] == ws[1..][i - 1];
      }
    }
  }

  /** A handle sent as its id: the request is refused exactly when the id is stale or of
      another kind, and otherwise the server has the object, or null for null. */
  lemma {:induction false} HandleArrives(live: R.Live, tag: R.Tag, id: nat)
    requires Ids([id])
    ensures var parsed := J.Parse(J.Print(J.Num(M.ToLong(id))));
            && parsed.Got?
            && var t := TakeHandle(live, tag, Some(parsed.v));
               && (t.bad <==> id != 0 && !Names(live, tag, id))
               && (!t.bad ==> t.ptrs == [if id == 0 then 0 else live[id].ptr])
  {
    assert [id][0] == id;
    M.CastsUndo(UINT64, id);
    JsonRoundTrip.RoundTrip(J.Num(M.ToLong(id)));
  }

  /** A handle the server sent, as long as it stays filed, comes back as that object. */
  lemma {:induction false} HandleComesBack(live: R.Live, later: R.Live, sch: M.Schema, tag: R.Tag, v: M.Val, w: M.Val)
    requires v.Obj? && w.Obj? && M.Mirrors(live, sch, M.Handle(tag), v, w) && M.Grows(live, later) && 0 !in later
    requires w.p < R.INT64_LIMIT
    ensures var parsed := J.Parse(J.Print(J.Num(M.ToLong(w.p))));
            parsed.Got? && TakeHandle(later, tag, Some(parsed.v)) == Taken([v.p], false)
  {
    HandleArrives(later, tag, w.p);
    ResolvesLater(live, later, sch, tag, v, w);
    hide TakeHandle, M.Mirrors, M.Resolve, J.Parse, J.Print;
  }

  /** A list of objects the server sent, as long as they stay filed, comes back from the
      client as those objects; it is refused only if a null was among them. */
  lemma {:induction false} ListComesBack(live: R.Live, later: R.Live, sch: M.Schema, tag: R.Tag, vs: seq<M.Val>,
                                         ws: seq<M.Val>)
    requires M.TypedAll(sch, M.Handle(tag), vs) && M.MirrorsAll(live, sch, M.Handle(tag), vs, ws)
    requires M.Grows(live, later) && 0 !in later
    requires forall i :: 0 <= i < |ws| && ws[i].Obj? ==> ws[i].p < R.INT64_LIMIT
    ensures |ws| == |vs| && forall i :: 0 <= i < |vs| ==> vs[i].Obj? && ws[i].Obj?
    ensures var parsed := J.Parse(J.Print(PutIds(IdsOf(ws))));
            && parsed.Got?
            && var t := TakeHandles(later, tag, Some(parsed.v));
               && (t.bad <==> M.Obj(0) in vs)
               && (!t.bad ==> t.ptrs == IdsOf(vs))
  {
    MirroredHandles(live, sch, tag, vs, ws);
    var ids := IdsOf(ws);
    assert Ids(ids);
    HandlesArrive(later, tag, ids);
    forall i | 0 <= i < |vs|
      ensures Names(later, tag, ids[i]) <==> vs[i] != M.Obj(0)
      ensures Names(later, tag, ids[i]) ==> later[ids[i]].ptr == vs[i].p
    {
      ResolvesLater(live, later, sch, tag, vs[i], ws[i]);
    }
    hide TakeHandles, M.Resolve, M.Mirrors, M.MirrorsAll, M.TypedAll, PutIds, J.Parse, J.Print, Names;
  }

  lemma {:induction false} ResolvesLater(live: R.Live, later: R.Live, sch: M.Schema, tag: R.Tag, v: M.Val, w: M.Val)
    requires v.Obj? && w.Obj? && M.Mirrors(live, sch, M.Handle(tag), v, w) && M.Grows(live, later) && 0 !in later
    ensures M.Resolve(later, w.p, tag) == v.p
  {
    if v.p != 0 {
      assert R.FiledAs(live, w.p, v.p, tag);
      assert R.FiledAs(later, w.p, v.p, tag);
    }
  }
}
