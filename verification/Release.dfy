/** A handle released: the server drops what is filed under it by walking owners, the
    client lets go of what it keeps by looking at the high bits of ids, and the two retire
    the same objects. */
module Release {
  import opened Registry
  import Json
  import C = ClientCache
  import P = Columns

  /** What the server has after a handle's release. */
  ghost function ServerAfter(st: State, h: nat): State { Step(st, DropOwner(h)) }

  lemma {:induction false} DroppedIsOfRoot(st: State, h: nat, id: nat)
    requires Forest(st) && h in st.live && st.live[h].tag == Handle && id in st.live
    ensures id in ServerAfter(st, h).live <==> Root(id) != Root(h)
  {
    SubtreeIsRoot(st, h, id);
    hide Forest, Root;
  }

  /** Of what the client kept under a server object, it keeps exactly what is under an
      object that outlives the release. */
  lemma {:induction false} BorrowedGoWithTheirObjects(st: State, h: nat, c: C.Cache, strings: Json.Text -> bool,
                                                      o: C.Owned)
    requires Forest(st) && h in st.live && st.live[h].tag == Handle
    requires C.Inv(c, strings) && C.Held(c, o) && o.owner in st.live
    ensures C.Held(C.Purged(c, C.OfRoot(Root(h))), o) <==> o.owner in ServerAfter(st, h).live
  {
    DroppedIsOfRoot(st, h, o.owner);
    C.PurgeKeeps(c, C.OfRoot(Root(h)), strings);
    hide Forest, C.Inv, C.Purged, C.Held, ServerAfter, Root;
  }

  /** And of its packages' places in groups, those of packages that outlive it. */
  lemma {:induction false} SlotsGoWithTheirPackages(st: State, h: nat, b: P.Book, id: nat)
    requires Forest(st) && h in st.live && st.live[h].tag == Handle && id in b.slots && id in st.live
    ensures id in P.Freed(b, Root(h)).slots <==> id in ServerAfter(st, h).live
  {
    DroppedIsOfRoot(st, h, id);
    hide Forest, ServerAfter, Root;
  }
}
