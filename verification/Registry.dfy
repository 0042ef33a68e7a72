/** What the server's handle table means, without the hashing: which object each id
    names, which object owns it, and what every operation does to that.  `HandleTable`
    proves that the two open-addressed arrays implement exactly these operations; here
    are the properties of the operations themselves, over whole runs. */
module Registry {
  /** The kinds of object an id can name; an adopted record has none. */
  datatype Tag = NoTag | Handle | Db | Pkg | Changelog

  /** Handle over db over package over cursor; an adopted record owns nothing. */
  function Level(t: Tag): nat {
    match t
    case Handle => 4
    case Db => 3
    case Pkg => 2
    case Changelog => 1
    case NoTag => 0
  }

  /** The low 40 bits of an id are a sequence number, the bits above them its root. */
  const SEQ_LIMIT: nat := 0x100_0000_0000
  const ROOT_LIMIT: nat := 0x80_0000
  const INT64_LIMIT: nat := 0x8000_0000_0000_0000

  function Root(id: nat): nat { id / SEQ_LIMIT }

  function Seq(id: nat): nat { id % SEQ_LIMIT }

  function MakeId(root: nat, s: nat): nat { root * SEQ_LIMIT + s }

  /** One filed object. `release` is 0 unless the object was adopted. */
  datatype Slot = Slot(id: nat, ptr: nat, owner: nat, tag: Tag, release: nat)

  type Live = map<nat, Slot>

  /** `freed` holds the adopted objects whose release has run. */
  datatype State = State(live: Live, nextSeq: nat, nextRoot: nat, freed: multiset<Slot>)

  const Initial := State(map[], 1, 1, multiset{})

  datatype Op =
    | Put(ptr: nat, tag: Tag, owner: nat)
    | Adopt(ptr: nat, owner: nat, release: nat)
    | Drop(id: nat)
    | DropOwner(id: nat)
    | DropUnder(id: nat)
    | DropPtr(ptr: nat, tag: Tag)
    | Reset

  /** Is `id` `o`, or below it, as far as a walk of `depth` owners can see? */
  predicate Under(live: Live, id: nat, o: nat, depth: nat)
    decreases depth, id
  {
    && id != 0 && depth > 0
    && (id == o || (id in live && Under(live, live[id].owner, o, depth - 1)))
  }

  /** The walk the server takes. */
  const WALK: nat := 8

  /** The walk without a bound: the relation the server means to compute. */
  ghost predicate Below(live: Live, id: nat, o: nat) {
    exists n: nat :: Under(live, id, o, n)
  }

  /** The nearest object of `tag` at or above `id`, or else the last live one met. */
  function Climb(live: Live, id: nat, top: nat, tag: Tag, depth: nat): nat
    decreases depth, id
  {
    if id == 0 || depth == 0 || id !in live then top
    else if tag != NoTag && live[id].tag == tag then id
    else Climb(live, live[id].owner, id, tag, depth - 1)
  }

  function Ancestor(live: Live, id: nat, tag: Tag): nat { Climb(live, id, id, tag, WALK) }

  ghost predicate FiledAs(live: Live, id: nat, ptr: nat, tag: Tag) {
    id in live && live[id].ptr == ptr && live[id].tag == tag
  }

  /** The id a (pointer, tag) is filed under, 0 if it is not. */
  ghost function Lookup(live: Live, ptr: nat, tag: Tag): (id: nat)
    ensures id != 0 ==> ptr != 0 && FiledAs(live, id, ptr, tag)
    ensures id == 0 && ptr != 0 ==> forall other | other != 0 :: !FiledAs(live, other, ptr, tag)
  {
    if ptr != 0 && exists id: nat :: id != 0 && FiledAs(live, id, ptr, tag)
    then var id: nat :| id != 0 && FiledAs(live, id, ptr, tag); id
    else 0
  }

  function FreshId(st: State, tag: Tag, owner: nat): nat {
    MakeId(if owner != 0 then Root(owner) else if tag == Handle then st.nextRoot else 0, st.nextSeq)
  }

  /** File an object; filed before, it keeps its id, and moves only to an owner that is
      below the one it has. */
  ghost function PutResult(st: State, ptr: nat, tag: Tag, owner: nat): (State, nat) {
    if ptr == 0 then (st, 0)
    else
      var have := Lookup(st.live, ptr, tag);
      if have != 0 then
        var was := st.live[have];
        if owner != 0 && owner != was.owner && Under(st.live, owner, was.owner, WALK)
        then (st.(live := st.live[have := was.(owner := owner)]), have)
        else (st, have)
      else
        var id := FreshId(st, tag, owner);
        (st.(live := st.live[id := Slot(id, ptr, owner, tag, 0)],
             nextSeq := st.nextSeq + 1,
             nextRoot := if owner == 0 && tag == Handle then st.nextRoot + 1 else st.nextRoot), id)
  }

  ghost function AdoptResult(st: State, ptr: nat, owner: nat, release: nat): (State, nat) {
    var (st', id) := PutResult(st, ptr, NoTag, owner);
    if id in st'.live then (st'.(live := st'.live[id := st'.live[id].(release := release)]), id) else (st', id)
  }

  /** The adopted objects among those `ids`. */
  function Adopted(live: Live, ids: set<nat>): set<Slot> {
    set id | id in ids && id in live && live[id].release != 0 :: live[id]
  }

  /** Drop those ids, and run the releases that go with them. */
  function Without(st: State, ids: set<nat>): State {
    st.(live := st.live - ids, freed := st.freed + multiset(Adopted(st.live, ids)))
  }

  function Subtree(live: Live, o: nat): set<nat> {
    set id | id in live && Under(live, id, o, WALK)
  }

  ghost function Step(st: State, op: Op): State {
    match op
    case Put(ptr, tag, owner) => PutResult(st, ptr, tag, owner).0
    case Adopt(ptr, owner, release) => AdoptResult(st, ptr, owner, release).0
    case Drop(id) => Without(st, {id} * st.live.Keys)
    case DropOwner(id) => Without(st, Subtree(st.live, id))
    case DropUnder(id) => Without(st, Subtree(st.live, id) - {id})
    case DropPtr(ptr, tag) => Without(st, Subtree(st.live, Lookup(st.live, ptr, tag)))
    case Reset => Without(st, st.live.Keys)
  }

  /** What the server's own code keeps to: an owner is nobody or a live object of a
      higher kind, and a single id is dropped only when nothing is filed under it. */
  ghost predicate Legal(st: State, op: Op) {
    match op
    case Put(_, tag, owner) => Room(st) && GoodOwner(st.live, tag, owner)
    case Adopt(_, owner, release) => Room(st) && GoodOwner(st.live, NoTag, owner) && release != 0
    case Drop(id) => forall c | c in st.live :: st.live[c].owner != id
    case _ => true
  }

  ghost predicate Room(st: State) { st.nextSeq < SEQ_LIMIT && st.nextRoot < ROOT_LIMIT }

  ghost predicate GoodOwner(live: Live, tag: Tag, owner: nat) {
    owner == 0 || (owner in live && Level(live[owner].tag) > Level(tag))
  }

  // ------------------------------------------------------------ the invariant

  /** One slot of a sound table. */
  ghost predicate Sound(st: State, id: nat)
    requires id in st.live
  {
    var s := st.live[id];
    && s.id == id && s.ptr != 0
    && 0 < Seq(id) < st.nextSeq && Root(id) < st.nextRoot
    && (s.owner == 0 ==> if s.tag == Handle then Root(id) > 0 else Root(id) == 0)
    && (s.owner != 0 ==> GoodOwner(st.live, s.tag, s.owner) && Root(s.owner) == Root(id))
  }

  ghost predicate OneIdPerObject(live: Live) {
    forall a, b {:trigger live[a], live[b]} | a in live && b in live && live[a].ptr == live[b].ptr &&
      live[a].tag == live[b].tag :: a == b
  }

  ghost predicate OneHandlePerRoot(live: Live) {
    forall a, b {:trigger live[a], live[b]}
      | a in live && b in live && live[a].tag == Handle && live[b].tag == Handle && Root(a) == Root(b) :: a == b
  }

  /** Each release ran once, for an id that is gone for good. */
  ghost predicate ReleasesSpent(st: State) {
    && (forall s | s in st.freed :: st.freed[s] == 1 && s.id !in st.live && Seq(s.id) < st.nextSeq)
    && (forall s, t | s in st.freed && t in st.freed && s.id == t.id :: s == t)
  }

  ghost predicate Forest(st: State) {
    && 0 < st.nextSeq && 0 < st.nextRoot <= ROOT_LIMIT
    && (forall id {:trigger Sound(st, id)} | id in st.live :: Sound(st, id))
    && OneIdPerObject(st.live)
    && OneHandlePerRoot(st.live)
    && ReleasesSpent(st)
  }

  // ------------------------------------------------- the bounded walks suffice

  /** Owners climb in level, so a walk of 5 - level steps has seen everything. */
  lemma {:induction false} WalkSaturates(st: State, id: nat, o: nat, n: nat, m: nat)
    requires Forest(st) && n <= m && 0 < n
    requires id in st.live ==> 5 - Level(st.live[id].tag) <= n
    ensures Under(st.live, id, o, n) == Under(st.live, id, o, m)
    decreases n
  {
    if id != 0 && id != o && id in st.live {
      var up := st.live[id].owner;
      assert Sound(st, id);
      if up != 0 {
        WalkSaturates(st, up, o, n - 1, m - 1);
      }
    }
  }

  lemma {:induction false} WalkGrows(live: Live, id: nat, o: nat, n: nat, m: nat)
    requires n <= m && Under(live, id, o, n)
    ensures Under(live, id, o, m)
    decreases n
  {
    if id != o {
      WalkGrows(live, live[id].owner, o, n - 1, m - 1);
    }
  }

  /** The depth-8 walk decides the unbounded relation. */
  lemma {:induction false} UnderIsBelow(st: State, id: nat, o: nat)
    requires Forest(st)
    ensures Under(st.live, id, o, WALK) <==> Below(st.live, id, o)
  {
    if n: nat :| Under(st.live, id, o, n) {
      var m := if n < WALK then WALK else n;
      WalkGrows(st.live, id, o, n, m);
      WalkSaturates(st, id, o, WALK, m);
    }
  }

  /** An owner chain never comes back to where it started: what is filed under `id` is
      never above it. */
  lemma {:induction false} NoCycle(st: State, id: nat, o: nat, n: nat)
    requires Forest(st) && id in st.live && o in st.live && Under(st.live, id, o, n) && id != o
    ensures Level(st.live[o].tag) > Level(st.live[id].tag)
    ensures !Below(st.live, o, id)
  {
    LevelsClimb(st, id, o, n);
    if m: nat :| Under(st.live, o, id, m) {
      LevelsClimb(st, o, id, m);
    }
  }

  lemma {:induction false} LevelsClimb(st: State, id: nat, o: nat, n: nat)
    requires Forest(st) && id in st.live && o in st.live && Under(st.live, id, o, n) && id != o
    ensures Level(st.live[o].tag) > Level(st.live[id].tag)
    decreases n
  {
    assert Sound(st, id);
    var up := st.live[id].owner;
    if up != o {
      LevelsClimb(st, up, o, n - 1);
    }
  }

  lemma {:induction false} NothingAbove(live: Live, id: nat, b: nat, n: nat)
    requires id in live && live[id].owner == 0 && Under(live, id, b, n)
    ensures b == id
  {
    assert !Under(live, 0, b, n - 1);
  }

  /** Is `a` what a climb for `tag` from `id` should find: the nearest object of that kind
      at or above it, or, when there is none or no kind is asked for, the top? */
  ghost predicate Nearest(live: Live, id: nat, tag: Tag, a: nat) {
    && a in live && Below(live, id, a)
    && (if tag != NoTag && live[a].tag == tag then true
        else live[a].owner == 0 && (tag != NoTag ==> NoneAbove(live, id, tag)))
  }

  ghost predicate NoneAbove(live: Live, id: nat, tag: Tag) {
    forall b | b in live && Below(live, id, b) :: live[b].tag != tag
  }

  lemma {:induction false} ClimbFinds(st: State, id: nat, top: nat, tag: Tag, depth: nat)
    requires Forest(st) && id in st.live && 5 - Level(st.live[id].tag) <= depth
    ensures Nearest(st.live, id, tag, Climb(st.live, id, top, tag, depth))
    decreases depth, id
  {
    assert Sound(st, id);
    assert Under(st.live, id, id, 1);
    var up := st.live[id].owner;
    if tag == NoTag || st.live[id].tag != tag {
      if up == 0 {
        assert Climb(st.live, up, id, tag, depth - 1) == id;
        forall b | b in st.live && Below(st.live, id, b) ensures b == id {
          var n: nat :| Under(st.live, id, b, n);
          NothingAbove(st.live, id, b, n);
        }
      } else {
        ClimbFinds(st, up, id, tag, depth - 1);
        NearestFromBelow(st.live, id, tag, Climb(st.live, up, id, tag, depth - 1));
      }
    }
  }

  /** An object of another kind has the nearest that its owner has. */
  lemma {:induction false} NearestFromBelow(live: Live, id: nat, tag: Tag, a: nat)
    requires id in live && id != 0 && (tag == NoTag || live[id].tag != tag) && Nearest(live, live[id].owner, tag, a)
    ensures Nearest(live, id, tag, a)
  {
    var up := live[id].owner;
    var n: nat :| Under(live, up, a, n);
    assert Under(live, id, a, n + 1);
    forall b | b in live && Below(live, id, b) && b != id ensures Below(live, up, b) {
      var k: nat :| Under(live, id, b, k);
      assert Under(live, up, b, k - 1);
    }
  }

  /** The depth-8 climb computes the nearest ancestor of a kind, and anything it finds
      short of that is the top; an id that is not live is its own answer. */
  lemma {:induction false} AncestorIsNearest(st: State, id: nat, tag: Tag)
    requires Forest(st)
    ensures if id in st.live then Nearest(st.live, id, tag, Ancestor(st.live, id, tag))
            else Ancestor(st.live, id, tag) == id
  {
    if id in st.live {
      ClimbFinds(st, id, id, tag, WALK);
    }
  }

  // --------------------------------------- dropping by chain, dropping by root

  /** Everything a handle owns carries its root, and nothing else does. */
  lemma {:induction false} SubtreeIsRoot(st: State, h: nat, id: nat)
    requires Forest(st) && h in st.live && st.live[h].tag == Handle && id in st.live
    ensures Under(st.live, id, h, WALK) <==> Root(id) == Root(h)
    decreases 5 - Level(st.live[id].tag)
  {
    assert Sound(st, id) && Sound(st, h);
    var up := st.live[id].owner;
    if up != 0 && id != h {
      SubtreeIsRoot(st, h, up);
      WalkSaturates(st, up, h, WALK - 1, WALK);
    }
  }

  /** Releasing a handle by owner chains retires exactly the ids that carry its root in
      their high bits, which is the rule the client purges by. */
  lemma {:induction false} HandleReleaseIsByRoot(st: State, h: nat)
    requires Forest(st) && h in st.live && st.live[h].tag == Handle
    ensures Step(st, DropOwner(h)).live == map id | id in st.live && Root(id) != Root(h) :: st.live[id]
  {
    forall id | id in st.live ensures Under(st.live, id, h, WALK) <==> Root(id) == Root(h) {
      SubtreeIsRoot(st, h, id);
    }
  }

  /** Dropping an owner removes exactly it and what is below it; every survivor keeps
      its slot. */
  /** A chain of owners, from `id` up to `o`. */
  ghost predicate IsChain(live: Live, path: seq<nat>, id: nat, o: nat) {
    && |path| > 0 && path[0] == id && path[|path| - 1] == o && o != 0
    && forall i :: 0 <= i < |path| - 1 ==> path[i] != 0 && path[i] in live && path[i + 1] == live[path[i]].owner
  }

  /** To be below something is to have a chain of owners that leads there. */
  lemma {:induction false} BelowIsChain(live: Live, id: nat, o: nat)
    ensures Below(live, id, o) <==> exists path :: IsChain(live, path, id, o)
  {
    if Below(live, id, o) {
      var n :| Under(live, id, o, n);
      var path := ChainOf(live, id, o, n);
    }
    if path :| IsChain(live, path, id, o) {
      ChainIsUnder(live, path, id, o);
    }
  }

  lemma {:induction false} ChainOf(live: Live, id: nat, o: nat, n: nat) returns (path: seq<nat>)
    requires Under(live, id, o, n)
    ensures IsChain(live, path, id, o)
    decreases n
  {
    if id == o {
      path := [id];
    } else {
      var rest := ChainOf(live, live[id].owner, o, n - 1);
      path := [id] + rest;
    }
  }

  lemma {:induction false} ChainIsUnder(live: Live, path: seq<nat>, id: nat, o: nat)
    requires IsChain(live, path, id, o)
    ensures Under(live, id, o, |path|)
    decreases |path|
  {
    if |path| > 1 {
      assert path[1] == live[id].owner;
      ChainIsUnder(live, path[1..], path[1], o);
    }
  }

  lemma {:induction false} DropOwnerIsExact(st: State, o: nat)
    requires Forest(st)
    ensures Step(st, DropOwner(o)).live == map id | id in st.live && !Below(st.live, id, o) :: st.live[id]
    ensures Step(st, DropUnder(o)).live == map id | id in st.live && (id == o || !Below(st.live, id, o)) :: st.live[id]
  {
    forall id | id in st.live ensures Under(st.live, id, o, WALK) <==> Below(st.live, id, o) {
      UnderIsBelow(st, id, o);
    }
  }

  /** The other drops: a single id, everything from an object found by its pointer down,
      and all there is. */
  lemma {:induction false} OtherDropsAreExact(st: State, id: nat, ptr: nat, tag: Tag)
    requires Forest(st)
    ensures Step(st, Drop(id)).live == map x | x in st.live && x != id :: st.live[x]
    ensures Step(st, DropPtr(ptr, tag)).live ==
            map x | x in st.live && (forall o :: FiledAs(st.live, o, ptr, tag) ==> !Below(st.live, x, o)) :: st.live[x]
    ensures Step(st, Reset).live == map[]
  {
    DropPtrFinds(st, ptr, tag);
    hide Lookup, Under, Below;
  }

  lemma {:induction false} DropPtrFinds(st: State, ptr: nat, tag: Tag)
    requires Forest(st)
    ensures forall x :: x in Subtree(st.live, Lookup(st.live, ptr, tag)) <==>
              x in st.live && exists o :: FiledAs(st.live, o, ptr, tag) && Below(st.live, x, o)
  {
    var found := Lookup(st.live, ptr, tag);
    forall o | FiledAs(st.live, o, ptr, tag) ensures o == found {
      assert Sound(st, o);
    }
    assert found != 0 ==> FiledAs(st.live, found, ptr, tag);
    hide Lookup, FiledAs, Forest;
    forall x | x in st.live
      ensures Under(st.live, x, found, WALK) <==> exists o :: FiledAs(st.live, o, ptr, tag) && Below(st.live, x, o)
    {
      UnderIsBelow(st, x, found);
      NobodyOwns(st.live, x, WALK);
      hide Under, Below;
    }
  }

  // ------------------------------------------------- every operation keeps it

  /** A set of ids that holds all that is filed under its members. */
  ghost predicate Closed(live: Live, ids: set<nat>) {
    forall id | id in live && live[id].owner in ids && live[id].owner != 0 :: id in ids
  }

  lemma {:induction false} SubtreeIsClosed(st: State, o: nat)
    requires Forest(st)
    ensures Closed(st.live, Subtree(st.live, o))
    ensures Closed(st.live, Subtree(st.live, o) - {o})
  {
    forall id | id in st.live && st.live[id].owner in Subtree(st.live, o)
      ensures id in Subtree(st.live, o)
      ensures st.live[id].owner != o ==> id != o
    {
      var up := st.live[id].owner;
      assert Sound(st, id);
      WalkSaturates(st, up, o, WALK - 1, WALK);
      if up != o && id == o {
        LevelsClimb(st, up, o, WALK);
      }
    }
  }

  /** `live'` holds some of the same ids for the same objects. */
  ghost predicate SomeOf(live': Live, live: Live) {
    forall id | id in live' :: FiledAs(live, id, live'[id].ptr, live'[id].tag)
  }

  lemma {:induction false} FewerStayApart(live: Live, live': Live)
    requires OneIdPerObject(live) && OneHandlePerRoot(live) && SomeOf(live', live)
    ensures OneIdPerObject(live') && OneHandlePerRoot(live')
  {
    forall a, b | a in live' && b in live' && live'[a].ptr == live'[b].ptr && live'[a].tag == live'[b].tag
      ensures a == b
    {
      assert FiledAs(live, a, live'[a].ptr, live'[a].tag) && FiledAs(live, b, live'[b].ptr, live'[b].tag);
    }
    forall a, b | a in live' && b in live' && live'[a].tag == Handle && live'[b].tag == Handle && Root(a) == Root(b)
      ensures a == b
    {
      assert FiledAs(live, a, live'[a].ptr, live'[a].tag) && FiledAs(live, b, live'[b].ptr, live'[b].tag);
    }
  }

  lemma {:induction false} DropKeepsForest(st: State, ids: set<nat>)
    requires Forest(st) && Closed(st.live, ids) && ids <= st.live.Keys
    ensures Forest(Without(st, ids))
  {
    var st' := Without(st, ids);
    forall id | id in st'.live ensures Sound(st', id) {
      assert Sound(st, id);
    }
    assert forall id | id in ids :: Sound(st, id);
    FewerStayApart(st.live, st'.live);
    ReleasesStaySpent(st, ids);
  }

  lemma {:induction false} ReleasesStaySpent(st: State, ids: set<nat>)
    requires ReleasesSpent(st) && ids <= st.live.Keys
    requires forall id | id in ids :: st.live[id].id == id && Seq(id) < st.nextSeq
    ensures ReleasesSpent(Without(st, ids))
  {
    var st' := Without(st, ids);
    var gone := Adopted(st.live, ids);
    assert forall s | s in gone :: s.id in ids && st.live[s.id] == s;
    forall s | s in st'.freed
      ensures st'.freed[s] == 1 && s.id !in st'.live && Seq(s.id) < st'.nextSeq
    {
      assert s in gone || s in st.freed;
    }
  }

  /** Nothing is under nobody. */
  lemma {:induction false} NobodyOwns(live: Live, id: nat, depth: nat)
    ensures !Under(live, id, 0, depth)
    decreases depth, id
  {
    if id != 0 && depth > 0 && id in live {
      NobodyOwns(live, live[id].owner, depth - 1);
    }
  }

  /** A chain stays within one root. */
  lemma {:induction false} ChainSharesRoot(st: State, id: nat, o: nat, depth: nat)
    requires Forest(st) && id in st.live && o in st.live && Under(st.live, id, o, depth)
    ensures Root(id) == Root(o)
    decreases depth, id
  {
    assert Sound(st, id);
    if id != o {
      ChainSharesRoot(st, st.live[id].owner, o, depth - 1);
    }
  }

  /** The id a new object gets: never seen before, within a signed 64-bit number, and
      with its owner's root. */
  lemma {:induction false} FreshIdIsNew(st: State, tag: Tag, owner: nat)
    requires Forest(st) && Room(st) && GoodOwner(st.live, tag, owner)
    ensures var id := FreshId(st, tag, owner);
            && Seq(id) == id % 0x100_0000_0000 == st.nextSeq && Root(id) == id / 0x100_0000_0000
            && id !in st.live && 0 < id < INT64_LIMIT
            && (owner != 0 ==> Root(id) == Root(owner))
            && (owner == 0 ==> Root(id) == if tag == Handle then st.nextRoot else 0)
  {
    if owner != 0 {
      assert Sound(st, owner);
    }
    var id := FreshId(st, tag, owner);
    if id in st.live {
      assert Sound(st, id);
    }
  }

  lemma {:induction false} PutKeepsForest(st: State, ptr: nat, tag: Tag, owner: nat)
    requires Forest(st) && Room(st) && GoodOwner(st.live, tag, owner)
    ensures Forest(PutResult(st, ptr, tag, owner).0)
  {
    var have := Lookup(st.live, ptr, tag);
    if ptr != 0 {
      if have == 0 {
        FileKeepsForest(st, ptr, tag, owner);
      } else if owner != 0 && owner != st.live[have].owner && Under(st.live, owner, st.live[have].owner, WALK) {
        RefileKeepsForest(st, have, owner);
      }
    }
  }

  /** A slot stays sound while its object, its owner's kind and the bounds allow. */
  lemma {:induction false} SoundCarries(st: State, st': State, id: nat)
    requires id in st.live && FiledAs(st'.live, id, st.live[id].ptr, st.live[id].tag) && Sound(st, id)
    requires st'.live[id].id == st.live[id].id && st'.live[id].owner == st.live[id].owner
    requires st.nextSeq <= st'.nextSeq && st.nextRoot <= st'.nextRoot
    requires var o := st.live[id].owner; o in st.live ==> o in st'.live && st'.live[o].tag == st.live[o].tag
    ensures Sound(st', id)
  {
  }

  /** A new object joins the forest under its owner. */
  lemma {:induction false} FileKeepsForest(st: State, ptr: nat, tag: Tag, owner: nat)
    requires Forest(st) && Room(st) && GoodOwner(st.live, tag, owner) && ptr != 0 && Lookup(st.live, ptr, tag) == 0
    ensures Forest(PutResult(st, ptr, tag, owner).0)
  {
    var (st', id) := PutResult(st, ptr, tag, owner);
    FreshIdIsNew(st, tag, owner);
    forall other | other in st.live ensures Sound(st', other) && other != 0 && Root(other) < st.nextRoot {
      assert Sound(st, other);
      SoundCarries(st, st', other);
    }
    assert Sound(st', id) by {
      if owner != 0 {
        assert Sound(st, owner);
      }
    }
    FreshStaysApart(st.live, st'.live[id]);
  }

  lemma {:induction false} FreshStaysApart(live: Live, s: Slot)
    requires OneIdPerObject(live) && OneHandlePerRoot(live) && s.id !in live && Lookup(live, s.ptr, s.tag) == 0 &&
             s.ptr != 0
    requires forall id | id in live :: id != 0 && (s.tag == Handle && live[id].tag == Handle ==> Root(id) != Root(s.id))
    ensures OneIdPerObject(live[s.id := s]) && OneHandlePerRoot(live[s.id := s])
  {
    var live' := live[s.id := s];
    forall a | a in live ensures live'[a] == live[a] && !(live[a].ptr == s.ptr && live[a].tag == s.tag) {
      assert a != 0 ==> !FiledAs(live, a, s.ptr, s.tag);
    }
  }

  /** Moving an object under a closer owner changes nobody's root. */
  lemma {:induction false} CloserOwnerHasSameRoot(st: State, id: nat, owner: nat)
    requires Forest(st) && id in st.live && owner in st.live && Under(st.live, owner, st.live[id].owner, WALK)
    ensures Sound(st, id) && Root(owner) == Root(id)
  {
    NobodyOwns(st.live, owner, WALK);
    assert Sound(st, id);
    ChainSharesRoot(st, owner, st.live[id].owner, WALK);
  }

  lemma {:induction false} RefileKeepsForest(st: State, id: nat, owner: nat)
    requires Forest(st) && id in st.live && owner != 0 && GoodOwner(st.live, st.live[id].tag, owner)
    requires Under(st.live, owner, st.live[id].owner, WALK)
    ensures Forest(st.(live := st.live[id := st.live[id].(owner := owner)]))
  {
    var st' := st.(live := st.live[id := st.live[id].(owner := owner)]);
    hide Under, Root, Seq, GoodOwner;
    SameIdsStaySpent(st, st');
    FewerStayApart(st.live, st'.live);
    hide ReleasesSpent, OneIdPerObject, OneHandlePerRoot;
    forall other | other in st'.live ensures Sound(st', other) {
      RefiledStaysSound(st, id, owner, other);
    }
  }

  lemma {:induction false} RefiledStaysSound(st: State, id: nat, owner: nat, other: nat)
    requires Forest(st) && id in st.live && owner != 0 && GoodOwner(st.live, st.live[id].tag, owner)
    requires Under(st.live, owner, st.live[id].owner, WALK) && other in st.live
    ensures Sound(st.(live := st.live[id := st.live[id].(owner := owner)]), other)
  {
    assert Sound(st, other) && Sound(st, id);
    assert owner in st.live;
    CloserOwnerHasSameRoot(st, id, owner);
    RefiledIsSound(st, id, owner, other);
    hide Forest, Under, Sound, GoodOwner, Root;
  }

  lemma {:induction false} RefiledIsSound(st: State, id: nat, owner: nat, other: nat)
    requires id in st.live && other in st.live && Sound(st, id) && Sound(st, other)
    requires owner != 0 && GoodOwner(st.live, st.live[id].tag, owner) && Root(owner) == Root(id)
    ensures Sound(st.(live := st.live[id := st.live[id].(owner := owner)]), other)
  {
    hide Root, Seq;
  }

  /** An object met first under an ancestor -- a package in an event, before its db was
      listed -- and then filed under the db goes when the db does. */
  lemma {:induction false} RefiledGoesWithItsOwner(st: State, id: nat, owner: nat)
    requires Forest(st) && id in st.live && owner in st.live && GoodOwner(st.live, st.live[id].tag, owner) && owner != 0
    requires st.live[id].owner != 0 && Below(st.live, owner, st.live[id].owner)
    ensures var st' := PutResult(st, st.live[id].ptr, st.live[id].tag, owner).0;
            id in st'.live && st'.live[id].owner == owner && id !in Step(st', DropOwner(owner)).live
  {
    var was := st.live[id];
    assert Sound(st, id);
    assert FiledAs(st.live, id, was.ptr, was.tag);
    UnderIsBelow(st, owner, was.owner);
    assert Lookup(st.live, was.ptr, was.tag) == id;
    var st' := PutResult(st, was.ptr, was.tag, owner).0;
    assert Under(st'.live, owner, owner, WALK - 1);
    assert Under(st'.live, id, owner, WALK);
  }

  /** All but the slot at `id` are as they were. */
  ghost predicate OthersStay(live: Live, live': Live, id: nat) {
    forall other {:trigger live[other]} {:trigger live'[other]} :: other != id ==>
      (other in live' <==> other in live) && (other in live ==> live'[other] == live[other])
  }

  /** What filing does: an object filed already keeps its slot, and its owner too unless
      the new one is below that; another gets a slot of its own. Nothing else changes. */
  lemma {:induction false} PutIs(st: State, ptr: nat, tag: Tag, owner: nat)
    requires Forest(st) && Room(st) && GoodOwner(st.live, tag, owner) && ptr != 0
    ensures var (st', id) := PutResult(st, ptr, tag, owner);
            && FiledAs(st'.live, id, ptr, tag) && OthersStay(st.live, st'.live, id) && st'.freed == st.freed
            && (id in st.live ==>
                  && FiledAs(st.live, id, ptr, tag)
                  && st'.live[id] == st.live[id].(owner :=
                       if Below(st.live, owner, st.live[id].owner) then owner else st.live[id].owner))
            && (id !in st.live ==>
                  && (forall other :: !FiledAs(st.live, other, ptr, tag))
                  && st'.live[id] == Slot(id, ptr, owner, tag, 0))
  {
    hide Forest, Under, Below, Room, GoodOwner, FreshId, PutResult, FiledAs, OthersStay;
    if Lookup(st.live, ptr, tag) != 0 {
      PutAgainIs(st, ptr, tag, owner);
    } else {
      PutNewIs(st, ptr, tag, owner);
    }
  }

  lemma {:induction false} PutAgainIs(st: State, ptr: nat, tag: Tag, owner: nat)
    requires Forest(st) && ptr != 0 && Lookup(st.live, ptr, tag) != 0
    ensures var (st', id) := PutResult(st, ptr, tag, owner);
            && id in st.live && FiledAs(st.live, id, ptr, tag) && FiledAs(st'.live, id, ptr, tag)
            && OthersStay(st.live, st'.live, id) && st'.freed == st.freed
            && st'.live[id] == st.live[id].(owner :=
                 if Below(st.live, owner, st.live[id].owner) then owner else st.live[id].owner)
  {
    var id := Lookup(st.live, ptr, tag);
    assert id in st.live;
    UnderIsBelow(st, owner, st.live[id].owner);
    assert owner == 0 ==> !Under(st.live, owner, st.live[id].owner, WALK);
    hide Forest, Under, Below;
  }

  lemma {:induction false} PutNewIs(st: State, ptr: nat, tag: Tag, owner: nat)
    requires Forest(st) && Room(st) && GoodOwner(st.live, tag, owner) && ptr != 0 && Lookup(st.live, ptr, tag) == 0
    ensures var (st', id) := PutResult(st, ptr, tag, owner);
            && id !in st.live && FiledAs(st'.live, id, ptr, tag)
            && OthersStay(st.live, st'.live, id) && st'.freed == st.freed
            && (forall other :: !FiledAs(st.live, other, ptr, tag))
            && st'.live[id] == Slot(id, ptr, owner, tag, 0)
  {
    FreshIdIsNew(st, tag, owner);
    assert 0 in st.live ==> Sound(st, 0);
    assert 0 !in st.live;
    hide Forest, Under, Room, GoodOwner, FreshId;
  }

  lemma {:induction false} NullIsNotFiled(st: State, tag: Tag, owner: nat)
    ensures PutResult(st, 0, tag, owner) == (st, 0)
  {
  }

  /** What adopting does: the record's slot owes exactly this release from then on. */
  lemma {:induction false} AdoptIs(st: State, ptr: nat, owner: nat, release: nat)
    requires Forest(st) && Room(st) && GoodOwner(st.live, NoTag, owner) && ptr != 0
    ensures var (st', id) := AdoptResult(st, ptr, owner, release);
            && FiledAs(st'.live, id, ptr, NoTag) && st'.live[id].release == release
            && OthersStay(st.live, st'.live, id) && st'.freed == st.freed
            && (id in st.live ==> FiledAs(st.live, id, ptr, NoTag))
            && (id !in st.live ==> st'.live[id] == Slot(id, ptr, owner, NoTag, release))
  {
    PutIs(st, ptr, NoTag, owner);
    hide PutResult, Forest, Room, GoodOwner, Below;
  }

  lemma {:induction false} AdoptKeepsForest(st: State, ptr: nat, owner: nat, release: nat)
    requires Forest(st) && Room(st) && GoodOwner(st.live, NoTag, owner)
    ensures Forest(AdoptResult(st, ptr, owner, release).0)
  {
    PutKeepsForest(st, ptr, NoTag, owner);
    var (mid, id) := PutResult(st, ptr, NoTag, owner);
    hide PutResult, Forest;
    if id in mid.live {
      AmendKeepsForest(mid, id, release);
    }
  }

  lemma {:induction false} AmendKeepsForest(st: State, id: nat, release: nat)
    requires Forest(st) && id in st.live
    ensures Forest(st.(live := st.live[id := st.live[id].(release := release)]))
  {
    var st' := st.(live := st.live[id := st.live[id].(release := release)]);
    SameIdsStaySpent(st, st');
    FewerStayApart(st.live, st'.live);
    hide ReleasesSpent, OneIdPerObject, OneHandlePerRoot, Root, Seq;
    forall other | other in st'.live ensures Sound(st', other) {
      assert Sound(st, other);
      AmendedIsSound(st, id, release, other);
    }
  }

  lemma {:induction false} AmendedIsSound(st: State, id: nat, release: nat, other: nat)
    requires id in st.live && other in st.live && Sound(st, other)
    ensures Sound(st.(live := st.live[id := st.live[id].(release := release)]), other)
  {
    hide Root, Seq;
  }

  lemma {:induction false} SameIdsStaySpent(st: State, st': State)
    requires ReleasesSpent(st) && st'.freed == st.freed && st'.nextSeq == st.nextSeq
    requires forall id :: id in st'.live <==> id in st.live
    ensures ReleasesSpent(st')
  {
  }

  /** Every operation the server performs keeps the forest sound. */
  lemma {:induction false} StepKeepsForest(st: State, op: Op)
    requires Forest(st) && Legal(st, op)
    ensures Forest(Step(st, op))
  {
    match op
    case Put(ptr, tag, owner) => PutKeepsForest(st, ptr, tag, owner);
    case Adopt(ptr, owner, release) => AdoptKeepsForest(st, ptr, owner, release);
    case Drop(id) => DropKeepsForest(st, {id} * st.live.Keys);
    case DropOwner(o) => SubtreeIsClosed(st, o); DropKeepsForest(st, Subtree(st.live, o));
    case DropUnder(o) => SubtreeIsClosed(st, o); DropKeepsForest(st, Subtree(st.live, o) - {o});
    case DropPtr(ptr, tag) =>
      SubtreeIsClosed(st, Lookup(st.live, ptr, tag));
      DropKeepsForest(st, Subtree(st.live, Lookup(st.live, ptr, tag)));
    case Reset => DropKeepsForest(st, st.live.Keys);
  }

  // ------------------------------------------------------------ whole runs

  /** The states of a run, from the empty table, one operation at a time. */
  ghost predicate IsRun(run: seq<State>, ops: seq<Op>) {
    && |run| == |ops| + 1 && run[0] == Initial
    && forall k | 0 <= k < |ops| :: Legal(run[k], ops[k]) && run[k + 1] == Step(run[k], ops[k])
  }

  lemma {:induction false} RunKeepsForest(run: seq<State>, ops: seq<Op>, k: nat)
    requires IsRun(run, ops) && k < |run|
    ensures Forest(run[k])
  {
    if k > 0 {
      RunKeepsForest(run, ops, k - 1);
      StepKeepsForest(run[k - 1], ops[k - 1]);
    }
  }

  /** What one step can do to one id: an id is issued with the sequence number that is
      next, and keeps its object for as long as it is live; a release it owes is run
      when it goes and not before. */
  ghost predicate OneStep(st: State, st': State, id: nat) {
    && st.nextSeq <= st'.nextSeq
    && (id in st'.live && id !in st.live ==> Seq(id) == st.nextSeq < st'.nextSeq)
    && (id in st'.live && id in st.live ==> FiledAs(st'.live, id, st.live[id].ptr, st.live[id].tag))
    && (forall s | s in st.freed :: s in st'.freed)
    && (id in st.live && st.live[id].release != 0 ==>
          if id in st'.live then st'.live[id].release != 0 else st.live[id] in st'.freed)
  }

  lemma {:induction false} PutOnId(st: State, ptr: nat, tag: Tag, owner: nat, id: nat)
    requires Forest(st) && Room(st) && GoodOwner(st.live, tag, owner)
    ensures var st' := PutResult(st, ptr, tag, owner).0;
            OneStep(st, st', id) && st'.freed == st.freed && st.live.Keys <= st'.live.Keys
  {
    FreshIdIsNew(st, tag, owner);
  }

  lemma {:induction false} DropOnId(st: State, ids: set<nat>, id: nat)
    ensures OneStep(st, Without(st, ids), id)
  {
    if id in st.live && id in ids && st.live[id].release != 0 {
      assert st.live[id] in Adopted(st.live, ids);
    }
  }

  lemma {:induction false} StepOnId(st: State, op: Op, id: nat)
    requires Forest(st) && Legal(st, op)
    ensures OneStep(st, Step(st, op), id)
    ensures op.Put? || op.Adopt? ==> Step(st, op).freed == st.freed && st.live.Keys <= Step(st, op).live.Keys
  {
    match op
    case Put(ptr, tag, owner) => PutOnId(st, ptr, tag, owner, id);
    case Adopt(ptr, owner, release) => PutOnId(st, ptr, NoTag, owner, id);
    case Drop(o) => DropOnId(st, {o} * st.live.Keys, id);
    case DropOwner(o) => DropOnId(st, Subtree(st.live, o), id);
    case DropUnder(o) => DropOnId(st, Subtree(st.live, o) - {o}, id);
    case DropPtr(ptr, tag) => DropOnId(st, Subtree(st.live, Lookup(st.live, ptr, tag)), id);
    case Reset => DropOnId(st, st.live.Keys, id);
  }

  /** Once past, an id's sequence number is behind the table for good. */
  lemma {:induction false} SeqOnlyGrows(run: seq<State>, ops: seq<Op>, j: nat, k: nat)
    requires IsRun(run, ops) && j <= k < |run|
    ensures run[j].nextSeq <= run[k].nextSeq
    decreases k
  {
    if j < k {
      SeqOnlyGrows(run, ops, j, k - 1);
      RunKeepsForest(run, ops, k - 1);
      StepOnId(run[k - 1], ops[k - 1], 0);
    }
  }

  /** No id is issued twice: one that appears at step `k` was in no earlier table. */
  lemma {:induction false} NeverReissued(run: seq<State>, ops: seq<Op>, j: nat, k: nat, id: nat)
    requires IsRun(run, ops) && j <= k < |ops|
    requires id !in run[k].live && id in run[k + 1].live
    ensures id !in run[j].live
    ensures 0 < id < INT64_LIMIT
  {
    RunKeepsForest(run, ops, j);
    RunKeepsForest(run, ops, k);
    RunKeepsForest(run, ops, k + 1);
    SeqOnlyGrows(run, ops, j, k);
    StepOnId(run[k], ops[k], id);
    assert Sound(run[k + 1], id);
    assert id in run[j].live ==> Sound(run[j], id);
  }

  /** So an id that has been dropped misses for ever, and one that has not still names
      the object it was issued for. */
  lemma {:induction false} IdsAreForLife(run: seq<State>, ops: seq<Op>, i: nat, j: nat, k: nat, id: nat)
    requires IsRun(run, ops) && i <= j <= k < |run| && id in run[i].live && id in run[k].live
    ensures id in run[j].live && FiledAs(run[j].live, id, run[i].live[id].ptr, run[i].live[id].tag)
    decreases k - i
  {
    if i < j {
      if id !in run[i + 1].live {
        StaysGone(run, ops, i, i + 1, k, id);
      }
      RunKeepsForest(run, ops, i);
      StepOnId(run[i], ops[i], id);
      IdsAreForLife(run, ops, i + 1, j, k, id);
    }
  }

  lemma {:induction false} StaysGone(run: seq<State>, ops: seq<Op>, i: nat, j: nat, k: nat, id: nat)
    requires IsRun(run, ops) && i <= j <= k < |run| && id in run[i].live && id !in run[j].live
    ensures id !in run[k].live
    decreases k
  {
    if j < k {
      StaysGone(run, ops, i, j, k - 1, id);
      if id in run[k].live {
        NeverReissued(run, ops, i, k - 1, id);
      }
    }
  }

  /** Filing the same live object again gives the id it has, whoever files it. */
  lemma {:induction false} SameObjectSameId(run: seq<State>, ops: seq<Op>, i: nat, k: nat, id: nat, owner: nat)
    requires IsRun(run, ops) && i <= k < |run| && id in run[i].live && id in run[k].live
    ensures PutResult(run[k], run[i].live[id].ptr, run[i].live[id].tag, owner).1 == id
  {
    RunKeepsForest(run, ops, i);
    RunKeepsForest(run, ops, k);
    IdsAreForLife(run, ops, i, k, k, id);
    assert Sound(run[i], id);
    assert FiledAs(run[k].live, id, run[i].live[id].ptr, run[i].live[id].tag);
    var have := Lookup(run[k].live, run[i].live[id].ptr, run[i].live[id].tag);
    assert have != 0;
  }

  /** The release an adopted object owes is still to come, or has run. */
  ghost predicate Accounted(st: State, id: nat) {
    if id in st.live then st.live[id].release != 0 else exists s :: s in st.freed && s.id == id
  }

  lemma {:induction false} StillAccounted(st: State, st': State, id: nat)
    requires OneStep(st, st', id) && Accounted(st, id) && (id in st.live ==> st.live[id].id == id)
    requires id !in st.live ==> id !in st'.live
    ensures Accounted(st', id)
  {
    hide FiledAs, Seq;
    if id !in st.live {
      var s :| s in st.freed && s.id == id;
      assert s in st'.freed;
    }
  }

  lemma {:induction false} ReleaseIsOwedOrRun(run: seq<State>, ops: seq<Op>, j: nat, k: nat, id: nat)
    requires IsRun(run, ops) && j <= k < |run| && id in run[j].live && run[j].live[id].release != 0
    ensures Accounted(run[k], id)
    decreases k
  {
    if j < k {
      ReleaseIsOwedOrRun(run, ops, j, k - 1, id);
      RunKeepsForest(run, ops, k - 1);
      StepOnId(run[k - 1], ops[k - 1], id);
      assert id in run[k - 1].live ==> Sound(run[k - 1], id);
      if id !in run[k - 1].live {
        StaysGone(run, ops, j, k - 1, k, id);
      }
      hide IsRun, Forest, OneStep, Accounted, Step, Legal;
      StillAccounted(run[k - 1], run[k], id);
    }
  }

  lemma {:induction false} SpentMeansOnce(st: State, id: nat)
    requires ReleasesSpent(st) && Accounted(st, id)
    ensures if id in st.live then forall s | s in st.freed :: s.id != id
            else exists s :: s in st.freed && s.id == id && st.freed[s] == 1
                             && forall t | t in st.freed && t.id == id :: t == s
  {
    if id !in st.live {
      var s :| s in st.freed && s.id == id;
      assert st.freed[s] == 1;
    }
  }

  /** Over a whole run, an adopted object is released exactly once, when its slot goes,
      and not while it is filed. */
  lemma {:induction false} ReleasedExactlyOnce(run: seq<State>, ops: seq<Op>, j: nat, k: nat, id: nat)
    requires IsRun(run, ops) && j <= k < |run| && id in run[j].live && run[j].live[id].release != 0
    ensures if id in run[k].live then forall s | s in run[k].freed :: s.id != id
            else exists s :: s in run[k].freed && s.id == id && run[k].freed[s] == 1
                             && forall t | t in run[k].freed && t.id == id :: t == s
  {
    RunKeepsForest(run, ops, k);
    ReleaseIsOwedOrRun(run, ops, j, k, id);
    SpentMeansOnce(run[k], id);
  }

  /** A record adopted with this release: its slot owes it, or it has run. */
  ghost predicate Owes(st: State, id: nat, ptr: nat, release: nat) {
    if id in st.live then FiledAs(st.live, id, ptr, NoTag) && st.live[id].release == release
    else exists s :: s in st.freed && s.id == id && s.ptr == ptr && s.release == release
  }

  lemma {:induction false} DropOwes(st: State, ids: set<nat>, id: nat, ptr: nat, release: nat)
    requires Owes(st, id, ptr, release) && release != 0 && (id in st.live ==> st.live[id].id == id)
    ensures Owes(Without(st, ids), id, ptr, release)
  {
    if id in st.live && id in ids {
      assert st.live[id] in Adopted(st.live, ids);
      assert st.live[id] in Without(st, ids).freed;
    } else if id !in st.live {
      var s :| s in st.freed && s.id == id && s.ptr == ptr && s.release == release;
      assert s in Without(st, ids).freed;
    }
  }

  lemma {:induction false} FileOwes(st: State, op: Op, id: nat, ptr: nat, release: nat)
    requires Forest(st) && Legal(st, op) && (op.Put? || op.Adopt?) && op.ptr != 0 && Owes(st, id, ptr, release)
    requires op.Adopt? && op.ptr == ptr ==> id !in st.live
    requires id !in st.live ==> id !in Step(st, op).live
    ensures Owes(Step(st, op), id, ptr, release)
  {
    if op.Put? {
      PutIs(st, op.ptr, op.tag, op.owner);
    } else {
      AdoptIs(st, op.ptr, op.owner, op.release);
    }
    hide Forest, PutResult, AdoptResult, Room, GoodOwner, Below;
  }

  lemma {:induction false} StepOwes(st: State, op: Op, id: nat, ptr: nat, release: nat)
    requires Forest(st) && Legal(st, op) && Owes(st, id, ptr, release) && release != 0
    requires op.Adopt? && op.ptr == ptr ==> id !in st.live
    requires id !in st.live ==> id !in Step(st, op).live
    ensures Owes(Step(st, op), id, ptr, release)
  {
    assert id in st.live ==> Sound(st, id);
    assert 0 in st.live ==> Sound(st, 0);
    hide Forest, Owes, Without, FiledAs;
    match op
    case Put(p, _, _) => if p != 0 { FileOwes(st, op, id, ptr, release); }
    case Adopt(p, _, _) => if p != 0 { FileOwes(st, op, id, ptr, release); }
    case Drop(o) => DropOwes(st, {o} * st.live.Keys, id, ptr, release);
    case DropOwner(o) => DropOwes(st, Subtree(st.live, o), id, ptr, release);
    case DropUnder(o) => DropOwes(st, Subtree(st.live, o) - {o}, id, ptr, release);
    case DropPtr(p, tag) => DropOwes(st, Subtree(st.live, Lookup(st.live, p, tag)), id, ptr, release);
    case Reset => DropOwes(st, st.live.Keys, id, ptr, release);
  }

  /** Adopted at step `j`, and not adopted again while it is there. */
  ghost predicate AdoptedOnce(run: seq<State>, ops: seq<Op>, j: nat, k: nat, id: nat)
    requires IsRun(run, ops) && j < k < |run| && ops[j].Adopt?
  {
    && id == AdoptResult(run[j], ops[j].ptr, ops[j].owner, ops[j].release).1
    && forall m {:trigger ops[m]} :: j < m < k && ops[m].Adopt? && ops[m].ptr == ops[j].ptr ==> id !in run[m].live
  }

  lemma {:induction false} AdoptedOwes(run: seq<State>, ops: seq<Op>, j: nat, k: nat, id: nat)
    requires IsRun(run, ops) && j < k < |run| && ops[j].Adopt? && ops[j].ptr != 0 && AdoptedOnce(run, ops, j, k, id)
    ensures id in run[j + 1].live && Owes(run[k], id, ops[j].ptr, ops[j].release)
    decreases k
  {
    RunKeepsForest(run, ops, k - 1);
    assert Legal(run[j], ops[j]) && Legal(run[k - 1], ops[k - 1]);
    hide Forest, AdoptResult, Legal;
    if k == j + 1 {
      AdoptedNow(run[j], ops[j]);
    } else {
      AdoptedOwes(run, ops, j, k - 1, id);
      if id !in run[k - 1].live {
        StaysGone(run, ops, j + 1, k - 1, k, id);
      }
      StepOwes(run[k - 1], ops[k - 1], id, ops[j].ptr, ops[j].release);
    }
  }

  lemma {:induction false} AdoptedNow(st: State, op: Op)
    requires Forest(st) && Legal(st, op) && op.Adopt? && op.ptr != 0
    ensures var id := AdoptResult(st, op.ptr, op.owner, op.release).1;
            id in Step(st, op).live && Owes(Step(st, op), id, op.ptr, op.release)
  {
    AdoptIs(st, op.ptr, op.owner, op.release);
    hide AdoptResult, Forest;
  }

  /** Over a run, a record adopted at some step and not again: as long as its slot is live
      it is that record's, owes that release, and the release has not run; once the slot is
      gone, by whatever drop or reset, it has run exactly once, on that record. */
  lemma {:induction false} AdoptedIsReleasedOnce(run: seq<State>, ops: seq<Op>, j: nat, k: nat, id: nat)
    requires IsRun(run, ops) && j < k < |run| && ops[j].Adopt? && ops[j].ptr != 0 && AdoptedOnce(run, ops, j, k, id)
    ensures if id in run[k].live
            then
              && FiledAs(run[k].live, id, ops[j].ptr, NoTag) && run[k].live[id].release == ops[j].release
              && forall s | s in run[k].freed :: s.id != id
            else exists s :: s in run[k].freed && s.id == id && s.ptr == ops[j].ptr && s.release == ops[j].release
                             && run[k].freed[s] == 1 && forall t | t in run[k].freed && t.id == id :: t == s
  {
    AdoptedOwes(run, ops, j, k, id);
    assert Legal(run[j], ops[j]);
    RunKeepsForest(run, ops, k);
    hide AdoptResult, IsRun;
    SpentMeansOnce(run[k], id);
  }

  /** A slot that an adoption before step `k` made, with the release it was given. */
  ghost predicate FromAdoption(run: seq<State>, ops: seq<Op>, k: nat, s: Slot)
    requires IsRun(run, ops) && k < |run|
  {
    exists j {:trigger ops[j]} :: 0 <= j < k && ops[j].Adopt? &&
      s.ptr == ops[j].ptr && s.release == ops[j].release && s.tag == NoTag &&
      s.id == AdoptResult(run[j], ops[j].ptr, ops[j].owner, ops[j].release).1
  }

  /** Where a slot that owes a release comes from, in one step. */
  lemma {:induction false} OwedBefore(st: State, op: Op, id: nat)
    requires Forest(st) && Legal(st, op) && id in Step(st, op).live && Step(st, op).live[id].release != 0
    ensures var s := Step(st, op).live[id];
            || (id in st.live && st.live[id].(owner := s.owner) == s)
            || (op.Adopt? && op.ptr != 0 && s.id == AdoptResult(st, op.ptr, op.owner, op.release).1
                && s.ptr == op.ptr && s.tag == NoTag && s.release == op.release)
  {
    StepKeepsForest(st, op);
    assert Sound(Step(st, op), id);
    assert 0 in st.live ==> Sound(st, 0);
    hide Forest, Legal, Room, GoodOwner, Below, Root, Seq;
    if op.Put? && op.ptr != 0 {
      assert Legal(st, op);
      PutOwed(st, op.ptr, op.tag, op.owner, id);
    } else if op.Adopt? && op.ptr != 0 {
      assert Legal(st, op);
      AdoptOwed(st, op.ptr, op.owner, op.release, id);
    }
  }

  lemma {:induction false} PutOwed(st: State, ptr: nat, tag: Tag, owner: nat, id: nat)
    requires Forest(st) && Room(st) && GoodOwner(st.live, tag, owner) && ptr != 0
    requires id in PutResult(st, ptr, tag, owner).0.live && PutResult(st, ptr, tag, owner).0.live[id].release != 0
    ensures var s := PutResult(st, ptr, tag, owner).0.live[id];
            id in st.live && st.live[id].(owner := s.owner) == s
  {
    PutIs(st, ptr, tag, owner);
    hide PutResult, Forest, Room, GoodOwner, Below;
  }

  lemma {:induction false} AdoptOwed(st: State, ptr: nat, owner: nat, release: nat, id: nat)
    requires Forest(st) && Room(st) && GoodOwner(st.live, NoTag, owner) && ptr != 0
    requires id in AdoptResult(st, ptr, owner, release).0.live
    ensures var (st', adopted) := AdoptResult(st, ptr, owner, release);
            if id == adopted then FiledAs(st'.live, id, ptr, NoTag) && st'.live[id].release == release
            else id in st.live && st.live[id] == st'.live[id]
  {
    AdoptIs(st, ptr, owner, release);
    hide AdoptResult, Forest, Room, GoodOwner, Below;
  }

  /** What a step releases was in a slot, which owed it. */
  lemma {:induction false} FreedBefore(st: State, op: Op, s: Slot)
    requires Forest(st) && Legal(st, op) && s in Step(st, op).freed
    ensures s in st.freed || (s.id in st.live && st.live[s.id] == s && s.release != 0)
  {
    StepOnId(st, op, 0);
    assert forall id :: id in st.live ==> Sound(st, id);
    hide Forest, PutResult, AdoptResult, Under, Lookup;
  }

  /** Nothing is ever released that was not adopted: whatever is in a slot with a release,
      or has been released, came from an adoption of that very record with that release. */
  lemma {:induction false} OnlyAdoptedIsReleased(run: seq<State>, ops: seq<Op>, k: nat, s: Slot)
    requires IsRun(run, ops) && k < |run|
    requires s in run[k].freed || (s.id in run[k].live && run[k].live[s.id] == s && s.release != 0)
    ensures FromAdoption(run, ops, k, s)
    decreases k
  {
    if k > 0 {
      RunKeepsForest(run, ops, k - 1);
      assert Legal(run[k - 1], ops[k - 1]);
      if s in run[k].freed {
        FreedBefore(run[k - 1], ops[k - 1], s);
        OnlyAdoptedIsReleased(run, ops, k - 1, s);
      } else {
        OwedBefore(run[k - 1], ops[k - 1], s.id);
        if s.id in run[k - 1].live && run[k - 1].live[s.id].(owner := s.owner) == s {
          OnlyAdoptedIsReleased(run, ops, k - 1, run[k - 1].live[s.id]);
        }
      }
    }
  }
}
