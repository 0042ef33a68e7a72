/** Where libalpm frees objects on its own: the hooks that note what a call may free and
    drop it afterwards, and what they are for -- no id ever reaches memory that was freed,
    or another object that was later given the same address. */
module Invalidate {
  import opened Registry
  import opened HandleTable

  // ----------------------------------------------------- dropping what was noted

  /** One drop after another. */
  ghost function AfterAll(st: State, drops: seq<Op>): State
    decreases |drops|
  {
    if drops == [] then st else AfterAll(Step(st, drops[0]), drops[1..])
  }

  predicate OnlyDrops(op: Op) { op.DropPtr? || op.DropUnder? || op.DropOwner? }

  function DropPtrs(ptrs: seq<nat>, tag: Tag): seq<Op> {
    if ptrs == [] then [] else [DropPtr(ptrs[0], tag)] + DropPtrs(ptrs[1..], tag)
  }

  function DropUnders(ids: seq<nat>): seq<Op> {
    if ids == [] then [] else [DropUnder(ids[0])] + DropUnders(ids[1..])
  }

  /** Some of the slots, unchanged. */
  ghost predicate SomeSlots(live': Live, live: Live) {
    forall id :: id in live' ==> id in live && live'[id] == live[id]
  }

  lemma {:induction false} DropsKeep(st: State, drops: seq<Op>)
    requires Forest(st) && forall op :: op in drops ==> OnlyDrops(op)
    ensures Forest(AfterAll(st, drops)) && SomeSlots(AfterAll(st, drops).live, st.live)
    ensures AfterAll(st, drops).nextSeq == st.nextSeq
    decreases |drops|
  {
    if drops != [] {
      assert drops[0] in drops;
      StepKeepsForest(st, drops[0]);
      hide Forest, Subtree;
      DropsKeep(Step(st, drops[0]), drops[1..]);
    }
  }

  /** What one of these drops, as the table stands. */
  ghost function Dropping(st: State, op: Op): set<nat> {
    match op
    case DropPtr(ptr, tag) => Subtree(st.live, Lookup(st.live, ptr, tag))
    case DropUnder(o) => Subtree(st.live, o) - {o}
    case DropOwner(o) => Subtree(st.live, o)
    case _ => {}
  }

  lemma {:induction false} DropIsWithout(st: State, op: Op)
    requires Forest(st) && OnlyDrops(op)
    ensures Step(st, op) == Without(st, Dropping(st, op)) && Closed(st.live, Dropping(st, op)) &&
            Dropping(st, op) <= st.live.Keys
    ensures Forest(Step(st, op))
  {
    StepKeepsForest(st, op);
    match op
    case DropPtr(ptr, tag) => SubtreeIsClosed(st, Lookup(st.live, ptr, tag));
    case DropUnder(o) => SubtreeIsClosed(st, o);
    case DropOwner(o) => SubtreeIsClosed(st, o);
  }

  /** A chain of owners is whole as long as its lower end is there. */
  lemma {:induction false} ChainStays(st: State, ids: set<nat>, id: nat, o: nat, n: nat)
    requires Closed(st.live, ids) && id in st.live && id !in ids && Under(st.live, id, o, n)
    requires ids <= st.live.Keys
    ensures Under(Without(st, ids).live, id, o, n) && o !in ids
    decreases n
  {
    if id != o && st.live[id].owner in st.live {
      assert st.live[id].owner != 0;
      ChainStays(st, ids, st.live[id].owner, o, n - 1);
    }
  }

  /** An object is found by its pointer as long as it is there. */
  lemma {:induction false} FoundWhileThere(st: State, ptr: nat, tag: Tag, id: nat)
    requires Forest(st) && FiledAs(st.live, id, ptr, tag)
    ensures Lookup(st.live, ptr, tag) == id
  {
    assert Sound(st, id);
    assert id != 0;
    var have := Lookup(st.live, ptr, tag);
    assert have != 0 && FiledAs(st.live, have, ptr, tag);
    assert st.live[have].ptr == st.live[id].ptr;
  }

  /** What one drop would take and another has not taken is still there to be taken. */
  lemma {:induction false} StillReached(st: State, first: Op, op: Op, id: nat)
    requires Forest(st) && OnlyDrops(first) && OnlyDrops(op)
    requires id in Dropping(st, op) && id !in Dropping(st, first)
    ensures id in Dropping(Step(st, first), op)
  {
    DropIsWithout(st, first);
    var ids := Dropping(st, first);
    var o := match op
      case DropPtr(ptr, tag) => Lookup(st.live, ptr, tag)
      case DropUnder(o) => o
      case DropOwner(o) => o;
    ChainStays(st, ids, id, o, WALK);
    if op.DropPtr? {
      NobodyOwns(st.live, id, WALK);
      FoundWhileThere(Step(st, first), op.ptr, op.tag, o);
    }
  }

  /** Whatever one of the drops reaches is gone after all of them, in any order. */
  lemma {:induction false} ReachedIsGone(st: State, drops: seq<Op>, op: Op, id: nat)
    requires Forest(st) && (forall d :: d in drops ==> OnlyDrops(d)) && op in drops && id in Dropping(st, op)
    ensures id !in AfterAll(st, drops).live
    decreases |drops|
  {
    var first, rest := drops[0], drops[1..];
    assert first in drops;
    DropIsWithout(st, first);
    hide Forest, Subtree, Dropping;
    DropsKeep(Step(st, first), rest);
    if id !in Dropping(st, first) {
      StillReached(st, first, op, id);
      assert op in rest;
      ReachedIsGone(Step(st, first), rest, op, id);
    }
  }

  /** A walk that fewer slots allow, more of the same allow too. */
  lemma {:induction false} UnderInMore(few: Live, live: Live, id: nat, o: nat, n: nat)
    requires SomeSlots(few, live) && Under(few, id, o, n)
    ensures Under(live, id, o, n)
    decreases n
  {
    if id != o {
      UnderInMore(few, live, few[id].owner, o, n - 1);
    }
  }

  /** One drop makes no other reach further. */
  lemma {:induction false} DropsReachLess(st: State, first: Op, op: Op, id: nat)
    requires Forest(st) && OnlyDrops(first) && OnlyDrops(op) && id in Dropping(Step(st, first), op)
    ensures id in Dropping(st, op)
  {
    DropIsWithout(st, first);
    var st' := Step(st, first);
    var o := match op
      case DropPtr(ptr, tag) => Lookup(st'.live, ptr, tag)
      case DropUnder(o) => o
      case DropOwner(o) => o;
    UnderInMore(st'.live, st.live, id, o, WALK);
    if op.DropPtr? {
      NobodyOwns(st'.live, id, WALK);
      FoundWhileThere(st, op.ptr, op.tag, o);
    }
  }

  /** All of the drops take exactly what one of them, on its own, would. */
  lemma {:induction false} AfterAllExactly(st: State, drops: seq<Op>, id: nat)
    requires Forest(st) && forall d :: d in drops ==> OnlyDrops(d)
    ensures id in AfterAll(st, drops).live <==> id in st.live && forall op :: op in drops ==> id !in Dropping(st, op)
    decreases |drops|
  {
    if drops != [] && id in st.live {
      var first, rest := drops[0], drops[1..];
      assert first in drops && forall op :: op in drops <==> op == first || op in rest;
      DropIsWithout(st, first);
      if id !in Dropping(st, first) {
        forall op | op in rest ensures id in Dropping(st, op) <==> id in Dropping(Step(st, first), op) {
          StillReachedIff(st, first, op, id);
        }
      }
      hide Forest, Dropping;
      AfterAllExactly(Step(st, first), rest, id);
    } else if id !in st.live {
      DropsKeep(st, drops);
    }
  }

  lemma {:induction false} StillReachedIff(st: State, first: Op, op: Op, id: nat)
    requires Forest(st) && OnlyDrops(first) && OnlyDrops(op) && id !in Dropping(st, first)
    ensures id in Dropping(st, op) <==> id in Dropping(Step(st, first), op)
  {
    if id in Dropping(st, op) {
      StillReached(st, first, op, id);
    }
    if id in Dropping(Step(st, first), op) {
      DropsReachLess(st, first, op, id);
    }
  }

  // ------------------------------------------------------ objects and addresses

  /** What stands at an address: of which kind, and the how-many-eth object made. */
  datatype Object = Object(tag: Tag, number: nat)

  /** `made` remembers, for each id there has been, the object it was given to. */
  datatype World = World(table: State, heap: map<nat, Object>, made: map<nat, nat>, next: nat)

  const START: World := World(Initial, map[], map[], 0)

  datatype Move =
    | Make(addr: nat, tag: Tag)
    | File(op: Op)
    | Free(gone: set<nat>, drops: seq<Op>)

  /** Records that the table owned, freed with their slots. */
  ghost function ReleasedBy(st: State, drops: seq<Op>): set<nat> {
    set id | id in st.live && id !in AfterAll(st, drops).live && st.live[id].release != 0 :: st.live[id].ptr
  }

  /** Every id of something freed is dropped. */
  ghost predicate Covered(st: State, gone: set<nat>, drops: seq<Op>) {
    && (forall op :: op in drops ==> OnlyDrops(op))
    && forall id :: id in st.live && st.live[id].ptr in gone ==> id !in AfterAll(st, drops).live
  }

  function FiledTag(op: Op): Tag
    requires op.Put? || op.Adopt?
  {
    if op.Put? then op.tag else NoTag
  }

  /** An address is given out again only after it was freed, and with it dropped; what is
      filed is there, and of the kind it is filed as. */
  ghost predicate Allowed(w: World, m: Move) {
    match m
    case Make(addr, _) => addr != 0 && addr !in w.heap
    case File(op) =>
      && (op.Put? || op.Adopt?) && Legal(w.table, op)
      && (op.ptr == 0 || (op.ptr in w.heap && w.heap[op.ptr].tag == FiledTag(op)))
    case Free(gone, drops) => Covered(w.table, gone, drops)
  }

  ghost function Moved(w: World, m: Move): World {
    match m
    case Make(addr, tag) => w.(heap := w.heap[addr := Object(tag, w.next)], next := w.next + 1)
    case File(op) =>
      var st' := Step(w.table, op);
      w.(table := st',
         made := w.made + map id | id in st'.live && id !in w.table.live &&
           st'.live[id].ptr in w.heap :: w.heap[st'.live[id].ptr].number)
    case Free(gone, drops) =>
      w.(table := AfterAll(w.table, drops), heap := w.heap - gone - ReleasedBy(w.table, drops))
  }

  /** An id reaches the very object it was given to. */
  ghost predicate Reaches(w: World, id: nat)
    requires id in w.table.live
  {
    var s := w.table.live[id];
    id in w.made && s.ptr in w.heap && w.heap[s.ptr] == Object(s.tag, w.made[id])
  }

  ghost predicate Good(w: World) {
    && Forest(w.table)
    && (forall id {:trigger Reaches(w, id)} :: id in w.table.live ==> Reaches(w, id))
    && (forall id :: id in w.made ==> Seq(id) < w.table.nextSeq)
  }

  lemma {:induction false} MakeKeeps(w: World, addr: nat, tag: Tag)
    requires Good(w) && addr !in w.heap
    ensures Good(Moved(w, Make(addr, tag)))
  {
    hide Forest;
    var w' := Moved(w, Make(addr, tag));
    forall id | id in w'.table.live ensures Reaches(w', id) {
      assert Reaches(w, id);
    }
  }

  lemma {:induction false} FileKeeps(w: World, op: Op)
    requires Good(w) && Allowed(w, File(op))
    ensures Good(Moved(w, File(op)))
    ensures forall id :: id in w.made ==> id in Moved(w, File(op)).made && Moved(w, File(op)).made[id] == w.made[id]
  {
    var w' := Moved(w, File(op));
    StepKeepsForest(w.table, op);
    assert Forest(w'.table);
    hide Forest, Moved, Reaches, Step, Allowed, Good, Seq;
    forall id | id in w'.table.live ensures Reaches(w', id) {
      FileOnId(w, op, id);
    }
    forall id | id in w.made ensures id in w'.made && w'.made[id] == w.made[id] {
      FileOnId(w, op, id);
    }
    forall id | id in w'.made ensures Seq(id) < w'.table.nextSeq {
      FileOnId(w, op, id);
    }
    GoodByParts(w');
  }

  lemma {:induction false} GoodByParts(w: World)
    requires Forest(w.table)
    requires forall id {:trigger Reaches(w, id)} :: id in w.table.live ==> Reaches(w, id)
    requires forall id :: id in w.made ==> Seq(id) < w.table.nextSeq
    ensures Good(w)
  {
  }

  lemma {:induction false} FileOnId(w: World, op: Op, id: nat)
    requires Good(w) && Allowed(w, File(op))
    ensures var w' := Moved(w, File(op));
            && (id in w'.table.live ==> Reaches(w', id))
            && (id in w.made ==> id in w'.made && w'.made[id] == w.made[id])
            && (id in w'.made ==> Seq(id) < w'.table.nextSeq)
  {
    FiledSlot(w.table, op, id);
    StepOnId(w.table, op, id);
    if id in w.table.live {
      assert Reaches(w, id);
    }
    hide Forest, Step, Legal, Seq;
  }

  /** What filing adds is for the object filed. */
  lemma {:induction false} FiledSlot(st: State, op: Op, id: nat)
    requires Forest(st) && Legal(st, op) && (op.Put? || op.Adopt?)
    ensures var live, live' := st.live, Step(st, op).live;
            && (id in live ==> FiledAs(live', id, live[id].ptr, live[id].tag))
            && (id in live' && id !in live ==> op.ptr != 0 && FiledAs(live', id, op.ptr, FiledTag(op)))
  {
    FreshIdIsNew(st, FiledTag(op), op.owner);
    hide Forest, Under, FreshId, Legal, GoodOwner;
    PutSlot(st, op.ptr, FiledTag(op), op.owner, id);
  }

  lemma {:induction false} PutSlot(st: State, ptr: nat, tag: Tag, owner: nat, id: nat)
    requires FreshId(st, tag, owner) !in st.live
    ensures var live, live' := st.live, PutResult(st, ptr, tag, owner).0.live;
            && (id in live ==> FiledAs(live', id, live[id].ptr, live[id].tag))
            && (id in live' && id !in live ==> ptr != 0 && FiledAs(live', id, ptr, tag))
  {
    hide Under, FreshId;
  }

  lemma {:induction false} FreeKeeps(w: World, gone: set<nat>, drops: seq<Op>)
    requires Good(w) && Covered(w.table, gone, drops)
    ensures Good(Moved(w, Free(gone, drops)))
  {
    var w' := Moved(w, Free(gone, drops));
    DropsKeep(w.table, drops);
    forall id | id in w'.table.live ensures Reaches(w', id) {
      assert Reaches(w, id);
      ReleasedElsewhere(w, drops, id);
    }
  }

  /** A record freed with its slot is nobody else's object. */
  lemma {:induction false} ReleasedElsewhere(w: World, drops: seq<Op>, id: nat)
    requires Good(w) && id in w.table.live && id in AfterAll(w.table, drops).live
    ensures w.table.live[id].ptr !in ReleasedBy(w.table, drops)
  {
    var live := w.table.live;
    assert Reaches(w, id);
    forall other | other in live && other !in AfterAll(w.table, drops).live ensures live[other].ptr != live[id].ptr {
      assert Reaches(w, other);
    }
  }

  lemma {:induction false} MoveKeeps(w: World, m: Move)
    requires Good(w) && Allowed(w, m)
    ensures Good(Moved(w, m))
    ensures forall id :: id in w.made ==> id in Moved(w, m).made && Moved(w, m).made[id] == w.made[id]
  {
    hide Good, Reaches;
    match m
    case Make(addr, tag) => MakeKeeps(w, addr, tag);
    case File(op) => FileKeeps(w, op);
    case Free(gone, drops) => FreeKeeps(w, gone, drops);
  }

  // ------------------------------------------------------------------- runs

  ghost predicate IsHistory(run: seq<World>, moves: seq<Move>) {
    && |run| == |moves| + 1 && run[0] == START
    && forall i {:trigger moves[i]} :: 0 <= i < |moves| ==>
      Allowed(run[i], moves[i]) && run[i + 1] == Moved(run[i], moves[i])
  }

  lemma {:induction false} StartIsGood()
    ensures Good(START)
  {
  }

  lemma {:induction false} HistoryIsGood(run: seq<World>, moves: seq<Move>, k: nat)
    requires IsHistory(run, moves) && k < |run|
    ensures Good(run[k])
    decreases k
  {
    StartIsGood();
    hide Good;
    if k > 0 {
      HistoryIsGood(run, moves, k - 1);
      assert Allowed(run[k - 1], moves[k - 1]);
      hide Allowed;
      MoveKeeps(run[k - 1], moves[k - 1]);
    }
  }

  lemma {:induction false} MadeForGood(run: seq<World>, moves: seq<Move>, j: nat, k: nat, id: nat)
    requires IsHistory(run, moves) && j <= k < |run| && id in run[j].made
    ensures id in run[k].made && run[k].made[id] == run[j].made[id]
    decreases k
  {
    if j < k {
      MadeForGood(run, moves, j, k - 1, id);
      HistoryIsGood(run, moves, k - 1);
      assert Allowed(run[k - 1], moves[k - 1]);
      hide Good, Allowed;
      MoveKeeps(run[k - 1], moves[k - 1]);
    }
  }

  /** Over any history of objects made, filed, freed and their addresses used again: an id
      that resolves reaches memory that is there, and the same object it always reached. */
  lemma {:induction false} NeverAnotherObject(run: seq<World>, moves: seq<Move>, j: nat, k: nat, id: nat)
    requires IsHistory(run, moves) && j <= k < |run| && id in run[j].table.live && id in run[k].table.live
    ensures var a, b := run[j].table.live[id], run[k].table.live[id];
            && a.ptr in run[j].heap && b.ptr in run[k].heap
            && run[j].heap[a.ptr].number == run[k].heap[b.ptr].number
  {
    HistoryIsGood(run, moves, j);
    HistoryIsGood(run, moves, k);
    assert Reaches(run[j], id) && Reaches(run[k], id);
    MadeForGood(run, moves, j, k, id);
  }

  // ------------------------------------------------------------------ the hooks

  /** A package as libalpm shows it to a hook. */
  datatype Pkg = Pkg(ptr: nat, fromFile: bool, name: nat)

  /** libalpm's errors, as far as a hook tells them apart. */
  datatype Errno =
    | WrongArgs | TransNull | TransNotPrepared | TransNotLocked | TransType | Retrieve | PkgInvalid
    | PkgInvalidChecksum | PkgInvalidSig | PkgOpen | FileConflicts | DiskSpace | Other

  /** The failures reported from checks, before anything was installed or removed. */
  predicate TouchedNothing(e: Errno) { !e.Other? }

  function Noted(p: nat): seq<nat> { if p == 0 then [] else [p] }

  /** What releasing a transaction frees: packages loaded from files, copies to remove. */
  function ReleaseNotes(add: seq<Pkg>, remove: seq<Pkg>): seq<nat> { FromFiles(add) + AllOf(remove) }

  function FromFiles(pkgs: seq<Pkg>): seq<nat> {
    if pkgs == [] then []
      else FromFiles(pkgs[..|pkgs| - 1]) + (if pkgs[|pkgs| - 1].fromFile then Noted(pkgs[|pkgs| - 1].ptr) else [])
  }

  function AllOf(pkgs: seq<Pkg>): seq<nat> {
    if pkgs == [] then [] else AllOf(pkgs[..|pkgs| - 1]) + Noted(pkgs[|pkgs| - 1].ptr)
  }

  /** The local db's package of each name, `local[name]`; 0 where it has none. */
  function Victims(pkgs: seq<Pkg>, local: map<nat, nat>): seq<nat> {
    if pkgs == [] then []
    else Victims(pkgs[..|pkgs| - 1], local) + Noted(InstalledAs(pkgs[|pkgs| - 1].name, local))
  }

  function InstalledAs(name: nat, local: map<nat, nat>): nat { if name in local then local[name] else 0 }

  function CommitNotes(add: seq<Pkg>, remove: seq<Pkg>, local: map<nat, nat>): seq<nat> {
    Victims(add, local) + Victims(remove, local)
  }

  function SyncDbNotes(dbs: seq<nat>): seq<nat> {
    if dbs == [] then [] else SyncDbNotes(dbs[..|dbs| - 1]) + Noted(dbs[|dbs| - 1])
  }

  lemma {:induction false} FromFilesAre(pkgs: seq<Pkg>, p: nat)
    ensures p in FromFiles(pkgs) <==> p != 0 && exists a :: a in pkgs && a.fromFile && a.ptr == p
  {
    if pkgs != [] {
      var n := |pkgs| - 1;
      FromFilesAre(pkgs[..n], p);
      assert pkgs == pkgs[..n] + [pkgs[n]];
    }
  }

  lemma {:induction false} AllOfAre(pkgs: seq<Pkg>, p: nat)
    ensures p in AllOf(pkgs) <==> p != 0 && exists a :: a in pkgs && a.ptr == p
  {
    if pkgs != [] {
      var n := |pkgs| - 1;
      AllOfAre(pkgs[..n], p);
      assert pkgs == pkgs[..n] + [pkgs[n]];
    }
  }

  lemma {:induction false} VictimsAre(pkgs: seq<Pkg>, local: map<nat, nat>, p: nat)
    ensures p in Victims(pkgs, local) <==> p != 0 && exists a :: a in pkgs && InstalledAs(a.name, local) == p
  {
    if pkgs != [] {
      var n := |pkgs| - 1;
      VictimsAre(pkgs[..n], local, p);
      assert pkgs == pkgs[..n] + [pkgs[n]];
    }
  }

  /** Noted before a release: the packages added from files, and those to remove. */
  lemma {:induction false} ReleaseNotesAre(add: seq<Pkg>, remove: seq<Pkg>, p: nat)
    ensures p in ReleaseNotes(add, remove) <==>
            p != 0 && ((exists a :: a in add && a.fromFile && a.ptr == p) || (exists r :: r in remove && r.ptr == p))
  {
    FromFilesAre(add, p);
    AllOfAre(remove, p);
  }

  /** Noted before a commit: what the local db has under the names added and removed. */
  lemma {:induction false} CommitNotesAre(add: seq<Pkg>, remove: seq<Pkg>, local: map<nat, nat>, p: nat)
    ensures p in CommitNotes(add, remove, local) <==>
            p != 0 && exists a :: a in add + remove && InstalledAs(a.name, local) == p
  {
    VictimsAre(add, local, p);
    VictimsAre(remove, local, p);
    assert forall a :: a in add + remove <==> a in add || a in remove;
  }

  /** Noted before unregistering: the sync dbs. */
  lemma {:induction false} SyncDbNotesAre(dbs: seq<nat>, p: nat)
    ensures p in SyncDbNotes(dbs) <==> p != 0 && p in dbs
  {
    if dbs != [] {
      var n := |dbs| - 1;
      SyncDbNotesAre(dbs[..n], p);
      assert dbs == dbs[..n] + [dbs[n]];
    }
  }

  lemma {:induction false} DropPtrsAre(ptrs: seq<nat>, tag: Tag)
    ensures forall op :: op in DropPtrs(ptrs, tag) <==> op.DropPtr? && op.tag == tag && op.ptr in ptrs
  {
    if ptrs != [] {
      DropPtrsAre(ptrs[1..], tag);
      assert ptrs == [ptrs[0]] + ptrs[1..];
    }
  }

  lemma {:induction false} DropUndersAre(ids: seq<nat>)
    ensures forall op :: op in DropUnders(ids) <==> op.DropUnder? && op.id in ids
  {
    if ids != [] {
      DropUndersAre(ids[1..]);
      assert ids == [ids[0]] + ids[1..];
    }
  }

  /** Is `id` filed as one of these objects, or under one? */
  ghost predicate FiledUnder(st: State, id: nat, ptrs: seq<nat>, tag: Tag) {
    exists o :: o in st.live && st.live[o].ptr in ptrs && st.live[o].tag == tag && Under(st.live, id, o, WALK)
  }

  ghost predicate FiledBelow(st: State, id: nat, dbs: seq<nat>) {
    exists o :: o in dbs && Under(st.live, id, o, WALK) && id != o
  }

  /** Dropping the noted pointers drops exactly what is filed as them or under them. */
  lemma {:induction false} NotesDropExactly(st: State, ptrs: seq<nat>, tag: Tag, id: nat)
    requires Forest(st) && id in st.live
    ensures id !in AfterAll(st, DropPtrs(ptrs, tag)).live <==> FiledUnder(st, id, ptrs, tag)
  {
    DropPtrsAre(ptrs, tag);
    var drops := DropPtrs(ptrs, tag);
    AfterAllExactly(st, drops, id);
    hide DropPtrs;
    if FiledUnder(st, id, ptrs, tag) {
      var o :| o in st.live && st.live[o].ptr in ptrs && st.live[o].tag == tag && Under(st.live, id, o, WALK);
      FoundWhileThere(st, st.live[o].ptr, tag, o);
      assert DropPtr(st.live[o].ptr, tag) in drops && id in Dropping(st, DropPtr(st.live[o].ptr, tag));
    }
    if op :| op in drops && id in Dropping(st, op) {
      NobodyOwns(st.live, id, WALK);
      assert FiledAs(st.live, Lookup(st.live, op.ptr, tag), op.ptr, tag);
    }
  }

  /** Dropping under the dbs drops exactly what is filed below one. */
  lemma {:induction false} DbsDropExactly(st: State, dbs: seq<nat>, id: nat)
    requires Forest(st) && id in st.live
    ensures id !in AfterAll(st, DropUnders(dbs)).live <==> FiledBelow(st, id, dbs)
  {
    DropUndersAre(dbs);
    var drops := DropUnders(dbs);
    AfterAllExactly(st, drops, id);
    hide DropUnders;
    if FiledBelow(st, id, dbs) {
      var o :| o in dbs && Under(st.live, id, o, WALK) && id != o;
      assert DropUnder(o) in drops && id in Dropping(st, DropUnder(o));
    }
    if op :| op in drops && id in Dropping(st, op) {
      assert op.id in dbs;
    }
  }

  /** A bracketed call: its arguments, and what libalpm shows the hooks about them. */
  datatype Hooked =
    | TransRelease(add: seq<Pkg>, remove: seq<Pkg>)
    | TransCommit(add: seq<Pkg>, remove: seq<Pkg>, local: map<nat, nat>, errno: Errno)
    | DbUpdate(dbs: seq<nat>)
    | UnregisterAll(syncDbs: seq<nat>)

  /** What its pre hook notes. */
  function Notes(h: Hooked): seq<nat> {
    match h
    case TransRelease(add, remove) => ReleaseNotes(add, remove)
    case TransCommit(add, remove, local, _) => CommitNotes(add, remove, local)
    case DbUpdate(_) => []
    case UnregisterAll(syncDbs) => SyncDbNotes(syncDbs)
  }

  /** What the post hook drops. */
  function PostDrops(h: Hooked, rc: int): seq<Op> {
    match h
    case TransRelease(_, _) => if rc == 0 then DropPtrs(Notes(h), Tag.Pkg) else []
    case TransCommit(_, _, _, errno) => if rc == 0 || !TouchedNothing(errno) then DropPtrs(Notes(h), Tag.Pkg) else []
    case DbUpdate(dbs) => if rc == 1 then [] else DropUnders(dbs)
    case UnregisterAll(_) => if rc == 0 then DropPtrs(Notes(h), Tag.Db) else []
  }

  /** Does the call do anything? Not if it failed its checks, or found all up to date. */
  predicate Acts(h: Hooked, rc: int) {
    match h
    case TransRelease(_, _) => rc == 0
    case TransCommit(_, _, _, errno) => rc == 0 || !TouchedNothing(errno)
    case DbUpdate(_) => rc != 1
    case UnregisterAll(_) => rc == 0
  }

  /** The objects the call takes away, as libalpm has it: packages from files and copies
      made for removal; the installed packages of the names added or removed; sync dbs. */
  predicate Dies(h: Hooked, p: nat) {
    p != 0 &&
    match h
    case TransRelease(add, remove) =>
      (exists a :: a in add && a.fromFile && a.ptr == p) || (exists r :: r in remove && r.ptr == p)
    case TransCommit(add, remove, local, _) => exists a :: a in add + remove && InstalledAs(a.name, local) == p
    case DbUpdate(_) => false
    case UnregisterAll(syncDbs) => p in syncDbs
  }

  function DyingTag(h: Hooked): Tag { if h.UnregisterAll? then Tag.Db else Tag.Pkg }

  /** Is `id` filed as what dies, or under it? An update frees what the dbs hold, so there
      it is what is filed below one of them. */
  ghost predicate Doomed(st: State, h: Hooked, id: nat) {
    if h.DbUpdate? then exists o :: o in h.dbs && Under(st.live, id, o, WALK) && id != o
    else exists o ::
           o in st.live && Dies(h, st.live[o].ptr) && st.live[o].tag == DyingTag(h) && Under(st.live, id, o, WALK)
  }

  lemma {:induction false} NotesAreWhatDies(h: Hooked, p: nat)
    requires !h.DbUpdate?
    ensures p in Notes(h) <==> Dies(h, p)
  {
    match h
    case TransRelease(add, remove) => ReleaseNotesAre(add, remove, p);
    case TransCommit(add, remove, local, _) => CommitNotesAre(add, remove, local, p);
    case UnregisterAll(syncDbs) => SyncDbNotesAre(syncDbs, p);
  }

  /** The hooks drop exactly the ids of what dies in the call and of what is filed under
      that; none if the call does nothing. */
  lemma {:induction false} HooksDropExactly(st: State, h: Hooked, rc: int, id: nat)
    requires Forest(st) && id in st.live
    ensures id !in AfterAll(st, PostDrops(h, rc)).live <==> Acts(h, rc) && Doomed(st, h, id)
  {
    if Acts(h, rc) {
      if h.DbUpdate? {
        DbsDropExactly(st, h.dbs, id);
      } else {
        NotesDropExactly(st, Notes(h), DyingTag(h), id);
        forall p ensures p in Notes(h) <==> Dies(h, p) {
          NotesAreWhatDies(h, p);
        }
      }
    }
  }

  // The same call by call, from the arguments alone.

  lemma {:induction false} ReleaseDropsExactly(st: State, add: seq<Pkg>, remove: seq<Pkg>, rc: int, id: nat)
    requires Forest(st) && id in st.live
    ensures id !in AfterAll(st, PostDrops(TransRelease(add, remove), rc)).live <==>
            rc == 0 &&
            exists o :: o in st.live && st.live[o].tag == Tag.Pkg && Below(st.live, id, o) &&
                        ((exists a :: a in add && a.fromFile && a.ptr == st.live[o].ptr) ||
                         (exists r :: r in remove && r.ptr == st.live[o].ptr))
  {
    HooksDropExactly(st, TransRelease(add, remove), rc, id);
    LiveIsBelow(st, id);
    hide Below, Under, PostDrops, AfterAll;
  }

  lemma {:induction false} CommitDropsExactly(st: State, add: seq<Pkg>, remove: seq<Pkg>, local: map<nat, nat>,
                                              errno: Errno, rc: int, id: nat)
    requires Forest(st) && id in st.live
    ensures id !in AfterAll(st, PostDrops(TransCommit(add, remove, local, errno), rc)).live <==>
            (rc == 0 || errno !in {WrongArgs, TransNull, TransNotPrepared, TransNotLocked, TransType, Retrieve,
                                   PkgInvalid, PkgInvalidChecksum, PkgInvalidSig, PkgOpen, FileConflicts, DiskSpace}) &&
            exists o, a {:trigger st.live[o], a.name} ::
              o in st.live && st.live[o].tag == Tag.Pkg && Below(st.live, id, o) &&
              a in add + remove && a.name in local && local[a.name] == st.live[o].ptr
  {
    HooksDropExactly(st, TransCommit(add, remove, local, errno), rc, id);
    LiveIsBelow(st, id);
    hide Below, Under, PostDrops, AfterAll;
  }

  lemma {:induction false} UpdateDropsExactly(st: State, dbs: seq<nat>, rc: int, id: nat)
    requires Forest(st) && id in st.live
    ensures id !in AfterAll(st, PostDrops(DbUpdate(dbs), rc)).live <==>
            rc != 1 && exists o :: o in dbs && o != id && Below(st.live, id, o)
  {
    HooksDropExactly(st, DbUpdate(dbs), rc, id);
    forall o ensures Under(st.live, id, o, WALK) <==> Below(st.live, id, o) {
      UnderIsBelow(st, id, o);
    }
    hide Below, Under, PostDrops, AfterAll;
  }

  lemma {:induction false} UnregisterDropsExactly(st: State, syncDbs: seq<nat>, rc: int, id: nat)
    requires Forest(st) && id in st.live
    ensures id !in AfterAll(st, PostDrops(UnregisterAll(syncDbs), rc)).live <==>
            rc == 0 &&
            exists o :: o in st.live && st.live[o].tag == Tag.Db && Below(st.live, id, o) && st.live[o].ptr in syncDbs
  {
    HooksDropExactly(st, UnregisterAll(syncDbs), rc, id);
    LiveIsBelow(st, id);
    hide Below, Under, PostDrops, AfterAll;
  }

  lemma {:induction false} LiveIsBelow(st: State, id: nat)
    requires Forest(st)
    ensures forall o :: o in st.live ==> st.live[o].ptr != 0 && (Under(st.live, id, o, WALK) <==> Below(st.live, id, o))
  {
    forall o | o in st.live ensures st.live[o].ptr != 0 && (Under(st.live, id, o, WALK) <==> Below(st.live, id, o)) {
      assert Sound(st, o);
      UnderIsBelow(st, id, o);
    }
  }

  lemma {:induction false} PostDropsOnly(h: Hooked, rc: int)
    ensures forall op :: op in PostDrops(h, rc) ==> OnlyDrops(op)
  {
    DropPtrsAre(Notes(h), DyingTag(h));
    if h.DbUpdate? {
      DropUndersAre(h.dbs);
    }
  }

  /** What libalpm may free in such a call without leaving an id behind. */
  ghost predicate MayFree(st: State, h: Hooked, rc: int, gone: set<nat>) {
    forall id :: id in st.live && st.live[id].ptr in gone ==> Acts(h, rc) && Doomed(st, h, id)
  }

  /** The hooks cover a call exactly when everything it frees that has an id is filed as
      what dies in it or under that. Then it is a move that the histories above allow. */
  lemma {:induction false} HooksCoverIff(w: World, h: Hooked, rc: int, gone: set<nat>)
    requires Good(w)
    ensures Allowed(w, Free(gone, PostDrops(h, rc))) <==> MayFree(w.table, h, rc, gone)
    ensures MayFree(w.table, h, rc, gone) ==> Good(Moved(w, Free(gone, PostDrops(h, rc))))
  {
    PostDropsOnly(h, rc);
    var drops := PostDrops(h, rc);
    forall id | id in w.table.live
      ensures id !in AfterAll(w.table, drops).live <==> Acts(h, rc) && Doomed(w.table, h, id)
    {
      HooksDropExactly(w.table, h, rc, id);
    }
    hide Doomed, PostDrops, Moved, Reaches, Forest;
    if Covered(w.table, gone, drops) {
      FreeKeeps(w, gone, drops);
    }
  }

  /** And otherwise some id resolves to freed memory. */
  lemma {:induction false} UncoveredDangles(w: World, h: Hooked, rc: int, gone: set<nat>) returns (id: nat)
    requires Good(w) && !MayFree(w.table, h, rc, gone)
    ensures var w' := Moved(w, Free(gone, PostDrops(h, rc))); id in w'.table.live && !Reaches(w', id)
  {
    id :| id in w.table.live && w.table.live[id].ptr in gone && !(Acts(h, rc) && Doomed(w.table, h, id));
    PostDropsOnly(h, rc);
    HooksDropExactly(w.table, h, rc, id);
    DropsKeep(w.table, PostDrops(h, rc));
    hide Doomed, PostDrops, Forest;
  }

  /** A package is covered by an update of these dbs exactly when it is filed under one. */
  lemma {:induction false} PackageIsDoomedIff(st: State, dbs: seq<nat>, id: nat)
    requires Forest(st) && id in st.live && st.live[id].tag == Tag.Pkg
    requires forall o :: o in dbs ==> o in st.live && st.live[o].tag == Tag.Db
    ensures Doomed(st, DbUpdate(dbs), id) <==> st.live[id].owner in dbs
  {
    var up := st.live[id].owner;
    assert Sound(st, id);
    if o :| o in dbs && Under(st.live, id, o, WALK) && id != o {
      assert Under(st.live, up, o, WALK - 1);
      if up != o {
        LevelsClimb(st, up, o, WALK - 1);
      }
    }
    if up in dbs {
      assert Sound(st, up) && up != 0;
      assert Under(st.live, up, up, WALK - 1);
      assert Under(st.live, id, up, WALK);
    }
  }

  /** So a package met in a callback, which files it under the handle, and not listed since
      is not: if an update frees it, its id goes on resolving to it. */
  lemma {:induction false} MetInCallbackDangles(w: World, dbs: seq<nat>, rc: int, gone: set<nat>, id: nat)
    requires Good(w) && id in w.table.live && w.table.live[id].tag == Tag.Pkg && w.table.live[id].ptr in gone
    requires forall o :: o in dbs ==> o in w.table.live && w.table.live[o].tag == Tag.Db
    requires var owner := w.table.live[id].owner; owner in w.table.live && w.table.live[owner].tag == Tag.Handle
    ensures !MayFree(w.table, DbUpdate(dbs), rc, gone)
    ensures var w' := Moved(w, Free(gone, PostDrops(DbUpdate(dbs), rc))); id in w'.table.live && !Reaches(w', id)
  {
    PackageIsDoomedIff(w.table, dbs, id);
    PostDropsOnly(DbUpdate(dbs), rc);
    HooksDropExactly(w.table, DbUpdate(dbs), rc, id);
    DropsKeep(w.table, PostDrops(DbUpdate(dbs), rc));
    hide Doomed, PostDrops, Forest;
  }

  /** Filed again when its db is listed, it is covered. */
  lemma {:induction false} ListedIsCovered(st: State, dbs: seq<nat>, ptr: nat, db: nat)
    requires Forest(st) && Room(st) && db in dbs && ptr != 0
    requires forall o :: o in dbs ==> o in st.live && st.live[o].tag == Tag.Db
    requires var have := Lookup(st.live, ptr, Tag.Pkg);
             have != 0 ==> st.live[have].owner == db || Under(st.live, db, st.live[have].owner, WALK)
    ensures var (st', id) := PutResult(st, ptr, Tag.Pkg, db);
            id in st'.live && FiledAs(st'.live, id, ptr, Tag.Pkg) && Doomed(st', DbUpdate(dbs), id)
  {
    assert Sound(st, db);
    PutKeepsForest(st, ptr, Tag.Pkg, db);
    FreshIdIsNew(st, Tag.Pkg, db);
    var (st', id) := PutResult(st, ptr, Tag.Pkg, db);
    forall o | o in dbs ensures o in st'.live && st'.live[o].tag == Tag.Db {
      PutSlot(st, ptr, Tag.Pkg, db, o);
    }
    hide Under, Forest, FreshId, Doomed;
    assert id in st'.live && FiledAs(st'.live, id, ptr, Tag.Pkg) && st'.live[id].owner == db;
    PackageIsDoomedIff(st', dbs, id);
  }

  // ---------------------------------------------------------- notes and drops

  /** Pointers collected before a call, dropped after it. */
  class Dying {
    var ptr: array<nat>
    var n: nat

    ghost predicate Valid()
      reads this
    {
      n <= ptr.Length
    }

    ghost function Contents(): seq<nat>
      requires Valid()
      reads this, ptr
    {
      ptr[..n]
    }

    constructor ()
      ensures Valid() && Contents() == [] && fresh(ptr)
    {
      ptr, n := new nat[0], 0;
    }

    method Note(p: nat)
      requires Valid()
      modifies this, ptr
      ensures Valid() && (ptr == old(ptr) || fresh(ptr)) && Contents() == old(Contents()) + Noted(p)
    {
      if p == 0 {
        return;
      }
      if n == ptr.Length {
        var np := new nat[if n > 0 then n * 2 else 16](_ => 0);
        forall k | 0 <= k < n {
          np[k] := ptr[k];
        }
        ptr := np;
      }
      ptr[n] := p;
      n := n + 1;
    }
  }

  method TransReleasePre(add: seq<Pkg>, remove: seq<Pkg>) returns (d: Dying)
    ensures fresh(d) && fresh(d.ptr) && d.Valid() && d.Contents() == ReleaseNotes(add, remove)
  {
    d := new Dying();
    NoteFromFiles(d, add);
    assert d.Contents() == FromFiles(add);
    NoteAllOf(d, remove);
  }

  method NoteFromFiles(d: Dying, pkgs: seq<Pkg>)
    requires d.Valid()
    modifies d, d.ptr
    ensures d.Valid() && (d.ptr == old(d.ptr) || fresh(d.ptr)) && d.Contents() == old(d.Contents()) + FromFiles(pkgs)
  {
    assert pkgs[..0] == [] && d.Contents() + [] == d.Contents();
    for i := 0 to |pkgs|
      invariant d.Valid() && (d.ptr == old(d.ptr) || fresh(d.ptr)) &&
                d.Contents() == old(d.Contents()) + FromFiles(pkgs[..i])
    {
      assert pkgs[..i + 1][..i] == pkgs[..i];
      if pkgs[i].fromFile {
        d.Note(pkgs[i].ptr);
      }
    }
    assert pkgs[..|pkgs|] == pkgs;
  }

  method NoteAllOf(d: Dying, pkgs: seq<Pkg>)
    requires d.Valid()
    modifies d, d.ptr
    ensures d.Valid() && (d.ptr == old(d.ptr) || fresh(d.ptr)) && d.Contents() == old(d.Contents()) + AllOf(pkgs)
  {
    assert pkgs[..0] == [] && d.Contents() + [] == d.Contents();
    for i := 0 to |pkgs|
      invariant d.Valid() && (d.ptr == old(d.ptr) || fresh(d.ptr)) &&
                d.Contents() == old(d.Contents()) + AllOf(pkgs[..i])
    {
      assert pkgs[..i + 1][..i] == pkgs[..i];
      d.Note(pkgs[i].ptr);
    }
    assert pkgs[..|pkgs|] == pkgs;
  }

  method TransCommitPre(add: seq<Pkg>, remove: seq<Pkg>, local: map<nat, nat>) returns (d: Dying)
    ensures fresh(d) && fresh(d.ptr) && d.Valid() && d.Contents() == CommitNotes(add, remove, local)
  {
    d := new Dying();
    NoteVictims(d, add, local);
    assert d.Contents() == Victims(add, local);
    NoteVictims(d, remove, local);
  }

  method NoteVictims(d: Dying, pkgs: seq<Pkg>, local: map<nat, nat>)
    requires d.Valid()
    modifies d, d.ptr
    ensures d.Valid() && (d.ptr == old(d.ptr) || fresh(d.ptr)) &&
            d.Contents() == old(d.Contents()) + Victims(pkgs, local)
  {
    assert pkgs[..0] == [] && d.Contents() + [] == d.Contents();
    for i := 0 to |pkgs|
      invariant d.Valid() && (d.ptr == old(d.ptr) || fresh(d.ptr)) &&
                d.Contents() == old(d.Contents()) + Victims(pkgs[..i], local)
    {
      assert pkgs[..i + 1][..i] == pkgs[..i];
      d.Note(InstalledAs(pkgs[i].name, local));
    }
    assert pkgs[..|pkgs|] == pkgs;
  }

  method UnregisterAllPre(syncDbs: seq<nat>) returns (d: Dying)
    ensures fresh(d) && fresh(d.ptr) && d.Valid() && d.Contents() == SyncDbNotes(syncDbs)
  {
    d := new Dying();
    assert syncDbs[..0] == [];
    for i := 0 to |syncDbs|
      invariant fresh(d.ptr) && d.Valid() && d.Contents() == SyncDbNotes(syncDbs[..i])
    {
      assert syncDbs[..i + 1][..i] == syncDbs[..i];
      d.Note(syncDbs[i]);
    }
    assert syncDbs[..|syncDbs|] == syncDbs;
  }

  /** Every noted pointer's id, and all under it. */
  method DropAll(d: Dying, table: Table, tag: Tag)
    requires d.Valid() && table.Valid() && d.ptr != table.byptr
    modifies table
    ensures table.Valid() && (table.tab == old(table.tab) || fresh(table.tab)) &&
            (table.byptr == old(table.byptr) || fresh(table.byptr))
    ensures table.Abs() == AfterAll(old(table.Abs()), DropPtrs(d.Contents(), tag))
  {
    ghost var ptrs := d.Contents();
    var i := 0;
    assert ptrs[0..] == ptrs;
    while i < d.n
      invariant 0 <= i <= |ptrs| && d.Valid() && d.Contents() == ptrs && table.Valid()
      invariant (table.tab == old(table.tab) || fresh(table.tab)) &&
                (table.byptr == old(table.byptr) || fresh(table.byptr))
      invariant AfterAll(table.Abs(), DropPtrs(ptrs[i..], tag)) == AfterAll(old(table.Abs()), DropPtrs(ptrs, tag))
      decreases d.n - i
    {
      OneDropMore(table.Abs(), ptrs[i..], tag);
      assert ptrs[i..][1..] == ptrs[i + 1..];
      table.HandleDropPtr(d.ptr[i], tag);
      i := i + 1;
    }
  }

  lemma {:induction false} OneDropMore(st: State, ptrs: seq<nat>, tag: Tag)
    requires ptrs != []
    ensures AfterAll(st, DropPtrs(ptrs, tag)) == AfterAll(Step(st, DropPtr(ptrs[0], tag)), DropPtrs(ptrs[1..], tag))
  {
    assert DropPtrs(ptrs, tag)[1..] == DropPtrs(ptrs[1..], tag);
  }

  method TransReleasePost(d: Dying, table: Table, rc: int, ghost add: seq<Pkg>, ghost remove: seq<Pkg>)
    requires d.Valid() && d.Contents() == Notes(TransRelease(add, remove))
    requires d.Valid() && table.Valid() && d.ptr != table.byptr
    modifies table
    ensures table.Valid() && table.Abs() == AfterAll(old(table.Abs()), PostDrops(TransRelease(add, remove), rc))
  {
    if rc == 0 {
      DropAll(d, table, Tag.Pkg);
    }
  }

  /** With no handle in the request nothing was noted either. */
  method TransCommitPost(d: Dying, table: Table, rc: int, hasHandle: bool, errno: Errno,
                         ghost add: seq<Pkg>, ghost remove: seq<Pkg>, ghost local: map<nat, nat>)
    requires d.Valid() && d.Contents() == Notes(TransCommit(add, remove, local, errno))
    requires d.Valid() && table.Valid() && d.ptr != table.byptr && (!hasHandle ==> d.Contents() == [])
    modifies table
    ensures table.Valid()
    ensures table.Abs() == AfterAll(old(table.Abs()), PostDrops(TransCommit(add, remove, local, errno), rc))
  {
    if rc == 0 || !hasHandle || !TouchedNothing(errno) {
      DropAll(d, table, Tag.Pkg);
    }
  }

  method UnregisterAllPost(d: Dying, table: Table, rc: int, ghost syncDbs: seq<nat>)
    requires d.Valid() && d.Contents() == Notes(UnregisterAll(syncDbs))
    requires d.Valid() && table.Valid() && d.ptr != table.byptr
    modifies table
    ensures table.Valid() && table.Abs() == AfterAll(old(table.Abs()), PostDrops(UnregisterAll(syncDbs), rc))
  {
    if rc == 0 {
      DropAll(d, table, Tag.Db);
    }
  }

  method DbUpdatePost(table: Table, dbs: seq<nat>, rc: int)
    requires table.Valid()
    modifies table
    ensures table.Valid() && table.Abs() == AfterAll(old(table.Abs()), PostDrops(DbUpdate(dbs), rc))
  {
    if rc == 1 {
      return;
    }
    assert dbs[0..] == dbs;
    for i := 0 to |dbs|
      invariant table.Valid()
      invariant AfterAll(table.Abs(), DropUnders(dbs[i..])) == AfterAll(old(table.Abs()), DropUnders(dbs))
    {
      assert dbs[i..][1..] == dbs[i + 1..];
      assert DropUnders(dbs[i..])[1..] == DropUnders(dbs[i + 1..]);
      table.HandleDropUnder(dbs[i]);
    }
  }
}
