/** The server's handle table as it is stored: two open-addressed indexes over one
    array of slots, one by id and one by (pointer, tag), grown and emptied by building
    both again.  Every operation is proved to be the one `Registry` describes. */
module HandleTable {
  import opened OpenAddressing
  import opened Registry

  // --------------------------------------------------------------- hashing

  const UINT64: nat := 0x1_0000_0000_0000_0000
  const UINT32: nat := 0x1_0000_0000

  /** Bitwise and, and exclusive or, of two words. */
  function And(a: nat, b: nat): (r: nat)
    ensures r <= b
    decreases a
  {
    if a == 0 || b == 0 then 0
    else (if a % 2 == 1 && b % 2 == 1 then 1 else 0) + 2 * And(a / 2, b / 2)
  }

  function Xor(a: nat, b: nat): nat
    decreases a + b
  {
    if a == 0 then b else if b == 0 then a
    else (if a % 2 == b % 2 then 0 else 1) + 2 * Xor(a / 2, b / 2)
  }

  /** Fibonacci hashing of a 64-bit word, masked to the table. */
  function Mix(x: nat, cap: nat): (h: nat)
    ensures cap > 0 ==> h < cap
  {
    if cap == 0 then 0 else And(x * 11400714819323198485 % UINT64 / UINT32, cap - 1)
  }

  predicate PowerOfTwo(n: nat) {
    n == 1 || (n > 1 && n % 2 == 0 && PowerOfTwo(n / 2))
  }

  lemma {:induction false} MaskIsRemainder(x: nat, cap: nat)
    requires PowerOfTwo(cap)
    ensures And(x, cap - 1) == x % cap
    decreases cap
  {
    if cap > 1 {
      var h := cap / 2;
      MaskIsRemainder(x / 2, h);
      HalvedRemainder(x, h);
      assert (cap - 1) / 2 == h - 1 && (cap - 1) % 2 == 1;
      assert x == 0 ==> x / 2 % h == 0;
    }
  }

  lemma {:induction false} HalvedRemainder(x: nat, h: nat)
    requires h > 0
    ensures x % (2 * h) == 2 * (x / 2 % h) + x % 2
  {
    var q, r := x / 2 / h, x / 2 % h;
    assert x / 2 == q * h + r;
    assert x == q * (2 * h) + (2 * r + x % 2);
    RemainderOf(x, 2 * h, q, 2 * r + x % 2);
  }

  lemma {:induction false} RemainderOf(x: nat, n: nat, q: nat, r: nat)
    requires 0 <= r < n && x == q * n + r
    ensures x % n == r
  {
    var d := q - x / n;
    assert x == (x / n) * n + x % n;
    assert d * n == x % n - r;
    assert d > 0 ==> d * n >= n;
    assert d < 0 ==> d * n <= 0 - n;
  }

  /** The masked step of a probe goes to the next cell, around the end. */
  lemma {:induction false} MaskIsNext(i: nat, cap: nat)
    requires PowerOfTwo(cap) && i < cap
    ensures And(i + 1, cap - 1) == Next(i, cap)
  {
    MaskIsRemainder(i + 1, cap);
    hide And, PowerOfTwo;
    if i + 1 == cap {
      RemainderOf(i + 1, cap, 1, 0);
    } else {
      RemainderOf(i + 1, cap, 0, i + 1);
    }
  }

  function TagCode(t: Tag): nat {
    match t
    case NoTag => 0
    case Handle => 1
    case Db => 2
    case Pkg => 3
    case Changelog => 4
  }

  ghost function IdHome(cap: nat): nat -> nat { (id: nat) => Mix(id, cap) }

  function MixPtr(p: nat, tag: Tag, cap: nat): (h: nat)
    ensures cap > 0 ==> h < cap
  {
    Mix(Xor(p, TagCode(tag) * 0x100_0000_0000_0000), cap)
  }

  ghost function PtrHome(cap: nat): ((nat, Tag)) -> nat {
    (key: (nat, Tag)) => MixPtr(key.0, key.1, cap)
  }

  // ---------------------------------------------- what the two arrays hold

  const NoSlot := Slot(0, 0, 0, NoTag, 0)

  ghost function IdCells(tab: seq<Slot>): (cells: seq<Cell<nat>>)
    ensures |cells| == |tab|
    ensures forall i :: 0 <= i < |tab| ==> cells[i] == if tab[i].id == 0 then Free else Taken(tab[i].id)
  {
    seq(|tab|, i requires 0 <= i < |tab| => if tab[i].id == 0 then Free else Taken(tab[i].id))
  }

  /** Every by-pointer entry points at a filled slot. */
  ghost predicate PointsIn(tab: seq<Slot>, byptr: seq<nat>) {
    forall j :: 0 <= j < |byptr| ==> byptr[j] == 0 || (byptr[j] <= |tab| && tab[byptr[j] - 1].id != 0)
  }

  ghost function KeyOf(s: Slot): (nat, Tag) { (s.ptr, s.tag) }

  ghost function PtrCells(tab: seq<Slot>, byptr: seq<nat>): (cells: seq<Cell<(nat, Tag)>>)
    requires PointsIn(tab, byptr)
    ensures |cells| == |byptr|
    ensures forall j :: 0 <= j < |byptr| ==> cells[j] == if byptr[j] == 0 then Free else Taken(KeyOf(tab[byptr[j] - 1]))
  {
    seq(|byptr|, j requires 0 <= j < |byptr| => if byptr[j] == 0 then Free else Taken(KeyOf(tab[byptr[j] - 1])))
  }

  /** Where the two kinds of key hash to. */
  datatype Homes = Homes(id: nat -> nat, ptr: ((nat, Tag)) -> nat)

  ghost predicate Within(homes: Homes, cap: nat) {
    (forall id :: homes.id(id) < cap) && (forall key :: homes.ptr(key) < cap)
  }

  /** Both indexes are sound, and every filled slot has its by-pointer entry. That it
      has only one is `OneEntryPerSlot`. */
  ghost predicate Indexed(tab: seq<Slot>, byptr: seq<nat>, homes: Homes) {
    && |tab| == |byptr|
    && Chained(IdCells(tab), homes.id)
    && PointsIn(tab, byptr)
    && Chained(PtrCells(tab, byptr), homes.ptr)
    && Load(PtrCells(tab, byptr)) == Load(IdCells(tab))
    && AllPointedAt(tab, byptr)
  }

  ghost predicate AllPointedAt(tab: seq<Slot>, byptr: seq<nat>) {
    forall i {:trigger PointedAt(byptr, i)} :: 0 <= i < |tab| && tab[i].id != 0 ==> PointedAt(byptr, i)
  }

  ghost predicate PointedAt(byptr: seq<nat>, i: int) {
    exists j :: 0 <= j < |byptr| && byptr[j] == i + 1
  }

  lemma {:induction false} OneEntryPerSlot(tab: seq<Slot>, byptr: seq<nat>, homes: Homes, i: nat)
    requires Indexed(tab, byptr, homes) && i < |tab| && tab[i].id != 0
    ensures exists j :: 0 <= j < |byptr| && byptr[j] == i + 1 &&
                        forall k :: 0 <= k < |byptr| && byptr[k] == i + 1 ==> k == j
  {
    assert PointedAt(byptr, i);
    var j :| 0 <= j < |byptr| && byptr[j] == i + 1;
    var cells := PtrCells(tab, byptr);
    forall k | 0 <= k < |byptr| && byptr[k] == i + 1 ensures k == j {
      assert Twins(cells, k, j);
    }
  }

  /** The slots by id: what the table means. */
  ghost function LiveOf(tab: seq<Slot>): Live {
    if |tab| == 0 then map[]
    else
      var front, s := LiveOf(tab[..|tab| - 1]), tab[|tab| - 1];
      if s.id == 0 then front else front[s.id := s]
  }

  lemma {:induction false} LiveIffStored(tab: seq<Slot>, id: nat)
    ensures id in LiveOf(tab) <==> id != 0 && Taken(id) in IdCells(tab)
    ensures id in LiveOf(tab) ==> LiveOf(tab)[id] in tab && LiveOf(tab)[id].id == id
  {
    if |tab| > 0 {
      var n := |tab| - 1;
      LiveIffStored(tab[..n], id);
      assert IdCells(tab)[..n] == IdCells(tab[..n]);
      assert IdCells(tab) == IdCells(tab)[..n] + [IdCells(tab)[n]];
    }
  }

  /** With ids stored once each, the slot at `i` is the one its id means. */
  lemma {:induction false} StoredIsLive(tab: seq<Slot>, homes: Homes, i: nat)
    requires i < |tab| && tab[i].id != 0
    requires Chained(IdCells(tab), homes.id)
    ensures tab[i].id in LiveOf(tab) && LiveOf(tab)[tab[i].id] == tab[i]
  {
    var id := tab[i].id;
    assert IdCells(tab)[i] == Taken(id);
    LiveIffStored(tab, id);
    var k :| 0 <= k < |tab| && tab[k] == LiveOf(tab)[id];
    assert Twins(IdCells(tab), k, i);
  }

  lemma {:induction false} LiveOfStore(tab: seq<Slot>, i: nat, s: Slot)
    requires i < |tab| && tab[i].id == 0 && s.id != 0 && Taken(s.id) !in IdCells(tab)
    ensures LiveOf(tab[i := s]) == LiveOf(tab)[s.id := s]
  {
    var n := |tab| - 1;
    if i == n {
      assert tab[i := s][..n] == tab[..n];
    } else {
      assert tab[i := s][..n] == tab[..n][i := s];
      assert forall k :: 0 <= k < n ==> IdCells(tab[..n])[k] == IdCells(tab)[k];
      LiveOfStore(tab[..n], i, s);
      assert IdCells(tab)[n] != Taken(s.id);
    }
  }

  /** Changing a slot's owner or release in place changes just that. */
  lemma {:induction false} LiveOfUpdate(tab: seq<Slot>, i: nat, s: Slot)
    requires i < |tab| && tab[i].id == s.id != 0
    requires forall k :: 0 <= k < |tab| && k != i ==> tab[k].id != s.id
    ensures LiveOf(tab[i := s]) == LiveOf(tab)[s.id := s]
  {
    var n := |tab| - 1;
    if i == n {
      assert tab[i := s][..n] == tab[..n];
    } else {
      assert tab[i := s][..n] == tab[..n][i := s];
      LiveOfUpdate(tab[..n], i, s);
    }
  }

  lemma {:induction false} StoreInIds(tab: seq<Slot>, homes: Homes, i: nat, s: Slot)
    requires Chained(IdCells(tab), homes.id) && Within(homes, |tab|) && s.id != 0
    requires StopsAt(IdCells(tab), homes.id, s.id, i) && tab[i].id == 0
    ensures Chained(IdCells(tab[i := s]), homes.id)
    ensures Load(IdCells(tab[i := s])) == Load(IdCells(tab)) + 1
    ensures LiveOf(tab[i := s]) == LiveOf(tab)[s.id := s]
    ensures s.id !in LiveOf(tab)
  {
    StoreKeepsChains(IdCells(tab), homes.id, s.id, i);
    assert IdCells(tab[i := s]) == IdCells(tab)[i := Taken(s.id)];
    FreeMeansAbsent(IdCells(tab), homes.id, s.id, i);
    LiveIffStored(tab, s.id);
    LiveOfStore(tab, i, s);
  }

  lemma {:induction false} StoreInPtrs(tab: seq<Slot>, byptr: seq<nat>, homes: Homes, i: nat, s: Slot, j: nat)
    requires |tab| == |byptr| && PointsIn(tab, byptr) && Within(homes, |tab|) && s.id != 0
    requires Chained(PtrCells(tab, byptr), homes.ptr)
    requires i < |tab| && tab[i].id == 0
    requires StopsAt(PtrCells(tab, byptr), homes.ptr, KeyOf(s), j) && byptr[j] == 0
    ensures PointsIn(tab[i := s], byptr[j := i + 1])
    ensures Chained(PtrCells(tab[i := s], byptr[j := i + 1]), homes.ptr)
    ensures Load(PtrCells(tab[i := s], byptr[j := i + 1])) == Load(PtrCells(tab, byptr)) + 1
  {
    StoreKeepsChains(PtrCells(tab, byptr), homes.ptr, KeyOf(s), j);
    assert PtrCells(tab[i := s], byptr[j := i + 1]) == PtrCells(tab, byptr)[j := Taken(KeyOf(s))];
  }

  lemma {:induction false} StillPointedAt(tab: seq<Slot>, byptr: seq<nat>, i: nat, s: Slot, j: nat)
    requires |tab| == |byptr| && i < |tab| && j < |byptr| && byptr[j] == 0
    requires AllPointedAt(tab, byptr)
    ensures AllPointedAt(tab[i := s], byptr[j := i + 1])
  {
    var tab', byptr' := tab[i := s], byptr[j := i + 1];
    forall k | 0 <= k < |tab'| && tab'[k].id != 0 ensures PointedAt(byptr', k) {
      if k == i {
        assert byptr'[j] == k + 1;
      } else {
        assert PointedAt(byptr, k);
        var at :| 0 <= at < |byptr| && byptr[at] == k + 1;
        assert byptr'[at] == k + 1;
      }
    }
  }

  /** Storing a slot where both probes stopped keeps both indexes sound. */
  lemma {:induction false} StoreKeepsIndexes(tab: seq<Slot>, byptr: seq<nat>, homes: Homes, i: nat, s: Slot, j: nat)
    requires Indexed(tab, byptr, homes) && Within(homes, |tab|) && s.id != 0
    requires StopsAt(IdCells(tab), homes.id, s.id, i) && tab[i].id == 0
    requires StopsAt(PtrCells(tab, byptr), homes.ptr, KeyOf(s), j) && byptr[j] == 0
    ensures Indexed(tab[i := s], byptr[j := i + 1], homes)
    ensures Load(IdCells(tab[i := s])) == Load(IdCells(tab)) + 1
    ensures LiveOf(tab[i := s]) == LiveOf(tab)[s.id := s]
    ensures s.id !in LiveOf(tab)
  {
    StoreInIds(tab, homes, i, s);
    StoreInPtrs(tab, byptr, homes, i, s, j);
    StillPointedAt(tab, byptr, i, s, j);
  }

  /** A probe for a (pointer, tag) that stopped on a free cell means no slot has it. */
  lemma {:induction false} NoEntryMeansNotFiled(tab: seq<Slot>, byptr: seq<nat>, homes: Homes, ptr: nat, tag: Tag,
                                                j: nat)
    requires Indexed(tab, byptr, homes) && Within(homes, |tab|) &&
             StopsAt(PtrCells(tab, byptr), homes.ptr, (ptr, tag), j) && byptr[j] == 0
    ensures forall id :: !FiledAs(LiveOf(tab), id, ptr, tag)
  {
    FreeMeansAbsent(PtrCells(tab, byptr), homes.ptr, (ptr, tag), j);
    forall k | 0 <= k < |tab| && tab[k].id != 0 ensures KeyOf(tab[k]) != (ptr, tag) {
      assert PointedAt(byptr, k);
      var at :| 0 <= at < |byptr| && byptr[at] == k + 1;
      assert PtrCells(tab, byptr)[at] == Taken(KeyOf(tab[k]));
    }
    forall id ensures !FiledAs(LiveOf(tab), id, ptr, tag) {
      LiveIffStored(tab, id);
    }
  }

  /** No two slots hold the same object. */
  lemma {:induction false} SlotsAreDistinctObjects(tab: seq<Slot>, byptr: seq<nat>, homes: Homes, a: nat, b: nat)
    requires Indexed(tab, byptr, homes) && a < |tab| && b < |tab| && tab[a].id != 0 && tab[b].id != 0
    requires KeyOf(tab[a]) == KeyOf(tab[b])
    ensures a == b
  {
    assert PointedAt(byptr, a) && PointedAt(byptr, b);
    var i :| 0 <= i < |byptr| && byptr[i] == a + 1;
    var j :| 0 <= j < |byptr| && byptr[j] == b + 1;
    assert Twins(PtrCells(tab, byptr), i, j);
  }

  /** Every filled slot names an object, under an id already issued. */
  ghost predicate Stamped(tab: seq<Slot>, nextSeq: nat) {
    forall i :: 0 <= i < |tab| && tab[i].id != 0 ==> tab[i].ptr != 0 && Seq(tab[i].id) < nextSeq
  }

  ghost function HomesOf(cap: nat): Homes { Homes(IdHome(cap), PtrHome(cap)) }

  lemma {:induction false} HomesAreWithin(cap: nat)
    requires cap > 0
    ensures Within(HomesOf(cap), cap)
  {
  }

  // ------------------------------------------------------------- the probes

  /** Where `id` is, or the free cell where it would go. */
  method SlotFor(tab: array<Slot>, ghost homes: Homes, id: nat) returns (i: nat)
    requires Chained(IdCells(tab[..]), homes.id) && Within(homes, tab.Length)
    requires Load(IdCells(tab[..])) < tab.Length
    requires id != 0 && homes.id(id) == Mix(id, tab.Length) && PowerOfTwo(tab.Length)
    ensures StopsAt(IdCells(tab[..]), homes.id, id, i)
  {
    hide And, PowerOfTwo;
    ghost var cells := IdCells(tab[..]);
    ghost var free := NotFullHasFree(cells);
    var start := Mix(id, tab.Length);
    i := start;
    while tab[i].id != 0 && tab[i].id != id
      invariant i < tab.Length && tab[free].id == 0
      invariant forall j :: 0 <= j < |cells| && InRun(start, j, i) ==> cells[j].Taken? && cells[j] != Taken(id)
      decreases Ahead(i, free, tab.Length)
    {
      MaskIsNext(i, tab.Length);
      i := And(i + 1, tab.Length - 1);
    }
  }

  /** The by-pointer entry for (p, tag): the one that points at its slot, or the free
      one where it would go. */
  method PtrFor(tab: array<Slot>, byptr: array<nat>, ghost homes: Homes, p: nat, tag: Tag) returns (i: nat)
    requires PointsIn(tab[..], byptr[..]) && Within(homes, byptr.Length)
    requires Load(PtrCells(tab[..], byptr[..])) < byptr.Length
    requires homes.ptr((p, tag)) == MixPtr(p, tag, byptr.Length) && PowerOfTwo(byptr.Length)
    ensures StopsAt(PtrCells(tab[..], byptr[..]), homes.ptr, (p, tag), i)
  {
    hide And, PowerOfTwo;
    ghost var cells := PtrCells(tab[..], byptr[..]);
    ghost var free := NotFullHasFree(cells);
    var start := MixPtr(p, tag, byptr.Length);
    i := start;
    while byptr[i] != 0
      invariant i < byptr.Length && byptr[free] == 0
      invariant forall j :: 0 <= j < |cells| && InRun(start, j, i) ==> cells[j].Taken? && cells[j] != Taken((p, tag))
      decreases Ahead(i, free, byptr.Length)
    {
      var s := tab[byptr[i] - 1];
      if s.ptr == p && s.tag == tag {
        break;
      }
      MaskIsNext(i, byptr.Length);
      i := And(i + 1, byptr.Length - 1);
    }
  }

  lemma {:induction false} AbsentIdStopsFree(tab: seq<Slot>, homes: Homes, id: nat, i: nat)
    requires id != 0 && id !in LiveOf(tab) && StopsAt(IdCells(tab), homes.id, id, i)
    ensures tab[i].id == 0
  {
    LiveIffStored(tab, id);
  }

  lemma {:induction false} UnfiledStopsFree(tab: seq<Slot>, byptr: seq<nat>, homes: Homes, ptr: nat, tag: Tag, j: nat)
    requires Indexed(tab, byptr, homes) && StopsAt(PtrCells(tab, byptr), homes.ptr, (ptr, tag), j)
    requires forall id :: !FiledAs(LiveOf(tab), id, ptr, tag)
    ensures byptr[j] == 0
  {
    assert byptr[j] != 0 ==> !FiledAs(LiveOf(tab), tab[byptr[j] - 1].id, ptr, tag);
    if byptr[j] != 0 {
      StoredIsLive(tab, homes, byptr[j] - 1);
    }
  }

  /** The by-pointer index does not see a slot that was free. */
  lemma {:induction false} FreeSlotIsUnseen(tab: seq<Slot>, byptr: seq<nat>, i: nat, s: Slot)
    requires PointsIn(tab, byptr) && i < |tab| && tab[i].id == 0 && s.id != 0
    ensures PointsIn(tab[i := s], byptr) && PtrCells(tab[i := s], byptr) == PtrCells(tab, byptr)
  {
  }

  /** File `s` in both indexes: it was in neither. */
  method Store(tab: array<Slot>, byptr: array<nat>, s: Slot, ghost homes: Homes) returns (i: nat)
    requires tab.Length == byptr.Length > 0 && homes == HomesOf(tab.Length) && PowerOfTwo(tab.Length)
    requires Indexed(tab[..], byptr[..], homes) && Load(IdCells(tab[..])) < tab.Length
    requires s.id != 0 && s.id !in LiveOf(tab[..])
    requires forall id :: !FiledAs(LiveOf(tab[..]), id, s.ptr, s.tag)
    modifies tab, byptr
    ensures Indexed(tab[..], byptr[..], homes)
    ensures LiveOf(tab[..]) == old(LiveOf(tab[..]))[s.id := s]
    ensures Load(IdCells(tab[..])) == old(Load(IdCells(tab[..]))) + 1
    ensures i < tab.Length && tab[..] == old(tab[..])[i := s]
  {
    ghost var was, wasPtr := tab[..], byptr[..];
    HomesAreWithin(tab.Length);
    i := SlotFor(tab, homes, s.id);
    AbsentIdStopsFree(was, homes, s.id, i);
    tab[i] := s;
    assert tab[..] == was[i := s];
    FreeSlotIsUnseen(was, wasPtr, i, s);
    var j := PtrFor(tab, byptr, homes, s.ptr, s.tag);
    UnfiledStopsFree(was, wasPtr, homes, s.ptr, s.tag, j);
    var entry: nat := i + 1;
    byptr[j] := entry;
    StoreKeepsIndexes(was, wasPtr, homes, i, s, j);
    assert tab[..] == was[i := s] && byptr[..] == wasPtr[j := entry];
  }

  // ------------------------------------------------- reading a table in order

  /** What the first slots of a table hold, one slot further on. */
  lemma {:induction false} PrefixLive(tab: seq<Slot>, homes: Homes, i: nat)
    requires i < |tab| && Chained(IdCells(tab), homes.id)
    ensures LiveOf(tab[..i + 1]) == if tab[i].id == 0 then LiveOf(tab[..i]) else LiveOf(tab[..i])[tab[i].id := tab[i]]
    ensures Load(IdCells(tab[..i + 1])) == Load(IdCells(tab[..i])) + (if tab[i].id == 0 then 0 else 1)
    ensures tab[i].id != 0 ==>
            tab[i].id !in LiveOf(tab[..i]) && tab[i].id in LiveOf(tab) && LiveOf(tab)[tab[i].id] == tab[i]
  {
    assert tab[..i + 1][..i] == tab[..i];
    LoadOfLonger(IdCells(tab[..i + 1]));
    assert IdCells(tab[..i + 1])[..i] == IdCells(tab[..i]);
    if tab[i].id != 0 {
      StoredIsLive(tab, homes, i);
      LiveIffStored(tab[..i], tab[i].id);
      forall k | 0 <= k < i ensures IdCells(tab[..i])[k] != Taken(tab[i].id) {
        assert !Twins(IdCells(tab), i, k);
      }
    }
  }

  lemma {:induction false} PrefixLoad(tab: seq<Slot>, i: nat)
    requires i <= |tab|
    ensures Load(IdCells(tab[..i])) <= Load(IdCells(tab))
  {
    assert IdCells(tab)[..i] == IdCells(tab[..i]);
    LoadOfPrefix(IdCells(tab), i);
  }

  /** The slots met so far are some of the table's. */
  lemma {:induction false} PrefixIsPart(tab: seq<Slot>, homes: Homes, i: nat, id: nat)
    requires i <= |tab| && Chained(IdCells(tab), homes.id) && id in LiveOf(tab[..i])
    ensures id in LiveOf(tab) && LiveOf(tab)[id] == LiveOf(tab[..i])[id]
    ensures exists k :: 0 <= k < i && tab[k] == LiveOf(tab)[id] && tab[k].id == id != 0
  {
    LiveIffStored(tab[..i], id);
    var k :| 0 <= k < i && tab[..i][k] == LiveOf(tab[..i])[id];
    StoredIsLive(tab, homes, k);
  }

  /** One more slot dropped, one more release if it owes one. */
  lemma {:induction false} OneMoreDropped(live: Live, ids: set<nat>, id: nat)
    requires id in live && id !in ids && (forall x | x in live :: live[x].id == x)
    ensures multiset(Adopted(live, ids + {id})) ==
            multiset(Adopted(live, ids)) + (if live[id].release != 0 then multiset{live[id]} else multiset{})
  {
    var before := Adopted(live, ids);
    assert live[id] !in before;
    assert Adopted(live, ids + {id}) == before + (if live[id].release != 0 then {live[id]} else {});
  }

  // -------------------------------------------------------------- the table

  /** Which slots a rebuild keeps. */
  datatype Keep = KeepAll | KeepNot(id: nat) | KeepOutside(o: nat) | KeepOutsideOrSelf(o: nat)

  ghost predicate Keeps(live: Live, keep: Keep, id: nat) {
    match keep
    case KeepAll => true
    case KeepNot(x) => id != x
    case KeepOutside(o) => !Under(live, id, o, WALK)
    case KeepOutsideOrSelf(o) => id == o || !Under(live, id, o, WALK)
  }

  ghost function DroppedBy(live: Live, keep: Keep): set<nat> {
    set id | id in live && !Keeps(live, keep, id)
  }

  class Table {
    var tab: array<Slot>
    var byptr: array<nat>
    var cap: nat
    var used: nat
    var nextSeq: nat
    var nextRoot: nat
    var freed: seq<Slot>    // the releases run, in order

    ghost predicate Valid()
      reads this, tab, byptr
    {
      && tab.Length == byptr.Length == cap
      && Indexed(tab[..], byptr[..], HomesOf(cap))
      && used == Load(IdCells(tab[..]))
      && used * 4 <= cap * 3 && (cap > 0 ==> used * 4 < cap * 3 && PowerOfTwo(cap))
      && Stamped(tab[..], nextSeq)
      && 0 < nextSeq
    }

    /** What the table means. */
    ghost function Abs(): State
      reads this, tab, byptr
    {
      State(LiveOf(tab[..]), nextSeq, nextRoot, multiset(freed))
    }

    constructor ()
      ensures Valid() && Abs() == Initial
      ensures fresh(tab) && fresh(byptr)
    {
      tab, byptr := new Slot[0], new nat[0];
      cap, used, nextSeq, nextRoot, freed := 0, 0, 1, 1, [];
    }

    /** The position of `id`, -1 when nothing live has it. */
    method Find(id: nat) returns (i: int)
      requires Valid()
      ensures i >= 0 <==> id in Abs().live
      ensures i >= 0 ==> i < cap && tab[i].id == id != 0 && Abs().live[id] == tab[i]
    {
      LiveIffStored(tab[..], id);
      if id == 0 || cap == 0 {
        return -1;
      }
      HomesAreWithin(cap);
      i := SlotFor(tab, HomesOf(cap), id);
      if tab[i].id == id {
        StoredIsLive(tab[..], HomesOf(cap), i);
      } else {
        FreeMeansAbsent(IdCells(tab[..]), HomesOf(cap).id, id, i);
        i := -1;
      }
    }

    /** The position of (p, tag), -1 when it is not filed. */
    method FindPtr(p: nat, tag: Tag) returns (i: int)
      requires Valid()
      ensures i >= 0 ==>
              i < cap && tab[i].id != 0 && tab[i].id == Lookup(Abs().live, p, tag) && Abs().live[tab[i].id] == tab[i]
      ensures i < 0 ==> Lookup(Abs().live, p, tag) == 0
    {
      if p == 0 || cap == 0 {
        return -1;
      }
      HomesAreWithin(cap);
      var j := PtrFor(tab, byptr, HomesOf(cap), p, tag);
      if byptr[j] != 0 {
        i := byptr[j] - 1;
        StoredIsLive(tab[..], HomesOf(cap), i);
        OnlyPlaceFiled(tab[..], byptr[..], HomesOf(cap), i);
      } else {
        NoEntryMeansNotFiled(tab[..], byptr[..], HomesOf(cap), p, tag, j);
        i := -1;
      }
    }

    /** Is `id` `o` itself, or somewhere below it, eight owners up? */
    method IsUnder(id: nat, o: nat) returns (yes: bool)
      requires Valid()
      ensures yes == Under(Abs().live, id, o, WALK)
    {
      var at: nat, depth := id, 0;
      while at != 0 && depth < WALK
        invariant depth <= WALK
        invariant Under(Abs().live, id, o, WALK) == Under(Abs().live, at, o, WALK - depth)
        decreases WALK - depth
      {
        if at == o {
          return true;
        }
        var i := Find(at);
        at := if i >= 0 then tab[i].owner else 0;
        depth := depth + 1;
      }
      return false;
    }

    /** The nearest object of `tag` at or above `id`, or the top of its chain. */
    method AncestorOf(id: nat, tag: Tag) returns (a: nat)
      requires Valid()
      ensures a == Ancestor(Abs().live, id, tag)
    {
      a := id;
      var at: nat, depth := id, 0;
      while at != 0 && depth < WALK
        invariant depth <= WALK
        invariant Ancestor(Abs().live, id, tag) == Climb(Abs().live, at, a, tag, WALK - depth)
        decreases WALK - depth
      {
        var i := Find(at);
        if i < 0 {
          return;
        }
        if tag != NoTag && tab[i].tag == tag {
          return at;
        }
        a, at, depth := at, tab[i].owner, depth + 1;
      }
    }

    method Get(id: nat, tag: Tag) returns (p: nat)
      requires Valid()
      ensures p == if id in Abs().live && Abs().live[id].tag == tag then Abs().live[id].ptr else 0
    {
      var i := Find(id);
      p := if i >= 0 && tab[i].tag == tag then tab[i].ptr else 0;
    }

    method IsKept(keep: Keep, s: Slot) returns (yes: bool)
      requires Valid()
      ensures yes == Keeps(Abs().live, keep, s.id)
    {
      match keep
      case KeepAll => return true;
      case KeepNot(x) => return s.id != x;
      case KeepOutside(o) => yes := IsUnder(s.id, o); yes := !yes;
      case KeepOutsideOrSelf(o) => yes := IsUnder(s.id, o); yes := s.id == o || !yes;
    }

    /** Build both indexes again at `ncap`, with the slots `keep` accepts. */
    method Rebuild(ncap: nat, keep: Keep)
      requires Valid() && used * 4 < ncap * 3 && PowerOfTwo(ncap)
      modifies this
      ensures Valid() && fresh(tab) && fresh(byptr) && cap == ncap
      ensures used <= old(used)
      ensures Abs() == Without(old(Abs()), DroppedBy(old(Abs().live), keep))
      ensures old(freed) <= freed
    {
      var nt := new Slot[ncap](_ => NoSlot);
      var np := new nat[ncap](_ => 0);
      hide Moved, Indexed, Stamped, Load, LiveOf, Adopted, PowerOfTwo;
      ghost var all, homes := tab[..], HomesOf(ncap);
      ghost var dropped := DroppedBy(LiveOf(all), keep);
      var released: seq<Slot> := [];
      var kept := 0;
      NothingMoved(all, dropped, nt[..], np[..], homes, nextSeq);
      var i := 0;
      while i < cap
        modifies nt, np
        invariant i <= cap && kept == Load(IdCells(nt[..]))
        invariant Moved(tab[..i], LiveOf(tab[..]), dropped, nt[..], np[..], homes, nextSeq, released)
      {
        kept, released := MoveSlot(nt, np, i, keep, kept, released);
        i := i + 1;
      }
      AllMoved(all, dropped, nt[..], np[..], homes, nextSeq, released, freed);
      Install(nt, np, ncap, kept, released);
    }

    /** Slot `i` into the new indexes, if it is kept; otherwise its release. */
    method MoveSlot(nt: array<Slot>, np: array<nat>, i: nat, keep: Keep, kept: nat, released: seq<Slot>)
      returns (kept': nat, released': seq<Slot>)
      requires Valid() && i < cap && nt != tab && np != byptr
      requires nt.Length == np.Length && used < nt.Length && PowerOfTwo(nt.Length) && kept == Load(IdCells(nt[..]))
      requires Moved(tab[..i], LiveOf(tab[..]), DroppedBy(LiveOf(tab[..]), keep), nt[..], np[..],
                     HomesOf(nt.Length), nextSeq, released)
      modifies nt, np
      ensures kept' == Load(IdCells(nt[..]))
      ensures Moved(tab[..i + 1], LiveOf(tab[..]), DroppedBy(LiveOf(tab[..]), keep), nt[..], np[..],
                    HomesOf(nt.Length), nextSeq, released')
    {
      ghost var all, wasPtr, homes, ntWas := tab[..], byptr[..], HomesOf(nt.Length), nt[..];
      ghost var dropped := DroppedBy(LiveOf(all), keep);
      kept', released' := kept, released;
      var s := tab[i];
      if s.id == 0 {
        SkipOne(all, HomesOf(cap), dropped, i, nt[..], np[..], homes, nextSeq, released);
        return;
      }
      PrefixLive(all, HomesOf(cap), i);
      PrefixLoad(all, i + 1);
      var yes := IsKept(keep, s);
      if yes {
        NotMetBefore(all, wasPtr, HomesOf(cap), i, LiveOf(ntWas));
        var at := Store(nt, np, s, homes);
        KeepOneMore(all, HomesOf(cap), dropped, i, ntWas, nt[..], np[..], homes, nextSeq, released, at);
        kept' := kept + 1;
      } else {
        DropOneMore(all, HomesOf(cap), dropped, i, nt[..], np[..], homes, nextSeq, released);
        if s.release != 0 {
          released' := released + [s];
        }
      }
    }

    /** Put the rebuilt indexes in place of the old ones. */
    method Install(nt: array<Slot>, np: array<nat>, ncap: nat, kept: nat, released: seq<Slot>)
      requires nt.Length == np.Length == ncap && Indexed(nt[..], np[..], HomesOf(ncap)) && Stamped(nt[..], nextSeq)
      requires kept == Load(IdCells(nt[..])) && kept * 4 < ncap * 3 && PowerOfTwo(ncap) && 0 < nextSeq
      modifies this
      ensures tab == nt && byptr == np && cap == ncap && used == kept && freed == old(freed) + released
      ensures nextSeq == old(nextSeq) && nextRoot == old(nextRoot) && Valid()
    {
      freed := freed + released;
      tab, byptr, cap, used := nt, np, ncap, kept;
    }

    /** One slot's owner and release, changed in place. */
    method Amend(i: nat, owner: nat, release: nat)
      requires Valid() && i < cap && tab[i].id != 0
      modifies tab
      ensures Valid()
      ensures Abs() ==
              old(Abs()).(live := old(Abs().live)[tab[i].id := old(tab[i]).(owner := owner, release := release)])
      ensures tab[i].id == old(tab[i]).id
    {
      ghost var was := tab[..];
      ghost var s := tab[i].(owner := owner, release := release);
      tab[i] := tab[i].(owner := owner, release := release);
      AmendKeepsIndexes(was, byptr[..], HomesOf(cap), i, s);
      assert tab[..] == was[i := s];
    }

    /** File an object, or find it filed. */
    method HandlePut(ptr: nat, tag: Tag, owner: nat) returns (id: nat)
      requires Valid() && nextSeq < SEQ_LIMIT
      modifies this, tab, byptr
      ensures Valid() && (tab == old(tab) || fresh(tab)) && (byptr == old(byptr) || fresh(byptr))
      ensures (Abs(), id) == PutResult(old(Abs()), ptr, tag, owner) && freed == old(freed)
    {
      if ptr == 0 {
        return 0;
      }
      var have := FindPtr(ptr, tag);
      if have >= 0 {
        id := Refile(have, owner);
      } else {
        id := FileObject(ptr, tag, owner);
      }
    }

    /** Seen before: the same id, under a closer owner if this is one. */
    method Refile(have: nat, owner: nat) returns (id: nat)
      requires Valid() && have < cap && tab[have].id != 0
      requires tab[have].id in Abs().live && Abs().live[tab[have].id] == tab[have]
      modifies tab
      ensures Valid() && id == old(tab[have].id)
      ensures var was := old(tab[have]);
              Abs() == if owner != 0 && owner != was.owner && Under(old(Abs().live), owner, was.owner, WALK)
                       then old(Abs()).(live := old(Abs().live)[id := was.(owner := owner)]) else old(Abs())
    {
      id := tab[have].id;
      if owner != 0 && owner != tab[have].owner {
        var closer := IsUnder(owner, tab[have].owner);
        if closer {
          Amend(have, owner, tab[have].release);
        }
      }
    }

    /** Not seen before: the next id, with its owner's root. */
    method FileObject(ptr: nat, tag: Tag, owner: nat) returns (id: nat)
      requires Valid() && nextSeq < SEQ_LIMIT && ptr != 0 && Lookup(Abs().live, ptr, tag) == 0
      modifies this, tab, byptr
      ensures Valid() && (tab == old(tab) || fresh(tab)) && (byptr == old(byptr) || fresh(byptr))
      ensures (Abs(), id) == PutResult(old(Abs()), ptr, tag, owner) && freed == old(freed)
    {
      hide LiveOf, Indexed;
      if (used + 1) * 4 >= cap * 3 {
        Grow();
      }
      var root := if owner != 0 then Root(owner) else if tag == Handle then nextRoot else 0;
      id := MakeId(root, nextSeq);
      FileNew(Slot(id, ptr, owner, tag, 0));
      if owner == 0 && tag == Handle {
        nextRoot := nextRoot + 1;
      }
    }

    /** Twice the room, or the first room; nothing is dropped and nothing released. */
    method Grow()
      requires Valid() && (used + 1) * 4 >= cap * 3
      modifies this
      ensures Valid() && fresh(tab) && fresh(byptr) && Abs() == old(Abs()) && freed == old(freed)
      ensures (used + 1) * 4 < cap * 3
    {
      KeepingAllChangesNothing(Abs());
      GrowsByPowers(cap);
      hide Indexed, Stamped, LiveOf, Load, Without, DroppedBy, PowerOfTwo;
      Rebuild(if cap == 0 then 256 else cap * 2, KeepAll);
      NothingAppended(old(freed), freed);
    }

    /** A slot with the next sequence number, for an object that is not filed. */
    method FileNew(s: Slot)
      requires Valid() && (used + 1) * 4 < cap * 3
      requires s.ptr != 0 && Seq(s.id) == nextSeq && Lookup(Abs().live, s.ptr, s.tag) == 0
      modifies this`used, this`nextSeq, tab, byptr
      ensures Valid() && Abs() == old(Abs()).(live := old(Abs().live)[s.id := s], nextSeq := old(nextSeq) + 1)
    {
      ghost var was := tab[..];
      NextIsNew(was, HomesOf(cap), nextSeq, s);
      StampedNext(was, nextSeq, s);
      hide Lookup, FiledAs, PowerOfTwo, Indexed, LiveOf, Load, Stamped;
      var i := Store(tab, byptr, s, HomesOf(cap));
      used := used + 1;
      nextSeq := nextSeq + 1;
    }

    method HandleAdopt(ptr: nat, owner: nat, release: nat) returns (id: nat)
      requires Valid() && nextSeq < SEQ_LIMIT
      modifies this, tab, byptr
      ensures Valid() && (tab == old(tab) || fresh(tab)) && (byptr == old(byptr) || fresh(byptr))
      ensures (Abs(), id) == AdoptResult(old(Abs()), ptr, owner, release) && freed == old(freed)
      ensures ptr != 0 ==> FiledAs(Abs().live, id, ptr, NoTag) && Abs().live[id].release == release
    {
      hide Indexed, Stamped, Load, LiveOf, Under, FreshId, PowerOfTwo;
      id := HandlePut(ptr, NoTag, owner);
      var i := Find(id);
      if i >= 0 {
        Amend(i, tab[i].owner, release);
      }
    }

    /** A rebuild at the same size, which is how anything is dropped. */
    method DropMatching(keep: Keep)
      requires Valid()
      modifies this
      ensures Valid() && (tab == old(tab) || fresh(tab)) && (byptr == old(byptr) || fresh(byptr))
      ensures Abs() == Without(old(Abs()), DroppedBy(old(Abs().live), keep))
      ensures old(freed) <= freed
    {
      if cap > 0 {
        Rebuild(cap, keep);
      } else {
        EmptyIsIndexed(tab[..], byptr[..], HomesOf(cap));
        assert Adopted(map[], {}) == {};
      }
    }

    method HandleDrop(id: nat)
      requires Valid()
      modifies this
      ensures Valid() && (tab == old(tab) || fresh(tab)) && (byptr == old(byptr) || fresh(byptr))
      ensures Abs() == Step(old(Abs()), Drop(id))
    {
      DropIsRebuild(Abs(), id);
      var i := Find(id);
      if i >= 0 {
        DropMatching(KeepNot(id));
      }
    }

    method HandleDropOwner(o: nat)
      requires Valid()
      modifies this
      ensures Valid() && (tab == old(tab) || fresh(tab)) && (byptr == old(byptr) || fresh(byptr))
      ensures Abs() == Step(old(Abs()), DropOwner(o))
    {
      DropOwnerIsRebuild(Abs(), o);
      if o != 0 {
        DropMatching(KeepOutside(o));
      }
    }

    method HandleDropUnder(o: nat)
      requires Valid()
      modifies this
      ensures Valid() && (tab == old(tab) || fresh(tab)) && (byptr == old(byptr) || fresh(byptr))
      ensures Abs() == Step(old(Abs()), DropUnder(o))
    {
      DropUnderIsRebuild(Abs(), o);
      if o != 0 {
        DropMatching(KeepOutsideOrSelf(o));
      }
    }

    method HandleDropPtr(ptr: nat, tag: Tag)
      requires Valid()
      modifies this
      ensures Valid() && (tab == old(tab) || fresh(tab)) && (byptr == old(byptr) || fresh(byptr))
      ensures Abs() == Step(old(Abs()), DropPtr(ptr, tag))
    {
      var i := FindPtr(ptr, tag);
      DropOwnerIsRebuild(Abs(), 0);
      if i >= 0 {
        HandleDropOwner(tab[i].id);
      }
    }

    /** Release what is still adopted, and start over; sequence numbers do not. */
    method HandleReset()
      requires Valid()
      modifies this
      ensures Valid() && fresh(tab) && fresh(byptr) && Abs() == Step(old(Abs()), Reset)
    {
      EverythingGone(Abs());
      hide Step, Adopted, PowerOfTwo;
      var released := ReleaseAll();
      freed := freed + released;
      tab, byptr, cap, used := new Slot[0], new nat[0], 0, 0;
      EmptyIsIndexed(tab[..], byptr[..], HomesOf(cap));
    }

    /** The adopted slots, in table order, as their releases run. */
    method ReleaseAll() returns (released: seq<Slot>)
      requires Valid()
      ensures multiset(released) == multiset(Adopted(Abs().live, Abs().live.Keys))
    {
      released := [];
      ghost var all := tab[..];
      ghost var live := LiveOf(all);
      assert all[..0] == [] && Adopted(live, {}) == {};
      var i := 0;
      while i < cap
        invariant i <= cap
        invariant multiset(released) == multiset(Adopted(live, live.Keys * LiveOf(all[..i]).Keys))
      {
        PrefixLive(all, HomesOf(cap), i);
        if tab[i].id != 0 {
          MetOneMore(all, HomesOf(cap), live.Keys, i);
          if tab[i].release != 0 {
            released := released + [tab[i]];
          }
        }
        i := i + 1;
      }
      assert all[..cap] == all && live.Keys * live.Keys == live.Keys;
    }
  }

  /** The new indexes hold the slots met so far, less the dropped ones, whose releases
      have run. */
  ghost predicate Moved(met: seq<Slot>, live: Live, dropped: set<nat>, nt: seq<Slot>, np: seq<nat>, homes: Homes,
                        nextSeq: nat, released: seq<Slot>) {
    && Indexed(nt, np, homes) && Stamped(nt, nextSeq)
    && Load(IdCells(nt)) <= Load(IdCells(met))
    && LiveOf(nt) == LiveOf(met) - dropped
    && multiset(released) == multiset(Adopted(live, dropped * LiveOf(met).Keys))
  }

  lemma {:induction false} NothingMoved(tab: seq<Slot>, dropped: set<nat>, nt: seq<Slot>, np: seq<nat>, homes: Homes,
                                        nextSeq: nat)
    requires |nt| == |np| && (forall i :: 0 <= i < |nt| ==> nt[i] == NoSlot) &&
             (forall j :: 0 <= j < |np| ==> np[j] == 0)
    ensures Moved(tab[..0], LiveOf(tab), dropped, nt, np, homes, nextSeq, []) && Load(IdCells(nt)) == 0
  {
    EmptyIsIndexed(nt, np, homes);
    assert tab[..0] == [];
  }

  lemma {:induction false} AllMoved(tab: seq<Slot>, dropped: set<nat>, nt: seq<Slot>, np: seq<nat>, homes: Homes,
                                    nextSeq: nat, released: seq<Slot>, freed: seq<Slot>)
    requires Moved(tab[..|tab|], LiveOf(tab), dropped, nt, np, homes, nextSeq, released) && dropped <= LiveOf(tab).Keys
    ensures Indexed(nt, np, homes) && Stamped(nt, nextSeq) && Load(IdCells(nt)) <= Load(IdCells(tab))
    ensures LiveOf(nt) == LiveOf(tab) - dropped
    ensures multiset(freed + released) == multiset(freed) + multiset(Adopted(LiveOf(tab), dropped))
  {
    assert tab[..|tab|] == tab;
    assert dropped * LiveOf(tab).Keys == dropped;
  }

  lemma {:induction false} KeepOneMore(tab: seq<Slot>, from: Homes, dropped: set<nat>, i: nat, ntWas: seq<Slot>,
                                       nt: seq<Slot>, np: seq<nat>, homes: Homes, nextSeq: nat, released: seq<Slot>,
                                         at: nat)
    requires i < |tab| && Chained(IdCells(tab), from.id) && tab[i].id != 0 && tab[i].id !in dropped &&
             Stamped(tab, nextSeq)
    requires at < |ntWas| && nt == ntWas[at := tab[i]] && Stamped(ntWas, nextSeq) && Indexed(nt, np, homes)
    requires LiveOf(ntWas) == LiveOf(tab[..i]) - dropped && LiveOf(nt) == LiveOf(ntWas)[tab[i].id := tab[i]]
    requires Load(IdCells(nt)) == Load(IdCells(ntWas)) + 1 <= Load(IdCells(tab[..i])) + 1
    requires multiset(released) == multiset(Adopted(LiveOf(tab), dropped * LiveOf(tab[..i]).Keys))
    ensures Moved(tab[..i + 1], LiveOf(tab), dropped, nt, np, homes, nextSeq, released)
  {
    PrefixLive(tab, from, i);
    MetOneMore(tab, from, dropped, i);
  }

  lemma {:induction false} SkipOne(tab: seq<Slot>, from: Homes, dropped: set<nat>, i: nat,
                                   nt: seq<Slot>, np: seq<nat>, homes: Homes, nextSeq: nat, released: seq<Slot>)
    requires i < |tab| && Chained(IdCells(tab), from.id) && tab[i].id == 0
    requires Moved(tab[..i], LiveOf(tab), dropped, nt, np, homes, nextSeq, released)
    ensures Moved(tab[..i + 1], LiveOf(tab), dropped, nt, np, homes, nextSeq, released)
  {
    PrefixLive(tab, from, i);
  }

  lemma {:induction false} DropOneMore(tab: seq<Slot>, from: Homes, dropped: set<nat>, i: nat,
                                       nt: seq<Slot>, np: seq<nat>, homes: Homes, nextSeq: nat, released: seq<Slot>)
    requires i < |tab| && Chained(IdCells(tab), from.id) && tab[i].id != 0 && tab[i].id in dropped
    requires Moved(tab[..i], LiveOf(tab), dropped, nt, np, homes, nextSeq, released)
    ensures Moved(tab[..i + 1], LiveOf(tab), dropped, nt, np, homes, nextSeq,
                  if tab[i].release != 0 then released + [tab[i]] else released)
  {
    PrefixLive(tab, from, i);
    MetOneMore(tab, from, dropped, i);
  }

  /** Moving past one filled slot: either it is one more to keep, or one more dropped,
      with its release if it owes one. */
  lemma {:induction false} MetOneMore(tab: seq<Slot>, homes: Homes, dropped: set<nat>, i: nat)
    requires Chained(IdCells(tab), homes.id) && i < |tab| && tab[i].id != 0
    ensures var live, s := LiveOf(tab), tab[i];
            var before, after := dropped * LiveOf(tab[..i]).Keys, dropped * LiveOf(tab[..i + 1]).Keys;
            multiset(Adopted(live, after)) ==
            multiset(Adopted(live, before)) + (if s.id in dropped && s.release != 0 then multiset{s} else multiset{})
    ensures LiveOf(tab[..i + 1]) - dropped ==
            if tab[i].id in dropped then LiveOf(tab[..i]) - dropped
              else (LiveOf(tab[..i]) - dropped)[tab[i].id := tab[i]]
  {
    PrefixLive(tab, homes, i);
    SlotsCarryTheirIds(tab, homes);
    var id := tab[i].id;
    var before, after := dropped * LiveOf(tab[..i]).Keys, dropped * LiveOf(tab[..i + 1]).Keys;
    if id in dropped {
      OneMoreDropped(LiveOf(tab), before, id);
      assert after == before + {id};
    } else {
      assert after == before;
    }
  }

  lemma {:induction false} EmptyIsIndexed(tab: seq<Slot>, byptr: seq<nat>, homes: Homes)
    requires |tab| == |byptr| && (forall i :: 0 <= i < |tab| ==> tab[i] == NoSlot) &&
             (forall j :: 0 <= j < |byptr| ==> byptr[j] == 0)
    ensures Indexed(tab, byptr, homes) && Load(IdCells(tab)) == 0 && LiveOf(tab) == map[]
  {
    LoadOfFree(IdCells(tab));
    LoadOfFree(PtrCells(tab, byptr));
    forall id ensures id !in LiveOf(tab) {
      LiveIffStored(tab, id);
    }
  }

  lemma {:induction false} SlotsCarryTheirIds(tab: seq<Slot>, homes: Homes)
    ensures forall id | id in LiveOf(tab) :: LiveOf(tab)[id].id == id
  {
    forall id | id in LiveOf(tab) ensures LiveOf(tab)[id].id == id {
      LiveIffStored(tab, id);
    }
  }

  /** A slot about to be moved is the first of its id and of its object. */
  lemma {:induction false} NotMetBefore(tab: seq<Slot>, byptr: seq<nat>, homes: Homes, i: nat, moved: Live)
    requires Indexed(tab, byptr, homes) && i < |tab| && tab[i].id != 0
    requires moved.Keys <= LiveOf(tab[..i]).Keys && forall id | id in moved :: moved[id] == LiveOf(tab[..i])[id]
    ensures tab[i].id !in moved
    ensures forall id :: !FiledAs(moved, id, tab[i].ptr, tab[i].tag)
  {
    PrefixLive(tab, homes, i);
    forall id | id in moved ensures !FiledAs(moved, id, tab[i].ptr, tab[i].tag) {
      PrefixIsPart(tab, homes, i, id);
      var k :| 0 <= k < i && tab[k] == LiveOf(tab)[id] && tab[k].id == id != 0;
      if KeyOf(tab[k]) == KeyOf(tab[i]) {
        SlotsAreDistinctObjects(tab, byptr, homes, k, i);
      }
    }
  }

  /** The slot found by pointer is the only one a search of the whole table could find. */
  lemma {:induction false} OnlyPlaceFiled(tab: seq<Slot>, byptr: seq<nat>, homes: Homes, i: nat)
    requires Indexed(tab, byptr, homes) && i < |tab| && tab[i].id != 0 && tab[i].ptr != 0
    ensures Lookup(LiveOf(tab), tab[i].ptr, tab[i].tag) == tab[i].id
  {
    StoredIsLive(tab, homes, i);
    assert FiledAs(LiveOf(tab), tab[i].id, tab[i].ptr, tab[i].tag);
    var id := Lookup(LiveOf(tab), tab[i].ptr, tab[i].tag);
    LiveIffStored(tab, id);
    var k :| 0 <= k < |tab| && tab[k] == LiveOf(tab)[id];
    SlotsAreDistinctObjects(tab, byptr, homes, i, k);
  }

  // Each drop is a rebuild, except that one that could drop nothing is skipped.

  lemma {:induction false} DropIsRebuild(st: State, id: nat)
    ensures Step(st, Drop(id)) == Without(st, DroppedBy(st.live, KeepNot(id)))
    ensures id !in st.live ==> Step(st, Drop(id)) == st
  {
    assert DroppedBy(st.live, KeepNot(id)) == {id} * st.live.Keys;
    assert Adopted(st.live, {}) == {};
  }

  lemma {:induction false} DropOwnerIsRebuild(st: State, o: nat)
    ensures Step(st, DropOwner(o)) == Without(st, DroppedBy(st.live, KeepOutside(o)))
    ensures o == 0 ==> Step(st, DropOwner(o)) == st
  {
    assert DroppedBy(st.live, KeepOutside(o)) == Subtree(st.live, o);
    NobodyHasNoSubtree(st.live);
  }

  lemma {:induction false} DropUnderIsRebuild(st: State, o: nat)
    ensures Step(st, DropUnder(o)) == Without(st, DroppedBy(st.live, KeepOutsideOrSelf(o)))
    ensures o == 0 ==> Step(st, DropUnder(o)) == st
  {
    assert DroppedBy(st.live, KeepOutsideOrSelf(o)) == Subtree(st.live, o) - {o};
    NobodyHasNoSubtree(st.live);
  }

  /** A log that grew to the same log did not grow. */
  lemma {:induction false} GrowsByPowers(cap: nat)
    requires cap == 0 || PowerOfTwo(cap)
    ensures PowerOfTwo(if cap == 0 then 256 else cap * 2)
  {
    assert PowerOfTwo(2) && PowerOfTwo(4) && PowerOfTwo(16) && PowerOfTwo(64) && PowerOfTwo(256);
  }

  lemma {:induction false} NothingAppended(was: seq<Slot>, now: seq<Slot>)
    requires was <= now && multiset(now) == multiset(was)
    ensures now == was
  {
    assert |multiset(now)| == |now| && |multiset(was)| == |was|;
  }

  lemma {:induction false} KeepingAllChangesNothing(st: State)
    ensures Without(st, DroppedBy(st.live, KeepAll)) == st
  {
    assert DroppedBy(st.live, KeepAll) == {};
    assert Adopted(st.live, {}) == {};
  }

  lemma {:induction false} EverythingGone(st: State)
    ensures Step(st, Reset) ==
            State(map[], st.nextSeq, st.nextRoot, st.freed + multiset(Adopted(st.live, st.live.Keys)))
  {
    assert st.live - st.live.Keys == map[];
  }

  lemma {:induction false} NobodyHasNoSubtree(live: Live)
    ensures Subtree(live, 0) == {} && Subtree(live, 0) - {0} == {} && Adopted(live, {}) == {}
  {
    forall id | id in live ensures !Under(live, id, 0, WALK) {
      NobodyOwns(live, id, WALK);
    }
  }

  /** The next sequence number is in no id the table holds, so the new one is new. */
  lemma {:induction false} NextIsNew(tab: seq<Slot>, homes: Homes, nextSeq: nat, s: Slot)
    requires Stamped(tab, nextSeq) && Seq(s.id) == nextSeq && 0 < nextSeq
    requires s.ptr != 0 && Lookup(LiveOf(tab), s.ptr, s.tag) == 0
    ensures s.id != 0 && s.id !in LiveOf(tab)
    ensures forall id :: !FiledAs(LiveOf(tab), id, s.ptr, s.tag)
  {
    LiveIffStored(tab, s.id);
    forall id ensures !FiledAs(LiveOf(tab), id, s.ptr, s.tag) {
      LiveIffStored(tab, id);
    }
  }

  lemma {:induction false} StampedNext(tab: seq<Slot>, nextSeq: nat, s: Slot)
    requires Stamped(tab, nextSeq) && Seq(s.id) == nextSeq && s.ptr != 0
    ensures forall i {:trigger tab[i := s]} :: 0 <= i < |tab| ==> Stamped(tab[i := s], nextSeq + 1)
  {
  }

  /** A slot's owner and release are in no index. */
  lemma {:induction false} AmendKeepsIndexes(tab: seq<Slot>, byptr: seq<nat>, homes: Homes, i: nat, s: Slot)
    requires Indexed(tab, byptr, homes) && i < |tab| && tab[i].id != 0
    requires s == tab[i].(owner := s.owner, release := s.release)
    ensures Indexed(tab[i := s], byptr, homes)
    ensures LiveOf(tab[i := s]) == LiveOf(tab)[s.id := s] && Load(IdCells(tab[i := s])) == Load(IdCells(tab))
  {
    assert IdCells(tab[i := s]) == IdCells(tab);
    assert PtrCells(tab[i := s], byptr) == PtrCells(tab, byptr);
    forall k | 0 <= k < |tab| && tab[i := s][k].id != 0 ensures PointedAt(byptr, k) {
      assert tab[k].id != 0;
    }
    forall k | 0 <= k < |tab| && k != i ensures tab[k].id != s.id {
      assert !Twins(IdCells(tab), i, k);
    }
    LiveOfUpdate(tab, i, s);
  }
}
