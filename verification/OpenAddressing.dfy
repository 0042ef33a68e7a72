/** Linear probing, as both indexes of the handle table use it: what a table must
    look like for a probe to be trusted, and what storing a key does to it.
    A cell's contents and its hash are left to the caller. */
module OpenAddressing {
  datatype Cell<+K> = Free | Taken(key: K)

  /** Does a probe that starts at `h` pass over `j` before it reaches `i`? */
  predicate InRun(h: int, j: int, i: int) {
    if h <= i then h <= j < i else h <= j || j < i
  }

  /** Do two cells hold the same key? */
  ghost predicate Twins<K(!new)>(cells: seq<Cell<K>>, i: int, j: int)
    requires 0 <= i < |cells| && 0 <= j < |cells|
  {
    cells[i].Taken? && cells[i] == cells[j]
  }

  /** Is `j` taken, if a probe for what is at `i` passes over it? */
  ghost predicate Bridged<K(!new)>(cells: seq<Cell<K>>, home: K -> nat, j: int, i: int)
    requires 0 <= i < |cells| && 0 <= j < |cells|
  {
    cells[i].Taken? && InRun(home(cells[i].key), j, i) ==> cells[j].Taken?
  }

  /** Every stored key can be reached from its home without crossing a free cell,
      and no key is stored twice. */
  ghost predicate Chained<K(!new)>(cells: seq<Cell<K>>, home: K -> nat) {
    && (forall i, j {:trigger Bridged(cells, home, j, i)} | 0 <= i < |cells| &&
      0 <= j < |cells| :: Bridged(cells, home, j, i))
    && (forall i, j {:trigger Twins(cells, i, j)} | 0 <= i < |cells| && 0 <= j < |cells| &&
      Twins(cells, i, j) :: i == j)
  }

  /** A probe for `k` stops at `i`: on `k` itself, or on the free cell where it would go. */
  ghost predicate StopsAt<K(!new)>(cells: seq<Cell<K>>, home: K -> nat, k: K, i: int) {
    && 0 <= i < |cells|
    && (cells[i].Free? || cells[i] == Taken(k))
    && (forall j :: 0 <= j < |cells| && InRun(home(k), j, i) ==> cells[j].Taken? && cells[j] != Taken(k))
  }

  /** Stopping on a free cell is an exhaustive search that found nothing. */
  lemma {:induction false} FreeMeansAbsent<K(!new)>(cells: seq<Cell<K>>, home: K -> nat, k: K, i: int)
    requires Chained(cells, home) && StopsAt(cells, home, k, i) && cells[i].Free?
    requires home(k) < |cells|
    ensures Taken(k) !in cells
  {
    forall j | 0 <= j < |cells| ensures cells[j] != Taken(k) {
      assert Bridged(cells, home, i, j);
    }
  }

  /** Storing a key where its probe stopped leaves every other key reachable. */
  lemma {:induction false} StoreKeepsChains<K(!new)>(cells: seq<Cell<K>>, home: K -> nat, k: K, i: int)
    requires Chained(cells, home) && StopsAt(cells, home, k, i) && cells[i].Free?
    requires home(k) < |cells|
    ensures Chained(cells[i := Taken(k)], home)
    ensures Load(cells[i := Taken(k)]) == Load(cells) + 1
  {
    FreeMeansAbsent(cells, home, k, i);
    var after := cells[i := Taken(k)];
    forall a, b | 0 <= a < |after| && 0 <= b < |after| ensures Bridged(after, home, b, a) {
      assert Bridged(cells, home, b, a);
    }
    forall a, b | 0 <= a < |after| && 0 <= b < |after| && Twins(after, a, b) ensures a == b {
      assert a != i && b != i ==> Twins(cells, a, b);
    }
    assert TakenAt(after) == TakenAt(cells) + {i};
  }

  ghost function TakenAt<K>(cells: seq<Cell<K>>): set<int> {
    set i | 0 <= i < |cells| && cells[i].Taken?
  }

  /** How many cells are taken. */
  ghost function Load<K>(cells: seq<Cell<K>>): nat { |TakenAt(cells)| }

  /** One cell more, one key more if it is taken. */
  lemma {:induction false} LoadOfLonger<K>(cells: seq<Cell<K>>)
    requires |cells| > 0
    ensures var n := |cells| - 1; Load(cells) == Load(cells[..n]) + (if cells[n].Taken? then 1 else 0)
  {
    var n := |cells| - 1;
    assert TakenAt(cells) == TakenAt(cells[..n]) + (if cells[n].Taken? then {n} else {});
  }

  lemma {:induction false} LoadOfPrefix<K>(cells: seq<Cell<K>>, i: nat)
    requires i <= |cells|
    ensures Load(cells[..i]) <= Load(cells)
  {
    if i == |cells| {
      assert cells[..i] == cells;
    } else {
      LoadOfLonger(cells);
      assert cells[..|cells| - 1][..i] == cells[..i];
      LoadOfPrefix(cells[..|cells| - 1], i);
    }
  }

  /** A table that is not full has a free cell, which is what stops every probe. */
  lemma {:induction false} NotFullHasFree<K>(cells: seq<Cell<K>>) returns (i: nat)
    requires Load(cells) < |cells|
    ensures i < |cells| && cells[i].Free?
  {
    i := |cells| - 1;
    if cells[i].Taken? {
      LoadOfLonger(cells);
      i := NotFullHasFree(cells[..i]);
    }
  }

  lemma {:induction false} LoadOfFree<K>(cells: seq<Cell<K>>)
    requires forall i :: 0 <= i < |cells| ==> cells[i].Free?
    ensures Load(cells) == 0
  {
    assert TakenAt(cells) == {};
  }

  /** One step of a probe: the next cell, around the end. */
  function Next(i: nat, cap: nat): nat {
    if i + 1 < cap then i + 1 else 0
  }

  /** Cells still ahead of a probe at `i` before it meets `e`. */
  function Ahead(i: nat, e: nat, cap: nat): int {
    if i <= e then e - i else e + cap - i
  }
}
