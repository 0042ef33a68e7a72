/** What the client keeps of the values libalpm lends: strings and lists, live under the
    object and getter they came from, or detached once stale, until that object or its
    handle goes.  The operations as functions of the cache, what every run of them keeps,
    and the class whose loops implement them. */
module ClientCache {
  import opened Json
  import Registry

  /** One borrowed value: `ptr` is what callers hold, `text` what it says if a string. */
  datatype Owned = Owned(owner: nat, key: Text, ptr: nat, text: Text, isStr: bool)

  /** Live entries oldest first, as the table lists them; detached ones newest first. */
  datatype Cache = Cache(live: seq<Owned>, detached: seq<Owned>, released: seq<nat>, next: nat)

  const EMPTY: Cache := Cache([], [], [], 0)

  /** Whose values a purge is for. */
  datatype Whose = OfOwner(owner: nat) | OfRoot(root: nat)

  predicate Covers(w: Whose, id: nat) {
    match w
    case OfOwner(owner) => id == owner
    case OfRoot(root) => Registry.Root(id) == root
  }

  /** A getter answers for the key that is its name, or its name, a colon and arguments. */
  predicate KeyNames(key: Text, getter: Text) {
    getter <= key && (|key| == |getter| || key[|getter|] == COLON)
  }

  /** Such a key, written out. */
  ghost predicate IsCallOf(key: Text, getter: Text) {
    key == getter || exists arguments: Text :: key == getter + [0x3A] + arguments
  }

  lemma {:induction false} KeyNamesCalls(key: Text, getter: Text)
    ensures KeyNames(key, getter) <==> IsCallOf(key, getter)
  {
    if KeyNames(key, getter) && key != getter {
      assert key == getter + [0x3A] + key[|getter| + 1..];
    }
  }

  /** What a detach under these getters takes. */
  ghost predicate IsCallOfAny(key: Text, getters: seq<Text>) { exists g :: g in getters && IsCallOf(key, g) }

  predicate NamedBy(key: Text, getters: seq<Text>) { exists k :: 0 <= k < |getters| && KeyNames(key, getters[k]) }

  predicate Stale(o: Owned, owner: nat, wholeRoot: bool, getters: seq<Text>) {
    && (if wholeRoot then Registry.Root(o.owner) == Registry.Root(owner) else o.owner == owner)
    && NamedBy(o.key, getters)
  }

  lemma {:induction false} NamedByCalls(key: Text, getters: seq<Text>)
    ensures NamedBy(key, getters) <==> IsCallOfAny(key, getters)
  {
    forall g | g in getters ensures KeyNames(key, g) <==> IsCallOf(key, g) {
      KeyNamesCalls(key, g);
    }
  }

  // -------------------------------------------------------------- sequences

  function RemoveAt(xs: seq<Owned>, i: nat): seq<Owned>
    requires i < |xs|
  {
    xs[..i] + xs[i + 1..]
  }

  /** The table finds the entry added last under a key. */
  function FindLive(xs: seq<Owned>, owner: nat, key: Text): (i: int)
    ensures -1 <= i < |xs|
    ensures i >= 0 ==> xs[i].owner == owner && xs[i].key == key
    ensures i < 0 ==> forall k :: 0 <= k < |xs| ==> !(xs[k].owner == owner && xs[k].key == key)
  {
    var n := |xs| - 1;
    if n < 0 then -1 else if xs[n].owner == owner && xs[n].key == key then n else FindLive(xs[..n], owner, key)
  }

  predicate SameString(o: Owned, owner: nat, key: Text, text: Text) {
    o.isStr && o.owner == owner && o.key == key && o.text == text
  }

  /** The first detached string that says this, from the k-th on; or how many there are. */
  function FindDetached(xs: seq<Owned>, owner: nat, key: Text, text: Text, k: nat): (i: nat)
    requires k <= |xs|
    ensures k <= i <= |xs|
    ensures i < |xs| ==> SameString(xs[i], owner, key, text)
    ensures forall j :: k <= j < i ==> !SameString(xs[j], owner, key, text)
    decreases |xs| - k
  {
    if k == |xs| || SameString(xs[k], owner, key, text) then k else FindDetached(xs, owner, key, text, k + 1)
  }

  function Chosen(xs: seq<Owned>, p: Owned -> bool): seq<Owned> {
    if xs == [] then [] else Chosen(xs[..|xs| - 1], p) + (if p(xs[|xs| - 1]) then [xs[|xs| - 1]] else [])
  }

  function Backwards(xs: seq<Owned>): seq<Owned> {
    if xs == [] then [] else [xs[|xs| - 1]] + Backwards(xs[..|xs| - 1])
  }

  function Ptrs(xs: seq<Owned>): seq<nat> {
    if xs == [] then [] else Ptrs(xs[..|xs| - 1]) + [xs[|xs| - 1].ptr]
  }

  // ------------------------------------------------------------- operations

  /** A live entry put aside, where its pointer stays good. */
  function PutAside(c: Cache, i: nat): Cache
    requires i < |c.live|
  {
    c.(live := RemoveAt(c.live, i), detached := [c.live[i]] + c.detached)
  }

  /** A detached entry live again. */
  function TakeBack(c: Cache, j: nat): Cache
    requires j < |c.detached|
  {
    c.(live := c.live + [c.detached[j]], detached := RemoveAt(c.detached, j))
  }

  function Added(c: Cache, o: Owned): Cache { c.(live := c.live + [o], next := c.next + 1) }

  /** A string's entry: the live one if it says this still, else a detached one that does,
      else a new one. */
  function Interned(c: Cache, owner: nat, key: Text, text: Text): (Cache, nat) {
    var i := FindLive(c.live, owner, key);
    if i >= 0 && c.live[i].isStr && c.live[i].text == text then (c, c.live[i].ptr)
    else Reattached(if i >= 0 && c.live[i].isStr then PutAside(c, i) else c, owner, key, text)
  }

  function Reattached(c: Cache, owner: nat, key: Text, text: Text): (Cache, nat) {
    var j := FindDetached(c.detached, owner, key, text, 0);
    if j < |c.detached|
    then (TakeBack(c, j), c.detached[j].ptr)
    else (Added(c, Owned(owner, key, c.next, text, true)), c.next)
  }

  /** The live value that is no string, if there is one. */
  function Cached(c: Cache, owner: nat, key: Text): int {
    var i := FindLive(c.live, owner, key);
    if i >= 0 && !c.live[i].isStr then i else -1
  }

  /** A value just fetched, as `c.next`; if one is there already, that one is kept and the
      newcomer released. */
  function Stored(c: Cache, owner: nat, key: Text): (Cache, nat) {
    var i := Cached(c, owner, key);
    if i >= 0 then (c.(released := c.released + [c.next], next := c.next + 1), c.live[i].ptr)
    else (Added(c, Owned(owner, key, c.next, [], false)), c.next)
  }

  function Covered(w: Whose): Owned -> bool { (o: Owned) => Covers(w, o.owner) }

  function Uncovered(w: Whose): Owned -> bool { (o: Owned) => !Covers(w, o.owner) }

  function Purged(c: Cache, w: Whose): Cache {
    Cache(Chosen(c.live, Uncovered(w)), Chosen(c.detached, Uncovered(w)),
          c.released + Ptrs(Chosen(c.live, Covered(w))) + Ptrs(Chosen(c.detached, Covered(w))), c.next)
  }

  function Staling(owner: nat, wholeRoot: bool, getters: seq<Text>): Owned -> bool {
    (o: Owned) => Stale(o, owner, wholeRoot, getters)
  }

  function Staying(owner: nat, wholeRoot: bool, getters: seq<Text>): Owned -> bool {
    (o: Owned) => !Stale(o, owner, wholeRoot, getters)
  }

  function Detached(c: Cache, owner: nat, wholeRoot: bool, getters: seq<Text>): Cache {
    c.(live := Chosen(c.live, Staying(owner, wholeRoot, getters)),
       detached := Backwards(Chosen(c.live, Staling(owner, wholeRoot, getters))) + c.detached)
  }

  datatype Op =
    | Intern(owner: nat, key: Text, text: Text)
    | Store(owner: nat, key: Text)
    | Purge(whose: Whose)
    | Detach(owner: nat, wholeRoot: bool, getters: seq<Text>)

  function Step(c: Cache, op: Op): Cache {
    match op
    case Intern(owner, key, text) => Interned(c, owner, key, text).0
    case Store(owner, key) => Stored(c, owner, key).0
    case Purge(w) => Purged(c, w)
    case Detach(owner, wholeRoot, getters) => Detached(c, owner, wholeRoot, getters)
  }

  // ----------------------------------------------------------- census lemmas

  lemma {:induction false} ChosenMembers(xs: seq<Owned>, p: Owned -> bool)
    ensures forall o :: o in Chosen(xs, p) <==> o in xs && p(o)
  {
    if xs != [] {
      var n := |xs| - 1;
      ChosenMembers(xs[..n], p);
      assert xs == xs[..n] + [xs[n]];
    }
  }

  lemma {:induction false} BackwardsMembers(xs: seq<Owned>)
    ensures forall o :: o in Backwards(xs) <==> o in xs
    ensures multiset(Ptrs(Backwards(xs))) == multiset(Ptrs(xs))
  {
    if xs != [] {
      var n := |xs| - 1;
      BackwardsMembers(xs[..n]);
      PtrsOfBoth([xs[n]], Backwards(xs[..n]));
      assert xs == xs[..n] + [xs[n]];
      assert [xs[n]][..0] == [];
      assert Ptrs([xs[n]]) == [xs[n].ptr];
    }
  }

  lemma {:induction false} PtrsOfBoth(xs: seq<Owned>, ys: seq<Owned>)
    ensures Ptrs(xs + ys) == Ptrs(xs) + Ptrs(ys)
  {
    if ys == [] {
      assert xs + ys == xs;
    } else {
      var n := |ys| - 1;
      assert (xs + ys)[..|xs| + n] == xs + ys[..n];
      PtrsOfBoth(xs, ys[..n]);
    }
  }

  lemma {:induction false} PtrsOfOne(o: Owned)
    ensures Ptrs([o]) == [o.ptr]
  {
    assert [o][..0] == [];
  }

  /** Nothing gets lost between what is chosen and what is not. */
  lemma {:induction false} ChosenSplit(xs: seq<Owned>, p: Owned -> bool, q: Owned -> bool)
    requires forall o :: q(o) == !p(o)
    ensures multiset(Ptrs(Chosen(xs, p))) + multiset(Ptrs(Chosen(xs, q))) == multiset(Ptrs(xs))
  {
    if xs != [] {
      var n := |xs| - 1;
      ChosenSplit(xs[..n], p, q);
      OneMoreChosen(xs, n, p);
      OneMoreChosen(xs, n, q);
      assert xs[..n + 1] == xs;
      assert Ptrs(xs) == Ptrs(xs[..n]) + [xs[n].ptr];
      hide Chosen, Ptrs;
      OnEitherSide(Ptrs(Chosen(xs[..n], p)), Ptrs(Chosen(xs[..n], q)), Ptrs(xs[..n]), xs[n].ptr);
      assert q(xs[n]) == !p(xs[n]);
    }
  }

  lemma {:induction false} OnEitherSide(a: seq<nat>, b: seq<nat>, c: seq<nat>, x: nat)
    requires multiset(a) + multiset(b) == multiset(c)
    ensures multiset(a + [x]) + multiset(b + []) == multiset(c + [x])
    ensures multiset(a + []) + multiset(b + [x]) == multiset(c + [x])
  {
    assert a + [] == a && b + [] == b;
  }

  lemma {:induction false} RemovedOne(xs: seq<Owned>, i: nat)
    requires i < |xs|
    ensures multiset(Ptrs(xs)) == multiset(Ptrs(RemoveAt(xs, i))) + multiset{xs[i].ptr}
    ensures forall o :: o in xs <==> o == xs[i] || o in RemoveAt(xs, i)
  {
    assert xs == xs[..i] + [xs[i]] + xs[i + 1..];
    PtrsOfBoth(xs[..i] + [xs[i]], xs[i + 1..]);
    PtrsOfBoth(xs[..i], [xs[i]]);
    PtrsOfBoth(xs[..i], xs[i + 1..]);
    PtrsOfOne(xs[i]);
  }

  /** Every value there has been, by where it is now. */
  function Census(c: Cache): multiset<nat> {
    multiset(Ptrs(c.live)) + multiset(Ptrs(c.detached)) + multiset(c.released)
  }

  function UpTo(n: nat): multiset<nat> {
    if n == 0 then multiset{} else UpTo(n - 1) + multiset{n - 1}
  }

  lemma {:induction false} UpToCounts(n: nat, p: nat)
    ensures UpTo(n)[p] == if p < n then 1 else 0
  {
    if n > 0 {
      UpToCounts(n - 1, p);
    }
  }

  predicate Held(c: Cache, o: Owned) { o in c.live || o in c.detached }

  // -------------------------------------------------------------- invariants

  /** Each value is in exactly one place: live, detached or released, once. */
  predicate EachOnce(c: Cache) { Census(c) == UpTo(c.next) }

  /** At most one live entry per key. */
  ghost predicate OneLivePerKey(c: Cache) {
    forall a, b :: a in c.live && b in c.live && a.owner == b.owner && a.key == b.key ==> a == b
  }

  /** At most one string per owner, key and text, live or detached. */
  ghost predicate OneStringEach(c: Cache) {
    forall a, b :: Held(c, a) && Held(c, b) && a.isStr && SameString(b, a.owner, a.key, a.text) ==> a == b
  }

  /** The generator's discipline: a getter hands out strings, or it does not. */
  ghost predicate Kinds(c: Cache, strings: Text -> bool) {
    forall o :: Held(c, o) ==> o.isStr == strings(o.key)
  }

  ghost predicate Inv(c: Cache, strings: Text -> bool) {
    EachOnce(c) && OneLivePerKey(c) && OneStringEach(c) && Kinds(c, strings)
  }

  predicate Disciplined(op: Op, strings: Text -> bool) {
    match op
    case Intern(_, key, _) => strings(key)
    case Store(_, key) => !strings(key)
    case _ => true
  }

  // ------------------------------------------------------ one step at a time

  lemma {:induction false} AddedOne(c: Cache, o: Owned)
    requires o.ptr == c.next
    ensures Census(Added(c, o)) == Census(c) + multiset{c.next}
    ensures forall x :: Held(Added(c, o), x) <==> Held(c, x) || x == o
  {
    PtrsOfBoth(c.live, [o]);
    PtrsOfOne(o);
  }

  lemma {:induction false} PutAsideKeeps(c: Cache, i: nat)
    requires i < |c.live|
    ensures Census(PutAside(c, i)) == Census(c)
    ensures forall x :: Held(PutAside(c, i), x) <==> Held(c, x)
    ensures forall x :: x in PutAside(c, i).live ==> x in c.live
  {
    RemovedOne(c.live, i);
    PtrsOfBoth([c.live[i]], c.detached);
    PtrsOfOne(c.live[i]);
  }

  /** With each value once, an entry put aside is no longer live. */
  lemma {:induction false} NoLongerLive(c: Cache, i: nat)
    requires EachOnce(c) && i < |c.live|
    ensures c.live[i] !in PutAside(c, i).live
  {
    var o, rest := c.live[i], RemoveAt(c.live, i);
    RemovedOne(c.live, i);
    UpToCounts(c.next, o.ptr);
    if o in rest {
      PtrOfMember(rest, o);
    }
    assert o in rest ==> Census(c)[o.ptr] >= 2;
  }

  lemma {:induction false} PtrOfMember(xs: seq<Owned>, o: Owned)
    requires o in xs
    ensures o.ptr in Ptrs(xs)
  {
    var n := |xs| - 1;
    assert xs == xs[..n] + [xs[n]];
    if o in xs[..n] {
      PtrOfMember(xs[..n], o);
    }
  }

  /** Entries going, or moving from live to detached, break nothing. */
  lemma {:induction false} SubsetKeeps(c: Cache, c': Cache, strings: Text -> bool)
    requires Inv(c, strings) && EachOnce(c')
    requires forall x :: x in c'.live ==> x in c.live
    requires forall x :: Held(c', x) ==> Held(c, x)
    ensures Inv(c', strings)
  {
    hide EachOnce, Held;
  }

  /** Nor does one more, if its key is free and no other string says what it says. */
  lemma {:induction false} NewcomerKeeps(c: Cache, c': Cache, o: Owned, strings: Text -> bool)
    requires Inv(c, strings) && EachOnce(c') && o.isStr == strings(o.key)
    requires forall x :: x in c'.live ==> x in c.live || x == o
    requires forall x :: Held(c', x) ==> Held(c, x) || x == o
    requires forall x :: x in c.live ==> !(x.owner == o.owner && x.key == o.key)
    requires o.isStr && !Held(c, o) ==> forall x :: Held(c, x) ==> !SameString(x, o.owner, o.key, o.text)
    ensures Inv(c', strings)
  {
    hide EachOnce;
    NewcomerAmongStrings(c, c', o);
    hide OneStringEach;
  }

  lemma {:induction false} NewcomerAmongStrings(c: Cache, c': Cache, o: Owned)
    requires OneStringEach(c)
    requires forall x :: Held(c', x) ==> Held(c, x) || x == o
    requires o.isStr && !Held(c, o) ==> forall x :: Held(c, x) ==> !SameString(x, o.owner, o.key, o.text)
    ensures OneStringEach(c')
  {
    hide Held;
    forall a, b | Held(c', a) && Held(c', b) && a.isStr && SameString(b, a.owner, a.key, a.text) ensures a == b {
      assert SameString(a, b.owner, b.key, b.text);
    }
  }

  lemma {:induction false} AddKeeps(c: Cache, o: Owned, strings: Text -> bool)
    requires Inv(c, strings) && o.ptr == c.next && o.isStr == strings(o.key)
    requires forall x :: x in c.live ==> !(x.owner == o.owner && x.key == o.key)
    requires o.isStr ==> forall x :: Held(c, x) ==> !SameString(x, o.owner, o.key, o.text)
    ensures Inv(Added(c, o), strings) && o in Added(c, o).live
    ensures forall x :: Held(Added(c, o), x) <==> Held(c, x) || x == o
  {
    AddedOne(c, o);
    assert o in Added(c, o).live;
    assert EachOnce(Added(c, o));
    hide OneLivePerKey, OneStringEach, Kinds, Held, EachOnce, SameString;
    NewcomerKeeps(c, Added(c, o), o, strings);
  }

  lemma {:induction false} TakeBackKeeps(c: Cache, j: nat, strings: Text -> bool)
    requires Inv(c, strings) && j < |c.detached|
    requires forall x :: x in c.live ==> !(x.owner == c.detached[j].owner && x.key == c.detached[j].key)
    ensures Inv(TakeBack(c, j), strings)
    ensures forall x :: Held(TakeBack(c, j), x) <==> Held(c, x)
  {
    var o := c.detached[j];
    TakenBack(c, j);
    assert Held(c, o);
    assert o.isStr == strings(o.key);
    assert EachOnce(TakeBack(c, j));
    hide OneLivePerKey, OneStringEach, Kinds, Held, EachOnce, RemoveAt;
    NewcomerKeeps(c, TakeBack(c, j), o, strings);
  }

  /** Taking a string back, or making it. */
  lemma {:induction false} ReattachedKeeps(c: Cache, owner: nat, key: Text, text: Text, strings: Text -> bool)
    returns (o: Owned)
    requires Inv(c, strings) && strings(key)
    requires forall o :: o in c.live ==> !(o.owner == owner && o.key == key)
    ensures Inv(Reattached(c, owner, key, text).0, strings)
    ensures forall o :: Held(c, o) ==> Held(Reattached(c, owner, key, text).0, o)
    ensures Held(Reattached(c, owner, key, text).0, o) && SameString(o, owner, key, text) &&
            o.ptr == Reattached(c, owner, key, text).1
  {
    hide Inv, Held, RemoveAt, Added, TakeBack;
    var j := FindDetached(c.detached, owner, key, text, 0);
    if j < |c.detached| {
      o := c.detached[j];
      DetachedIsHeld(c, j);
      TakeBackKeeps(c, j, strings);
    } else {
      o := Owned(owner, key, c.next, text, true);
      NoneSaysIt(c, owner, key, text);
      AddKeeps(c, o, strings);
    }
  }

  lemma {:induction false} DetachedIsHeld(c: Cache, j: nat)
    requires j < |c.detached|
    ensures Held(c, c.detached[j])
  {
  }

  lemma {:induction false} NoneSaysIt(c: Cache, owner: nat, key: Text, text: Text)
    requires forall o :: o in c.live ==> !(o.owner == owner && o.key == key)
    requires FindDetached(c.detached, owner, key, text, 0) == |c.detached|
    ensures forall x :: Held(c, x) ==> !SameString(x, owner, key, text)
  {
  }

  lemma {:induction false} TakenBack(c: Cache, j: nat)
    requires j < |c.detached|
    ensures var c' := TakeBack(c, j);
            && Census(c') == Census(c)
            && (forall x :: Held(c', x) <==> Held(c, x))
            && (forall x :: x in c'.live <==> x in c.live || x == c.detached[j])
  {
    RemovedOne(c.detached, j);
    PtrsOfBoth(c.live, [c.detached[j]]);
    PtrsOfOne(c.detached[j]);
  }

  lemma {:induction false} InternKeeps(c: Cache, owner: nat, key: Text, text: Text, strings: Text -> bool)
    returns (o: Owned)
    requires Inv(c, strings) && strings(key)
    ensures var r := Interned(c, owner, key, text);
            && Inv(r.0, strings)
            && (forall o :: Held(c, o) ==> Held(r.0, o))
            && Held(r.0, o) && SameString(o, owner, key, text) && o.ptr == r.1
  {
    var i := FindLive(c.live, owner, key);
    if i >= 0 {
      o := c.live[i];
      assert Held(c, o) && o.isStr;
      if o.text != text {
        PutAsideKeeps(c, i);
        NoLongerLive(c, i);
        KeyIsFree(c, i);
        SubsetKeeps(c, PutAside(c, i), strings);
        hide Inv, PutAside, Held, Reattached;
        o := ReattachedKeeps(PutAside(c, i), owner, key, text, strings);
      }
    } else {
      hide Inv, Held, Reattached;
      o := ReattachedKeeps(c, owner, key, text, strings);
    }
  }

  lemma {:induction false} KeyIsFree(c: Cache, i: nat)
    requires OneLivePerKey(c) && EachOnce(c) && i < |c.live|
    ensures forall x :: x in PutAside(c, i).live ==> !(x.owner == c.live[i].owner && x.key == c.live[i].key)
  {
    PutAsideKeeps(c, i);
    NoLongerLive(c, i);
  }

  lemma {:induction false} StoreKeeps(c: Cache, owner: nat, key: Text, strings: Text -> bool) returns (o: Owned)
    requires Inv(c, strings) && !strings(key)
    ensures var r := Stored(c, owner, key);
            && Inv(r.0, strings)
            && (forall o :: Held(c, o) ==> Held(r.0, o))
            && o in r.0.live && o.owner == owner && o.key == key && o.ptr == r.1
            && r.0.next == c.next + 1 && (r.1 == c.next || c.next in r.0.released)
  {
    var i := FindLive(c.live, owner, key);
    if i >= 0 {
      o := c.live[i];
      assert Held(c, o) && !o.isStr;
      NewcomerReleased(c);
      SameEntries(c, Stored(c, owner, key).0);
      hide EachOnce, OneLivePerKey, OneStringEach, Kinds, Held, FindLive;
      SubsetKeeps(c, Stored(c, owner, key).0, strings);
    } else {
      o := Owned(owner, key, c.next, [], false);
      hide Inv, Held, Added;
      AddKeeps(c, o, strings);
    }
  }

  lemma {:induction false} SameEntries(c: Cache, c': Cache)
    requires c'.live == c.live && c'.detached == c.detached
    ensures forall o :: Held(c', o) <==> Held(c, o)
  {
  }

  lemma {:induction false} NewcomerReleased(c: Cache)
    requires EachOnce(c)
    ensures EachOnce(c.(released := c.released + [c.next], next := c.next + 1))
  {
  }

  lemma {:induction false} PurgeKeeps(c: Cache, w: Whose, strings: Text -> bool)
    requires Inv(c, strings)
    ensures Inv(Purged(c, w), strings)
    ensures forall o :: Held(Purged(c, w), o) <==>
              Held(c, o) && w != OfOwner(o.owner) && w != OfRoot(Registry.Root(o.owner))
  {
    var kept := Uncovered(w);
    assert forall o: Owned :: Covers(w, o.owner) <==> w == OfOwner(o.owner) || w == OfRoot(Registry.Root(o.owner));
    ChosenMembers(c.live, kept);
    ChosenMembers(c.detached, kept);
    PurgeCensus(c, w);
    hide OneLivePerKey, OneStringEach, Kinds, Census, Covers, Ptrs, Chosen;
    SubsetKeeps(c, Purged(c, w), strings);
  }

  lemma {:induction false} PurgeCensus(c: Cache, w: Whose)
    ensures Census(Purged(c, w)) == Census(c)
  {
    var gone, kept := Covered(w), Uncovered(w);
    ChosenSplit(c.live, gone, kept);
    ChosenSplit(c.detached, gone, kept);
    var a, b := Ptrs(Chosen(c.live, gone)), Ptrs(Chosen(c.detached, gone));
    assert multiset(c.released + a + b) == multiset(c.released) + multiset(a) + multiset(b);
  }

  lemma {:induction false} DetachKeeps(c: Cache, owner: nat, wholeRoot: bool, getters: seq<Text>, strings: Text -> bool)
    requires Inv(c, strings)
    ensures Inv(Detached(c, owner, wholeRoot, getters), strings)
    ensures forall o :: Held(Detached(c, owner, wholeRoot, getters), o) <==> Held(c, o)
    ensures forall o :: o in Detached(c, owner, wholeRoot, getters).live <==>
              && o in c.live
              && !(IsCallOfAny(o.key, getters) &&
                   (o.owner == owner || (wholeRoot && Registry.Root(o.owner) == Registry.Root(owner))))
  {
    forall o: Owned ensures NamedBy(o.key, getters) <==> IsCallOfAny(o.key, getters) {
      NamedByCalls(o.key, getters);
    }
    assert forall o :: Stale(o, owner, wholeRoot, getters) <==>
                       IsCallOfAny(o.key, getters) &&
                       (o.owner == owner || (wholeRoot && Registry.Root(o.owner) == Registry.Root(owner)));
    hide IsCallOfAny, NamedBy;
    var gone, kept := Staling(owner, wholeRoot, getters), Staying(owner, wholeRoot, getters);
    ChosenMembers(c.live, kept);
    ChosenMembers(c.live, gone);
    BackwardsMembers(Chosen(c.live, gone));
    DetachCensus(c, owner, wholeRoot, getters);
    hide OneLivePerKey, OneStringEach, Kinds, Census, Stale, Chosen, Backwards;
    SubsetKeeps(c, Detached(c, owner, wholeRoot, getters), strings);
  }

  lemma {:induction false} DetachCensus(c: Cache, owner: nat, wholeRoot: bool, getters: seq<Text>)
    ensures Census(Detached(c, owner, wholeRoot, getters)) == Census(c)
  {
    var gone, kept := Staling(owner, wholeRoot, getters), Staying(owner, wholeRoot, getters);
    ChosenSplit(c.live, gone, kept);
    BackwardsMembers(Chosen(c.live, gone));
    PtrsOfBoth(Backwards(Chosen(c.live, gone)), c.detached);
  }

  /** Every operation keeps the invariant, and nothing that is held goes but by a purge of
      its owner or root. */
  lemma {:induction false} StepKeeps(c: Cache, op: Op, strings: Text -> bool)
    requires Inv(c, strings) && Disciplined(op, strings)
    ensures Inv(Step(c, op), strings)
    ensures forall o :: Held(c, o) && op != Purge(OfOwner(o.owner)) && op != Purge(OfRoot(Registry.Root(o.owner))) ==>
              Held(Step(c, op), o)
  {
    hide Inv, Held, Interned, Stored, Purged, Detached;
    match op
    case Intern(owner, key, text) => var _ := InternKeeps(c, owner, key, text, strings);
    case Store(owner, key) => var _ := StoreKeeps(c, owner, key, strings);
    case Purge(w) => PurgeKeeps(c, w, strings);
    case Detach(owner, wholeRoot, getters) => DetachKeeps(c, owner, wholeRoot, getters, strings);
  }

  /** What is held has not been released. */
  lemma {:induction false} HeldIsNotReleased(c: Cache, o: Owned)
    requires EachOnce(c) && Held(c, o)
    ensures o.ptr !in c.released && o.ptr < c.next
  {
    UpToCounts(c.next, o.ptr);
    if o in c.live {
      PtrOfMember(c.live, o);
    } else {
      PtrOfMember(c.detached, o);
    }
    assert o.ptr in c.released ==> Census(c)[o.ptr] >= 2;
  }

  // ------------------------------------------------------------------- runs

  ghost predicate IsRun(run: seq<Cache>, ops: seq<Op>, strings: Text -> bool) {
    && |run| == |ops| + 1 && run[0] == EMPTY
    && forall i {:trigger ops[i]} :: 0 <= i < |ops| ==>
      Disciplined(ops[i], strings) && run[i + 1] == Step(run[i], ops[i])
  }

  lemma {:induction false} EmptyIsGood(strings: Text -> bool)
    ensures Inv(EMPTY, strings)
  {
  }

  lemma {:induction false} RunKeepsInv(run: seq<Cache>, ops: seq<Op>, strings: Text -> bool, k: nat)
    requires IsRun(run, ops, strings) && k < |run|
    ensures Inv(run[k], strings)
    decreases k
  {
    EmptyIsGood(strings);
    hide Inv, Step, Held;
    if k > 0 {
      RunKeepsInv(run, ops, strings, k - 1);
      assert Disciplined(ops[k - 1], strings);
      StepKeeps(run[k - 1], ops[k - 1], strings);
    }
  }

  /** Over a run, what was held stays held, and so unreleased, until its purge. */
  lemma {:induction false} HeldUntilPurged(run: seq<Cache>, ops: seq<Op>, strings: Text -> bool, i: nat, k: nat,
                                           o: Owned)
    requires IsRun(run, ops, strings) && i <= k < |run| && Held(run[i], o)
    requires forall j :: i <= j < k ==>
               ops[j] != Purge(OfOwner(o.owner)) && ops[j] != Purge(OfRoot(Registry.Root(o.owner)))
    ensures Held(run[k], o) && o.ptr !in run[k].released
    decreases k
  {
    hide Step, OneLivePerKey, OneStringEach, Kinds, EachOnce, Held;
    RunKeepsInv(run, ops, strings, k);
    if i < k {
      HeldUntilPurged(run, ops, strings, i, k - 1, o);
      RunKeepsInv(run, ops, strings, k - 1);
      assert Disciplined(ops[k - 1], strings);
      StepKeeps(run[k - 1], ops[k - 1], strings);
    }
    HeldIsNotReleased(run[k], o);
  }

  /** Interning is pointer-stable: the same text under the same owner and key comes back as
      the same pointer, through whatever detaches and changes of value lie between, until
      the owner or its root is purged. */
  lemma {:induction false} SameTextSamePointer(run: seq<Cache>, ops: seq<Op>, strings: Text -> bool, i: nat, k: nat,
                                               owner: nat, key: Text, text: Text)
    requires IsRun(run, ops, strings) && i < k < |ops|
    requires ops[i] == Intern(owner, key, text) && ops[k] == Intern(owner, key, text)
    requires forall j :: i < j < k ==>
               ops[j] != Purge(OfOwner(owner)) && ops[j] != Purge(OfRoot(Registry.Root(owner)))
    ensures Interned(run[k], owner, key, text).1 == Interned(run[i], owner, key, text).1
  {
    var a := InternedIsHeld(run, ops, strings, i);
    var b := InternedIsHeld(run, ops, strings, k);
    HeldUntilPurged(run, ops, strings, i + 1, k, a);
    HeldGoesOn(run, ops, strings, k, a);
    RunKeepsInv(run, ops, strings, k + 1);
    hide IsRun, Held, EachOnce, OneLivePerKey, OneStringEach, Kinds, Interned;
    SaidOnce(run[k + 1], a, b);
  }

  /** What an intern hands out is held from then on. */
  lemma {:induction false} InternedIsHeld(run: seq<Cache>, ops: seq<Op>, strings: Text -> bool, i: nat)
    returns (o: Owned)
    requires IsRun(run, ops, strings) && i < |ops| && ops[i].Intern?
    ensures Held(run[i + 1], o) && SameString(o, ops[i].owner, ops[i].key, ops[i].text)
    ensures o.ptr == Interned(run[i], ops[i].owner, ops[i].key, ops[i].text).1
  {
    RunKeepsInv(run, ops, strings, i);
    assert Disciplined(ops[i], strings);
    hide Inv, Held, Interned;
    o := InternKeeps(run[i], ops[i].owner, ops[i].key, ops[i].text, strings);
  }

  lemma {:induction false} HeldGoesOn(run: seq<Cache>, ops: seq<Op>, strings: Text -> bool, k: nat, o: Owned)
    requires IsRun(run, ops, strings) && k < |ops| && Held(run[k], o) && !ops[k].Purge?
    ensures Held(run[k + 1], o)
  {
    RunKeepsInv(run, ops, strings, k);
    assert Disciplined(ops[k], strings);
    hide Inv, Held, Step;
    StepKeeps(run[k], ops[k], strings);
  }

  lemma {:induction false} SaidOnce(c: Cache, a: Owned, b: Owned)
    requires OneStringEach(c) && Held(c, a) && Held(c, b) && a.isStr && SameString(b, a.owner, a.key, a.text)
    ensures a == b
  {
  }

  /** Every value is released at most once over a run, and is held until then. */
  lemma {:induction false} ReleasedOnce(run: seq<Cache>, ops: seq<Op>, strings: Text -> bool, k: nat, p: nat)
    requires IsRun(run, ops, strings) && k < |run| && p < run[k].next
    ensures multiset(run[k].released)[p] <= 1
    ensures multiset(run[k].released)[p] == 0 <==>
            multiset(Ptrs(run[k].live))[p] + multiset(Ptrs(run[k].detached))[p] == 1
  {
    RunKeepsInv(run, ops, strings, k);
    UpToCounts(run[k].next, p);
  }

  /** Once a handle's root is purged, nothing filed under it is held. */
  lemma {:induction false} NothingOfRootRemains(c: Cache, root: nat, strings: Text -> bool, o: Owned)
    requires Inv(c, strings) && Held(Purged(c, OfRoot(root)), o)
    ensures Registry.Root(o.owner) != root && Held(c, o)
  {
    PurgeKeeps(c, OfRoot(root), strings);
  }

  /** After a detach no stale entry answers, and every pointer handed out is still good. */
  lemma {:induction false} DetachedDoesNotAnswer(c: Cache, owner: nat, wholeRoot: bool, getters: seq<Text>,
                                                 strings: Text -> bool,
                                                 o: nat, key: Text)
    requires Inv(c, strings) && IsCallOfAny(key, getters)
    requires if wholeRoot then Registry.Root(o) == Registry.Root(owner) else o == owner
    ensures FindLive(Detached(c, owner, wholeRoot, getters).live, o, key) == -1
  {
    DetachKeeps(c, owner, wholeRoot, getters, strings);
    var c' := Detached(c, owner, wholeRoot, getters);
    var i := FindLive(c'.live, o, key);
    assert i >= 0 ==> exists x :: x in c'.live && x.owner == o && x.key == key;
  }

  // ---------------------------------------------- why the discipline matters

  /** Interning leaves one live entry per key exactly when no value that is no string is
      live under that key: the case the table's add does not look for. */
  lemma {:induction false} InternKeepsKeysIff(c: Cache, owner: nat, key: Text, text: Text)
    requires EachOnce(c) && OneLivePerKey(c)
    requires forall o :: o in c.detached ==> o !in c.live
    ensures OneLivePerKey(Interned(c, owner, key, text).0) <==> Cached(c, owner, key) < 0
  {
    var i := FindLive(c.live, owner, key);
    var c1 := if i >= 0 && c.live[i].isStr && c.live[i].text != text then PutAside(c, i) else c;
    if i >= 0 && c.live[i].isStr {
      if c.live[i].text != text {
        PutAsideKeeps(c, i);
        NoLongerLive(c, i);
        NewcomerAlone(c1, owner, key, text);
      }
    } else if i >= 0 {
      NewcomerCollides(c, owner, key, text, c.live[i]);
    } else {
      NewcomerAlone(c, owner, key, text);
    }
  }

  lemma {:induction false} NewcomerAlone(c: Cache, owner: nat, key: Text, text: Text)
    requires OneLivePerKey(c) && forall o :: o in c.live ==> !(o.owner == owner && o.key == key)
    ensures OneLivePerKey(Reattached(c, owner, key, text).0)
  {
    var j := FindDetached(c.detached, owner, key, text, 0);
    if j < |c.detached| {
      TakenBack(c, j);
    }
  }

  lemma {:induction false} NewcomerCollides(c: Cache, owner: nat, key: Text, text: Text, o: Owned)
    requires o in c.live && o.owner == owner && o.key == key && !o.isStr
    ensures !OneLivePerKey(Reattached(c, owner, key, text).0)
  {
    var r := Reattached(c, owner, key, text).0;
    assert o in r.live && r.live[|r.live| - 1] in r.live && r.live[|r.live| - 1].isStr;
  }

  /** Storing, likewise, exactly when no string is live under that key. */
  lemma {:induction false} StoreKeepsKeysIff(c: Cache, owner: nat, key: Text)
    requires OneLivePerKey(c)
    ensures OneLivePerKey(Stored(c, owner, key).0) <==>
            (FindLive(c.live, owner, key) >= 0 ==> Cached(c, owner, key) >= 0)
  {
    var i, r := FindLive(c.live, owner, key), Stored(c, owner, key).0;
    if i >= 0 && c.live[i].isStr {
      assert c.live[i] in r.live && r.live[|c.live|] in r.live && !r.live[|c.live|].isStr;
    }
  }

  /** Without it, a string's pointer can change: a value stored under its key hides it. */
  lemma {:induction false} HiddenStringIsMadeAgain(key: Text, text: Text)
    ensures var first := Interned(EMPTY, 1, key, text);
            var second := Interned(Stored(first.0, 1, key).0, 1, key, text);
            first.1 != second.1
  {
    var a, b := Owned(1, key, 0, text, true), Owned(1, key, 1, [], false);
    assert [] + [a] == [a] && [a] + [b] == [a, b];
    var c1, c2 := Cache([a], [], [], 1), Cache([a, b], [], [], 2);
    assert FindLive([], 1, key) == -1 && FindLive([a], 1, key) == 0 && FindLive([a, b], 1, key) == 1;
    assert Interned(EMPTY, 1, key, text) == (c1, 0);
    assert Stored(c1, 1, key).0 == c2;
    assert Interned(c2, 1, key, text).1 == 2;
  }

  // ---------------------------------------------------------------- the class

  /** The table and the list. `released` remembers what was freed. */
  class Borrowed {
    var live: seq<Owned>
    var detached: seq<Owned>
    var next: nat
    ghost var released: seq<nat>

    ghost function Abs(): Cache
      reads this
    {
      Cache(live, detached, released, next)
    }

    constructor ()
      ensures Abs() == EMPTY
    {
      live, detached, next, released := [], [], 0, [];
    }

    method Find(owner: nat, key: Text) returns (i: int)
      ensures i == FindLive(live, owner, key)
    {
      i := |live| - 1;
      assert live[..i + 1] == live;
      while i >= 0 && !(live[i].owner == owner && live[i].key == key)
        invariant -1 <= i < |live| && FindLive(live, owner, key) == FindLive(live[..i + 1], owner, key)
      {
        assert live[..i + 1][..i] == live[..i];
        i := i - 1;
      }
    }

    method SetAside(i: nat)
      requires i < |live|
      modifies this`live, this`detached
      ensures Abs() == PutAside(old(Abs()), i)
    {
      detached := [live[i]] + detached;
      live := live[..i] + live[i + 1..];
    }

    method Intern(owner: nat, key: Text, text: Text) returns (p: nat)
      modifies this
      ensures (Abs(), p) == Interned(old(Abs()), owner, key, text)
    {
      var i := Find(owner, key);
      if i >= 0 && live[i].isStr {
        if live[i].text == text {
          return live[i].ptr;
        }
        SetAside(i);
      }
      var j := 0;
      while j < |detached| && !SameString(detached[j], owner, key, text)
        invariant 0 <= j <= |detached|
        invariant FindDetached(detached, owner, key, text, 0) == FindDetached(detached, owner, key, text, j)
      {
        j := j + 1;
      }
      if j < |detached| {
        p := detached[j].ptr;
        live := live + [detached[j]];
        detached := detached[..j] + detached[j + 1..];
      } else {
        p := next;
        next := next + 1;
        live := live + [Owned(owner, key, p, text, true)];
      }
    }

    method Lookup(owner: nat, key: Text) returns (found: bool, p: nat)
      ensures found == (Cached(Abs(), owner, key) >= 0)
      ensures found ==> p == live[Cached(Abs(), owner, key)].ptr
    {
      var i := Find(owner, key);
      if i >= 0 && !live[i].isStr {
        return true, live[i].ptr;
      }
      return false, 0;
    }

    /** A value just made for the caller. */
    method Store(owner: nat, key: Text) returns (p: nat)
      modifies this
      ensures (Abs(), p) == Stored(old(Abs()), owner, key)
    {
      var value := next;
      next := next + 1;
      var i := Find(owner, key);
      if i >= 0 && !live[i].isStr {
        released := released + [value];
        return live[i].ptr;
      }
      live := live + [Owned(owner, key, value, [], false)];
      p := value;
    }

    method PurgeWhere(w: Whose)
      modifies this
      ensures Abs() == Purged(old(Abs()), w)
    {
      hide Chosen, Ptrs, Covered, Uncovered;
      ghost var freed;
      live, freed := Sift(live, w);
      released := released + freed;
      detached, freed := Sift(detached, w);
      released := released + freed;
    }

    method MarkStale(owner: nat, wholeRoot: bool, getters: seq<Text>)
      modifies this`live, this`detached
      ensures Abs() == Detached(old(Abs()), owner, wholeRoot, getters)
    {
      hide Chosen, Backwards, Stale, NamedBy;
      ghost var was, before := live, detached;
      ghost var gone, kept := Staling(owner, wholeRoot, getters), Staying(owner, wholeRoot, getters);
      ghost var done := 0;
      var i := 0;
      NoneChosen(was, gone, kept, before);
      while i < |live|
        invariant 0 <= i <= |live| && 0 <= done <= |was| && live[i..] == was[done..]
        invariant live[..i] == Chosen(was[..done], kept)
        invariant detached == Backwards(Chosen(was[..done], gone)) + before
        decreases |live| - i
      {
        SameRest(live, i, was, done);
        OneMoreChosen(was, done, kept);
        OneMoreChosen(was, done, gone);
        OneMoreBackwards(Chosen(was[..done], gone), live[i], before);
        hide Abs;
        var stale := IsStale(live[i], owner, wholeRoot, getters);
        if stale {
          SetAside(i);
        } else {
          i := i + 1;
        }
        done := done + 1;
      }
      assert was[..done] == was && live[..i] == live;
    }
  }

  /** Takes what is covered out of a list, one entry at a time, and releases it. */
  method Sift(list: seq<Owned>, w: Whose) returns (xs: seq<Owned>, ghost freed: seq<nat>)
    ensures xs == Chosen(list, Uncovered(w)) && freed == Ptrs(Chosen(list, Covered(w)))
  {
    hide Chosen, Ptrs, Covers;
    xs, freed := list, [];
    ghost var done := 0;
    var i := 0;
    NoneChosen(list, Covered(w), Uncovered(w), []);
    while i < |xs|
      invariant 0 <= i <= |xs| && 0 <= done <= |list| && xs[i..] == list[done..]
      invariant xs[..i] == Chosen(list[..done], Uncovered(w))
      invariant freed == Ptrs(Chosen(list[..done], Covered(w)))
      decreases |xs| - i
    {
      SameRest(xs, i, list, done);
      OneMoreChosen(list, done, Uncovered(w));
      OneMoreChosen(list, done, Covered(w));
      if Covers(w, xs[i].owner) {
        freed := freed + [xs[i].ptr];
        xs := xs[..i] + xs[i + 1..];
      } else {
        i := i + 1;
      }
      done := done + 1;
    }
    assert list[..done] == list && xs[..i] == xs;
  }

  /** A list that goes on as another does: one entry further, kept or unlinked. */
  lemma {:induction false} SameRest(l: seq<Owned>, i: nat, was: seq<Owned>, done: nat)
    requires i < |l| && done <= |was| && l[i..] == was[done..]
    ensures done < |was| && l[i] == was[done] && l[i + 1..] == was[done + 1..] && l[..i + 1] == l[..i] + [l[i]]
    ensures var u := l[..i] + l[i + 1..]; u[..i] == l[..i] && u[i..] == l[i + 1..]
  {
    assert l[i..][0] == was[done..][0] && l[i..][1..] == was[done..][1..];
  }

  lemma {:induction false} NoneChosen(xs: seq<Owned>, p: Owned -> bool, q: Owned -> bool, before: seq<Owned>)
    ensures Chosen(xs[..0], p) == [] && Chosen(xs[..0], q) == [] && Ptrs(Chosen(xs[..0], p)) == []
    ensures Backwards(Chosen(xs[..0], p)) + before == before
  {
    assert xs[..0] == [];
    assert [] + before == before;
  }

  method IsStale(o: Owned, owner: nat, wholeRoot: bool, getters: seq<Text>) returns (stale: bool)
    ensures stale == Stale(o, owner, wholeRoot, getters)
  {
    if (if wholeRoot then Registry.Root(o.owner) != Registry.Root(owner) else o.owner != owner) {
      return false;
    }
    for k := 0 to |getters|
      invariant forall j :: 0 <= j < k ==> !KeyNames(o.key, getters[j])
    {
      if KeyNames(o.key, getters[k]) {
        return true;
      }
    }
    return false;
  }

  lemma {:induction false} OneMoreChosen(xs: seq<Owned>, n: nat, p: Owned -> bool)
    requires n < |xs|
    ensures Chosen(xs[..n + 1], p) == if p(xs[n]) then Chosen(xs[..n], p) + [xs[n]] else Chosen(xs[..n], p)
    ensures Ptrs(Chosen(xs[..n + 1], p)) == Ptrs(Chosen(xs[..n], p)) + (if p(xs[n]) then [xs[n].ptr] else [])
  {
    assert xs[..n + 1][..n] == xs[..n];
    PtrsOfOne(xs[n]);
    PtrsOfBoth(Chosen(xs[..n], p), if p(xs[n]) then [xs[n]] else []);
  }

  lemma {:induction false} OneMoreBackwards(xs: seq<Owned>, o: Owned, before: seq<Owned>)
    ensures [o] + (Backwards(xs) + before) == Backwards(xs + [o]) + before
  {
    assert (xs + [o])[..|xs|] == xs;
    assert Backwards(xs + [o]) == [o] + Backwards(xs);
  }
}
