/** gpgme follows the handle a call is for.  libalpm sets gpgme's directory once per
    process; the server points it anew before each call whose handle has another one,
    remembering each handle's directory because asking for it would clear the handle's
    pending error. */
module Gpgdir {
  import Json
  import opened Wrappers

  /** A directory, or none for gpgme's default. */
  type Dir = Option<Json.Text>

  /** One handle's directory as last read; the list has the newest first. */
  datatype Seen = Seen(handle: nat, dir: Dir)

  /** libalpm's side: each handle's directory and pending error, 0 for none. */
  datatype Info = Info(dir: Dir, errno: int)

  /** `engine` is where gpgme points, if it was ever pointed. `read` has the handles whose
      directory was read since it was last set. */
  datatype World = World(seen: seq<Seen>, pointed: bool, dir: Dir, engine: Option<Dir>, handles: map<nat, Info>,
      read: set<nat>)

  const INITIAL: World := World([], false, None, None, map[], {})

  function Entry(seen: seq<Seen>, h: nat, k: nat): (i: nat)
    requires k <= |seen|
    ensures k <= i <= |seen|
    ensures i < |seen| ==> seen[i].handle == h
    ensures forall j :: k <= j < i ==> seen[j].handle != h
    decreases |seen| - k
  {
    if k == |seen| || seen[k].handle == h then k else Entry(seen, h, k + 1)
  }

  /** Reads a handle's directory, unless that would clear an error. */
  function Refreshed(seen: seq<Seen>, h: nat, info: Info): seq<Seen> {
    var i := Entry(seen, h, 0);
    if info.errno != 0 then seen
    else if i == |seen| then [Seen(h, info.dir)] + seen
    else seen[i := Seen(h, info.dir)]
  }

  /** Before a call for `h`: gpgme is pointed at its directory, if it takes it. */
  function Followed(w: World, h: nat, accepts: bool): World
    requires h in w.handles
  {
    var w1 := w.(seen := Refreshed(w.seen, h, w.handles[h]),
        read := if w.handles[h].errno == 0 then w.read + {h} else w.read);
    var i := Entry(w1.seen, h, 0);
    if i == |w1.seen| || (w.pointed && w1.seen[i].dir == w.dir) || !accepts then w1
    else w1.(pointed := true, dir := w1.seen[i].dir, engine := Some(w1.seen[i].dir))
  }

  /** What a handler does to its handle. */
  datatype Effect = Succeed | Fail(e: int) | LeaveError | SetDir(dir: Dir) | Release

  /** A call for `h` starts, and later has its effect; others may come in between, from a
      callback, or have an effect on `h` without being for it. */
  datatype Op =
    | Initialise(h: nat, dir: Dir)
    | Start(h: nat, accepts: bool)
    | Affect(h: nat, effect: Effect)

  function Affected(w: World, h: nat, effect: Effect): World
    requires h in w.handles
  {
    match effect
    case Succeed => w.(handles := w.handles[h := w.handles[h].(errno := 0)])
    case Fail(e) => w.(handles := w.handles[h := w.handles[h].(errno := e)])
    case LeaveError => w
    case SetDir(d) => w.(handles := w.handles[h := Info(d, 0)], read := w.read - {h})
    case Release => w.(handles := w.handles - {h}, read := w.read - {h})
  }

  /** A new handle starts free of errors, at an address no live one has; calls and effects
      are of handles that are there. */
  predicate Legal(w: World, op: Op) {
    match op
    case Initialise(h, _) => h != 0 && h !in w.handles
    case Start(h, _) => h in w.handles
    case Affect(h, _) => h in w.handles
  }

  /** No error on a handle whose directory has been set and not read since. */
  predicate Quiet(w: World, op: Op) { op.Affect? && op.effect.Fail? ==> op.h in w.read }

  function Step(w: World, op: Op): World {
    match op
    case Initialise(h, d) => w.(handles := w.handles[h := Info(d, 0)], read := w.read - {h})
    case Start(h, accepts) => if h in w.handles then Followed(w, h, accepts) else w
    case Affect(h, effect) => if h in w.handles then Affected(w, h, effect) else w
  }

  /** Is what was last read of `h` still so? */
  predicate Fresh(w: World, h: nat)
    requires h in w.handles
  {
    var i := Entry(w.seen, h, 0);
    i < |w.seen| && w.seen[i].dir == w.handles[h].dir
  }

  /** What the server knows is so, whatever libalpm does. */
  ghost predicate Known(w: World) {
    && w.engine == (if w.pointed then Some(w.dir) else None)
    && (forall h {:trigger h in w.read} :: h in w.read ==> h in w.handles && Fresh(w, h))
  }

  /** An error is pending only on handles whose directory is known. */
  ghost predicate ErrorsKnown(w: World) {
    forall h {:trigger w.handles[h]} :: h in w.handles && w.handles[h].errno != 0 ==> h in w.read
  }

  lemma {:induction false} RefreshedHas(seen: seq<Seen>, h: nat, info: Info, other: nat)
    ensures var seen' := Refreshed(seen, h, info);
            var i, j := Entry(seen', other, 0), Entry(seen, other, 0);
            && (other == h && info.errno == 0 ==> i < |seen'| && seen'[i].dir == info.dir)
            && (other != h && j < |seen| ==> i < |seen'| && seen'[i].dir == seen[j].dir)
  {
    var seen' := Refreshed(seen, h, info);
    var i, j, k := Entry(seen', other, 0), Entry(seen, other, 0), Entry(seen, h, 0);
    if info.errno == 0 {
      if k == |seen| {
        assert seen'[0] == Seen(h, info.dir) && forall n :: 0 <= n < |seen| ==> seen'[n + 1] == seen[n];
        assert other == h ==> i == 0;
        assert other != h && j < |seen| ==> seen'[j + 1].handle == other;
        assert other != h && i > 0 && i < |seen'| ==> seen[i - 1].handle == other;
      } else {
        assert forall n :: 0 <= n < |seen| ==> seen'[n].handle == seen[n].handle;
        assert i == j;
      }
    }
  }

  lemma {:induction false} FollowKeeps(w: World, h: nat, accepts: bool)
    requires Known(w) && h in w.handles
    ensures Known(Followed(w, h, accepts)) && Followed(w, h, accepts).handles == w.handles
    ensures w.handles[h].errno == 0 || h in w.read ==> h in Followed(w, h, accepts).read
    ensures ErrorsKnown(w) ==> ErrorsKnown(Followed(w, h, accepts))
  {
    var w' := Followed(w, h, accepts);
    forall g | g in w'.read ensures g in w'.handles && Fresh(w', g) {
      RefreshedHas(w.seen, h, w.handles[h], g);
      assert g in w.read || g == h;
    }
  }

  lemma {:induction false} EffectKeeps(w: World, h: nat, effect: Effect)
    requires Known(w) && h in w.handles
    ensures Known(Affected(w, h, effect))
    ensures ErrorsKnown(w) && (effect.Fail? ==> h in w.read) ==> ErrorsKnown(Affected(w, h, effect))
  {
    var w' := Affected(w, h, effect);
    assert forall g :: g in w'.read ==> g in w.read;
  }

  lemma {:induction false} StepKeeps(w: World, op: Op)
    requires Known(w) && Legal(w, op)
    ensures Known(Step(w, op))
    ensures ErrorsKnown(w) && Quiet(w, op) ==> ErrorsKnown(Step(w, op))
  {
    match op
    case Initialise(h, d) =>
      var w' := Step(w, op);
      assert forall g :: g in w'.read ==> g in w.read;
    case Start(h, accepts) => FollowKeeps(w, h, accepts);
    case Affect(h, effect) => EffectKeeps(w, h, effect);
  }

  // ------------------------------------------------------------------- runs

  ghost predicate IsRun(run: seq<World>, ops: seq<Op>) {
    && |run| == |ops| + 1 && run[0] == INITIAL
    && forall i {:trigger ops[i]} :: 0 <= i < |ops| ==> Legal(run[i], ops[i]) && run[i + 1] == Step(run[i], ops[i])
  }

  ghost predicate QuietRun(run: seq<World>, ops: seq<Op>)
    requires |run| == |ops| + 1
  {
    forall i {:trigger ops[i]} :: 0 <= i < |ops| ==> Quiet(run[i], ops[i])
  }

  lemma {:induction false} RunKeeps(run: seq<World>, ops: seq<Op>, k: nat)
    requires IsRun(run, ops) && k < |run|
    ensures Known(run[k]) && (QuietRun(run, ops) ==> ErrorsKnown(run[k]))
    decreases k
  {
    hide Known, ErrorsKnown, Quiet;
    StartsKnown();
    if k > 0 {
      RunKeeps(run, ops, k - 1);
      assert Legal(run[k - 1], ops[k - 1]);
      StepKeeps(run[k - 1], ops[k - 1]);
    }
  }

  lemma {:induction false} StartsKnown()
    ensures Known(INITIAL) && ErrorsKnown(INITIAL)
  {
  }

  /** When a call for `h` starts: gpgme ends up at that handle's directory exactly when it
      takes it and either no error is pending on the handle, or what was last read of it is
      still so, or nothing ever was and gpgme happens to be there; one that takes nothing
      stays where it was. Nothing of libalpm's is touched. */
  lemma {:induction false} PointsRightIff(w: World, h: nat, accepts: bool)
    requires Known(w) && h in w.handles
    ensures var w', dir := Followed(w, h, accepts), w.handles[h].dir;
            && (w'.engine == Some(dir) <==>
                if accepts
                then
                  w.handles[h].errno == 0 || Fresh(w, h) || (Entry(w.seen, h, 0) == |w.seen| && w.engine == Some(dir))
                else w.engine == Some(dir))
            && w'.handles == w.handles
  {
    RefreshedHas(w.seen, h, w.handles[h], h);
  }

  /** Over every run of initialising, setting, failing, releasing, reusing addresses and
      calls nested in calls, that is what the start of a call's handler finds. */
  lemma {:induction false} HandlerFindsGpgme(run: seq<World>, ops: seq<Op>, k: nat, h: nat, accepts: bool)
    requires IsRun(run, ops) && k < |run| && h in run[k].handles
    ensures var w, w', dir := run[k], Followed(run[k], h, accepts), run[k].handles[h].dir;
            && (w'.engine == Some(dir) <==>
                if accepts
                then
                  w.handles[h].errno == 0 || Fresh(w, h) || (Entry(w.seen, h, 0) == |w.seen| && w.engine == Some(dir))
                else w.engine == Some(dir))
            && w'.handles == w.handles
  {
    RunKeeps(run, ops, k);
    PointsRightIff(run[k], h, accepts);
  }

  /** If over the run no error was raised on a handle whose directory had been set and not
      read since, the handler sees its handle's directory whenever gpgme takes it, and so
      exactly when it takes it or was there. */
  lemma {:induction false} HandlerSeesItsGpgdir(run: seq<World>, ops: seq<Op>, k: nat, h: nat, accepts: bool)
    requires IsRun(run, ops) && QuietRun(run, ops) && k < |run| && h in run[k].handles
    ensures var w := Followed(run[k], h, accepts);
            w.engine == Some(w.handles[h].dir) <==> accepts || run[k].engine == Some(w.handles[h].dir)
  {
    RunKeeps(run, ops, k);
    PointsRightIff(run[k], h, accepts);
    assert run[k].handles[h].errno == 0 || h in run[k].read;
  }

  /** A call that no other one comes in the way of may fail. */
  lemma {:induction false} StartedMayFail(run: seq<World>, ops: seq<Op>, k: nat)
    requires IsRun(run, ops) && QuietRun(run, ops) && k < |ops| && ops[k].Start?
    ensures forall e :: Quiet(run[k + 1], Affect(ops[k].h, Fail(e)))
  {
    RunKeeps(run, ops, k);
    assert Legal(run[k], ops[k]);
    FollowKeeps(run[k], ops[k].h, ops[k].accepts);
  }

  /** That condition is needed: a call whose callback sets the directory, and which then
      fails, leaves the next call on that handle with gpgme at the old one. */
  lemma {:induction false} StaleAfterNestedSetter(h: nat, a: Dir, b: Dir) returns (run: seq<World>)
    requires h != 0 && a != b
    ensures var ops := [Initialise(h, a), Start(h, true), Start(h, true), Affect(h, SetDir(b)), Affect(h, Fail(1))];
            && IsRun(run, ops) && !QuietRun(run, ops)
            && h in run[5].handles && run[5].handles[h].dir == b && Followed(run[5], h, true).engine == Some(a)
  {
    var w1 := Step(INITIAL, Initialise(h, a));
    var w2 := Step(w1, Start(h, true));
    StartRemembers(w1, h, a);
    var w3 := Step(w2, Start(h, true));
    SecondStartChangesNothing(w2, h, a);
    var w4 := Step(w3, Affect(h, SetDir(b)));
    var w5 := Step(w4, Affect(h, Fail(1)));
    run := [INITIAL, w1, w2, w3, w4, w5];
    var ops := [Initialise(h, a), Start(h, true), Start(h, true), Affect(h, SetDir(b)), Affect(h, Fail(1))];
    assert !Quiet(run[4], ops[4]);
  }

  lemma {:induction false} StartRemembers(w: World, h: nat, a: Dir)
    requires w == Step(INITIAL, Initialise(h, a))
    ensures Step(w, Start(h, true)) == World([Seen(h, a)], true, a, Some(a), map[h := Info(a, 0)], {h})
  {
    assert Refreshed([], h, Info(a, 0)) == [Seen(h, a)];
    assert Entry([Seen(h, a)], h, 0) == 0;
  }

  lemma {:induction false} SecondStartChangesNothing(w: World, h: nat, a: Dir)
    requires w == World([Seen(h, a)], true, a, Some(a), map[h := Info(a, 0)], {h})
    ensures Step(w, Start(h, true)) == w
  {
    assert Entry([Seen(h, a)], h, 0) == 0;
    assert [Seen(h, a)][0 := Seen(h, a)] == [Seen(h, a)];
    assert w.read + {h} == w.read;
  }

  // ---------------------------------------------------------------- the class

  /** libalpm, as far as it shows here: reading a directory clears the handle's error. */
  class Alpm {
    var handles: map<nat, Info>

    method Errno(h: nat) returns (e: int)
      requires h in handles
      ensures e == handles[h].errno
    {
      e := handles[h].errno;
    }

    method GetGpgdir(h: nat) returns (d: Dir)
      requires h in handles
      modifies this
      ensures d == old(handles)[h].dir && handles == old(handles)[h := old(handles)[h].(errno := 0)]
    {
      d := handles[h].dir;
      handles := handles[h := handles[h].(errno := 0)];
    }
  }

  class Follower {
    var seen: seq<Seen>
    var pointed: bool
    var dir: Dir
    var engine: Option<Dir>
    ghost var read: set<nat>

    ghost function Abs(alpm: Alpm): World
      reads this, alpm
    {
      World(seen, pointed, dir, engine, alpm.handles, read)
    }

    constructor ()
      ensures seen == [] && !pointed && dir == None && engine == None && read == {}
    {
      seen, pointed, dir, engine, read := [], false, None, None, {};
    }

    /** The entry of `h`, read afresh unless an error is pending; how many there are if it
        has none. */
    method GpgdirOf(alpm: Alpm, h: nat) returns (i: nat)
      requires h in alpm.handles
      modifies this`seen, this`read, alpm
      ensures alpm.handles == old(alpm.handles)
      ensures seen == Refreshed(old(seen), h, alpm.handles[h]) && i == Entry(seen, h, 0)
      ensures read == if alpm.handles[h].errno == 0 then old(read) + {h} else old(read)
    {
      i := 0;
      while i < |seen| && seen[i].handle != h
        invariant 0 <= i <= |seen| && Entry(seen, h, 0) == Entry(seen, h, i)
      {
        i := i + 1;
      }
      var e := alpm.Errno(h);
      if e != 0 {
        return;
      }
      var now := alpm.GetGpgdir(h);
      assert alpm.handles == old(alpm.handles);
      read := read + {h};
      RefreshedHas(seen, h, alpm.handles[h], h);
      if i == |seen| {
        seen := [Seen(h, now)] + seen;
        i := 0;
      } else {
        seen := seen[i := Seen(h, now)];
        assert Entry(seen, h, 0) == i;
      }
    }

    /** `accepts` is whether gpgme takes the directory it is given. */
    method Follow(alpm: Alpm, h: nat, accepts: bool)
      requires h != 0 ==> h in alpm.handles
      modifies this, alpm
      ensures Abs(alpm) == if h == 0 then old(Abs(alpm)) else Followed(old(Abs(alpm)), h, accepts)
    {
      if h == 0 {
        return;
      }
      var i := GpgdirOf(alpm, h);
      if i == |seen| || (pointed && seen[i].dir == dir) {
        return;
      }
      if !accepts {
        return;
      }
      engine := Some(seen[i].dir);
      dir := seen[i].dir;
      pointed := true;
    }
  }
}
