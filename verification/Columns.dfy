/** Package fields read a column at a time: packages in groups, a group's columns fetched
    whole and kept, and each read answered from them.  Over any run, a read gives what
    asking the server for that one package would. */
module Columns {
  import Json
  import Registry

  type Text = Json.Text

  /** A field as it crosses the wire. */
  datatype Value = Nothing | Word(text: Text) | Number(n: int)

  datatype Column = Column(field: Text, isStr: bool, cells: seq<Value>)
  datatype Group = Group(ids: seq<nat>, cols: seq<Column>)

  /** Which group a package is in, and where in it. */
  datatype Slot = Slot(group: nat, pos: nat)

  /** Groups by their address; addresses from `next` on are still free. */
  datatype Book = Book(groups: map<nat, Group>, slots: map<nat, Slot>, next: nat)

  const EMPTY: Book := Book(map[], map[], 0)

  /** What the server answers for one field of one package. */
  type Server = (nat, Text) -> Value

  /** A value as a string reader or a number reader takes it. */
  function Cell(v: Value, isStr: bool): Value {
    if isStr then if v.Word? then v else Nothing
    else Number(if v.Number? then v.n else 0)
  }

  /** What a stub gives when there is no package, or the column is of the other kind. */
  function NoCell(isStr: bool): Value { Cell(Nothing, isStr) }

  function FindColumn(cols: seq<Column>, field: Text, k: nat): (i: nat)
    requires k <= |cols|
    ensures k <= i <= |cols|
    ensures i < |cols| ==> cols[i].field == field
    ensures forall j :: k <= j < i ==> cols[j].field != field
    decreases |cols| - k
  {
    if k == |cols| || cols[k].field == field then k else FindColumn(cols, field, k + 1)
  }

  function Fetched(server: Server, ids: seq<nat>, field: Text, isStr: bool): Column {
    Column(field, isStr, seq(|ids|, i requires 0 <= i < |ids| => Cell(server(ids[i], field), isStr)))
  }

  /** Slots for the first `n` ids, in the group at `g`, for those that have none. */
  function Placing(slots: map<nat, Slot>, ids: seq<nat>, n: nat, g: nat): map<nat, Slot>
    requires n <= |ids|
  {
    if n == 0 then slots
    else
      var m := Placing(slots, ids, n - 1, g);
      if ids[n - 1] in m then m else m[ids[n - 1] := Slot(g, n - 1)]
  }

  /** Nobody loses a slot, everybody in the list has one, and the new ones are where they say. */
  lemma {:induction false} PlacingPlaces(slots: map<nat, Slot>, ids: seq<nat>, n: nat, g: nat)
    requires n <= |ids|
    ensures var m := Placing(slots, ids, n, g);
            && (forall id :: id in slots ==> id in m && m[id] == slots[id])
            && (forall i :: 0 <= i < n ==> ids[i] in m)
            && (forall id :: id in m && id !in slots ==> m[id].group == g && m[id].pos < n && ids[m[id].pos] == id)
  {
    if n > 0 {
      PlacingPlaces(slots, ids, n - 1, g);
    }
  }

  lemma {:induction false} PlacingNone(slots: map<nat, Slot>, ids: seq<nat>, n: nat, g: nat)
    requires n <= |ids| && forall i :: 0 <= i < n ==> ids[i] in slots
    ensures Placing(slots, ids, n, g) == slots
  {
    if n > 0 {
      PlacingNone(slots, ids, n - 1, g);
    }
  }

  // ------------------------------------------------------------- invariants

  predicate SlotGood(b: Book, id: nat)
    requires id in b.slots
  {
    var s := b.slots[id];
    s.group in b.groups && s.pos < |b.groups[s.group].ids| && b.groups[s.group].ids[s.pos] == id
  }

  predicate GroupGood(b: Book, g: nat)
    requires g in b.groups
  {
    var ids, cols := b.groups[g].ids, b.groups[g].cols;
    && g < b.next && ids != []
    && (forall i :: 0 <= i < |ids| ==> Registry.Root(ids[i]) == Registry.Root(ids[0]))
    && (forall k :: 0 <= k < |cols| ==> |cols[k].cells| == |ids|)
    && (forall j, k :: 0 <= j < k < |cols| ==> cols[j].field != cols[k].field)
  }

  /** Every slot points at a live group whose member there is that package. */
  ghost predicate Linked(b: Book) {
    && (forall id {:trigger SlotGood(b, id)} :: id in b.slots ==> SlotGood(b, id))
    && (forall g {:trigger GroupGood(b, g)} :: g in b.groups ==> GroupGood(b, g))
  }

  /** What a column says of a package, where its slot points. */
  predicate SlotAgrees(b: Book, server: Server, id: nat)
    requires id in b.slots && SlotGood(b, id) && GroupGood(b, b.slots[id].group)
  {
    var s := b.slots[id];
    var cols := b.groups[s.group].cols;
    forall k :: 0 <= k < |cols| ==> cols[k].cells[s.pos] == Cell(server(id, cols[k].field), cols[k].isStr)
  }

  ghost predicate Agrees(b: Book, server: Server, dead: iset<nat>)
    requires Linked(b)
  {
    forall id {:trigger SlotAgrees(b, server, id)} :: id in b.slots && id !in dead ==>
      SlotGood(b, id) && GroupGood(b, b.slots[id].group) && SlotAgrees(b, server, id)
  }

  /** Each field is fetched as what the generator says it is. */
  ghost predicate KindsKept(b: Book, strings: Text -> bool) {
    forall g, k {:trigger b.groups[g].cols[k]} :: g in b.groups && 0 <= k < |b.groups[g].cols| ==>
      b.groups[g].cols[k].isStr == strings(b.groups[g].cols[k].field)
  }

  // ------------------------------------------------------------- operations

  /** A group for these packages, unless each of them has one. */
  function Registered(b: Book, ids: seq<nat>): Book {
    if forall i :: 0 <= i < |ids| ==> ids[i] in b.slots then b
    else Book(b.groups[b.next := Group(ids, [])],
              Placing(b.slots, ids, |ids|, b.next),
              b.next + 1)
  }

  /** The slot of a package, in a group of one if it has no other. */
  function Placed(b: Book, id: nat): Book { if id in b.slots then b else Registered(b, [id]) }

  lemma {:induction false} PlacedHasSlot(b: Book, id: nat)
    ensures id in Placed(b, id).slots
    ensures id !in b.slots ==>
            Placed(b, id) == Book(b.groups[b.next := Group([id], [])], b.slots[id := Slot(b.next, 0)], b.next + 1)
  {
    if id !in b.slots {
      assert [id][0] !in b.slots;
      assert Placing(b.slots, [id], 0, b.next) == b.slots;
    }
  }

  function CellAt(c: Column, pos: nat, isStr: bool): Value {
    if c.isStr == isStr && pos < |c.cells| then c.cells[pos] else NoCell(isStr)
  }

  function Read(b: Book, server: Server, id: nat, field: Text, isStr: bool): (Book, Value) {
    var b1 := Placed(b, id);
    if id == 0 then (b, NoCell(isStr))
    else if id !in b1.slots || b1.slots[id].group !in b1.groups then (b1, NoCell(isStr))
    else
      var s := b1.slots[id];
      var g := b1.groups[s.group];
      var k := FindColumn(g.cols, field, 0);
      if k < |g.cols| then (b1, CellAt(g.cols[k], s.pos, isStr))
      else
        var c := Fetched(server, g.ids, field, isStr);
        (b1.(groups := b1.groups[s.group := g.(cols := [c] + g.cols)]), CellAt(c, s.pos, isStr))
  }

  function Dropped(b: Book, id: nat, field: Text): Book {
    if id !in b.slots || b.slots[id].group !in b.groups then b
    else
      var at := b.slots[id].group;
      var cols := b.groups[at].cols;
      var k := FindColumn(cols, field, 0);
      if k == |cols| then b else b.(groups := b.groups[at := b.groups[at].(cols := cols[..k] + cols[k + 1..])])
  }

  /** A group's root is its first member's. */
  function GroupRoot(g: Group): nat { if g.ids == [] then 0 else Registry.Root(g.ids[0]) }

  /** Groups and slots of a root, gone. */
  function Freed(b: Book, root: nat): Book {
    b.(groups := map g | g in b.groups && GroupRoot(b.groups[g]) != root :: b.groups[g],
       slots := map id | id in b.slots && Registry.Root(id) != root :: b.slots[id])
  }

  // ------------------------------------------------- what each of them keeps

  ghost predicate Inv(b: Book, server: Server, dead: iset<nat>, strings: Text -> bool) {
    Linked(b) && Agrees(b, server, dead) && KindsKept(b, strings)
  }

  predicate OneRoot(ids: seq<nat>) { forall i :: 0 <= i < |ids| ==> Registry.Root(ids[i]) == Registry.Root(ids[0]) }

  lemma {:induction false} RegisterKeeps(b: Book, ids: seq<nat>, server: Server, dead: iset<nat>, strings: Text -> bool)
    requires Inv(b, server, dead, strings) && OneRoot(ids)
    ensures Inv(Registered(b, ids), server, dead, strings)
  {
    var b' := Registered(b, ids);
    if b' != b {
      PlacingPlaces(b.slots, ids, |ids|, b.next);
      RegisterLinks(b, ids);
      forall id | id in b'.slots && id !in dead ensures SlotGood(b', id) && GroupGood(b', b'.slots[id].group) &&
        SlotAgrees(b', server, id) {
        RegisteredSlot(b, ids, id);
        if id in b.slots {
          assert SlotAgrees(b, server, id);
        }
      }
    }
  }

  lemma {:induction false} RegisteredSlot(b: Book, ids: seq<nat>, id: nat)
    requires Linked(b) && Linked(Registered(b, ids)) && Registered(b, ids) != b && id in Registered(b, ids).slots
    ensures var b' := Registered(b, ids);
            && SlotGood(b', id) && GroupGood(b', b'.slots[id].group)
            && if id in b.slots then SlotGood(b, id) && b'.slots[id] == b.slots[id] &&
              b'.groups[b.slots[id].group] == b.groups[b.slots[id].group]
               else b'.groups[b'.slots[id].group].cols == []
  {
    PlacingPlaces(b.slots, ids, |ids|, b.next);
    assert SlotGood(Registered(b, ids), id);
    assert GroupGood(Registered(b, ids), Registered(b, ids).slots[id].group);
    if id in b.slots {
      assert SlotGood(b, id) && GroupGood(b, b.slots[id].group);
    }
  }

  lemma {:induction false} RegisterLinks(b: Book, ids: seq<nat>)
    requires Linked(b) && OneRoot(ids)
    ensures Linked(Registered(b, ids))
  {
    var b' := Registered(b, ids);
    if b' != b {
      PlacingPlaces(b.slots, ids, |ids|, b.next);
      forall id | id in b'.slots ensures SlotGood(b', id) {
        if id in b.slots {
          assert SlotGood(b, id) && GroupGood(b, b.slots[id].group);
        }
      }
      forall g | g in b'.groups ensures GroupGood(b', g) {
        if g in b.groups {
          assert GroupGood(b, g);
        }
      }
    }
  }

  /** A read answers as the server would, and changes no other answer. */
  lemma {:induction false} ReadAgrees(b: Book, server: Server, dead: iset<nat>, strings: Text -> bool, id: nat,
                                      field: Text)
    requires Inv(b, server, dead, strings) && id != 0 && id !in dead
    ensures var v, answer := Read(b, server, id, field, strings(field)).1, server(id, field);
            v == if strings(field) then (if answer.Word? then answer else Nothing)
                 else if answer.Number? then answer else Number(0)
    ensures Inv(Read(b, server, id, field, strings(field)).0, server, dead, strings)
  {
    RegisterKeeps(b, [id], server, dead, strings);
    PlacedHasSlot(b, id);
    var b1 := Placed(b, id);
    ReadPlaced(b1, server, dead, strings, id, field);
  }

  lemma {:induction false} ReadPlaced(b: Book, server: Server, dead: iset<nat>, strings: Text -> bool, id: nat,
                                      field: Text)
    requires Inv(b, server, dead, strings) && id != 0 && id !in dead && id in b.slots
    ensures Read(b, server, id, field, strings(field)).1 == Cell(server(id, field), strings(field))
    ensures Inv(Read(b, server, id, field, strings(field)).0, server, dead, strings)
  {
    assert SlotAgrees(b, server, id);
    var s := b.slots[id];
    var g := b.groups[s.group];
    var k := FindColumn(g.cols, field, 0);
    if k == |g.cols| {
      FetchKeeps(b, server, dead, strings, s.group, field);
    }
  }

  /** A column more. */
  lemma {:induction false} FetchKeeps(b: Book, server: Server, dead: iset<nat>, strings: Text -> bool, at: nat,
                                      field: Text)
    requires Inv(b, server, dead, strings) && at in b.groups
    requires forall k :: 0 <= k < |b.groups[at].cols| ==> b.groups[at].cols[k].field != field
    ensures var g := b.groups[at];
            var c := Fetched(server, g.ids, field, strings(field));
            Inv(b.(groups := b.groups[at := g.(cols := [c] + g.cols)]), server, dead, strings)
  {
    var g := b.groups[at];
    var c := Fetched(server, g.ids, field, strings(field));
    var b' := b.(groups := b.groups[at := g.(cols := [c] + g.cols)]);
    forall h | h in b'.groups ensures GroupGood(b', h) {
      assert GroupGood(b, h);
    }
    forall id | id in b'.slots ensures SlotGood(b', id) {
      assert SlotGood(b, id);
    }
    forall id | id in b'.slots && id !in dead ensures SlotGood(b', id) && GroupGood(b', b'.slots[id].group) &&
      SlotAgrees(b', server, id) {
      assert SlotAgrees(b, server, id);
      FetchedAgrees(b, server, id, at, field, strings(field));
    }
  }

  lemma {:induction false} FetchedAgrees(b: Book, server: Server, id: nat, at: nat, field: Text, isStr: bool)
    requires at in b.groups && id in b.slots && SlotGood(b, id) && GroupGood(b, b.slots[id].group) &&
             SlotAgrees(b, server, id)
    requires var g := b.groups[at];
             var b' := b.(groups := b.groups[at := g.(cols := [Fetched(server, g.ids, field, isStr)] + g.cols)]);
             SlotGood(b', id) && GroupGood(b', b'.slots[id].group)
    ensures var g := b.groups[at];
            SlotAgrees(b.(groups := b.groups[at := g.(cols := [Fetched(server, g.ids, field, isStr)] + g.cols)]),
              server, id)
  {
  }

  function Updated(server: Server, id: nat, field: Text, v: Value): Server {
    (i: nat, f: Text) => if i == id && f == field then v else server(i, f)
  }

  /** A setter that drops the column leaves no answer behind that it has made false. */
  lemma {:induction false} SetKeeps(b: Book, server: Server, dead: iset<nat>, strings: Text -> bool, id: nat,
                                    field: Text, v: Value)
    requires Inv(b, server, dead, strings)
    ensures Inv(Dropped(b, id, field), Updated(server, id, field, v), dead, strings)
  {
    DropLinks(b, id, field, strings);
    var b', server' := Dropped(b, id, field), Updated(server, id, field, v);
    forall other | other in b'.slots && other !in dead
      ensures SlotGood(b', other) && GroupGood(b', b'.slots[other].group) && SlotAgrees(b', server', other)
    {
      assert SlotAgrees(b, server, other);
      assert SlotGood(b', other) && GroupGood(b', b'.slots[other].group);
      SetSlotAgrees(b, server, id, field, v, other);
    }
  }

  lemma {:induction false} SetSlotAgrees(b: Book, server: Server, id: nat, field: Text, v: Value, other: nat)
    requires other in b.slots && SlotGood(b, other) && GroupGood(b, b.slots[other].group) &&
             SlotAgrees(b, server, other)
    requires var b' := Dropped(b, id, field);
             other in b'.slots && SlotGood(b', other) && GroupGood(b', b'.slots[other].group)
    requires id in b.slots ==> SlotGood(b, id)
    ensures SlotAgrees(Dropped(b, id, field), Updated(server, id, field, v), other)
  {
    var at := b.slots[other].group;
    var cols, cols' := b.groups[at].cols, Dropped(b, id, field).groups[at].cols;
    var k := FindColumn(cols, field, 0);
    assert cols' == cols || cols' == cols[..k] + cols[k + 1..];
    assert other == id && k < |cols| ==> cols' == cols[..k] + cols[k + 1..];
  }

  lemma {:induction false} DropLinks(b: Book, id: nat, field: Text, strings: Text -> bool)
    requires Linked(b) && KindsKept(b, strings)
    ensures Linked(Dropped(b, id, field)) && KindsKept(Dropped(b, id, field), strings)
  {
    var b' := Dropped(b, id, field);
    forall other | other in b'.slots ensures SlotGood(b', other) {
      assert SlotGood(b, other);
    }
    forall g | g in b'.groups ensures GroupGood(b', g) {
      assert GroupGood(b, g);
    }
  }

  /** Releasing a handle leaves nothing of its root, and no slot without its group. */
  lemma {:induction false} FreeKeeps(b: Book, server: Server, dead: iset<nat>, strings: Text -> bool, root: nat)
    requires Inv(b, server, dead, strings)
    ensures Inv(Freed(b, root), server, dead, strings)
    ensures forall id :: id in Freed(b, root).slots ==> Registry.Root(id) != root
    ensures forall g, i :: g in Freed(b, root).groups && 0 <= i < |Freed(b, root).groups[g].ids| ==>
              Registry.Root(Freed(b, root).groups[g].ids[i]) != root
  {
    var b' := Freed(b, root);
    hide Registry.Root;
    forall g | g in b'.groups ensures GroupGood(b', g) {
      assert GroupGood(b, g);
    }
    forall id | id in b'.slots ensures SlotGood(b', id) && GroupGood(b', b'.slots[id].group) {
      assert SlotGood(b, id) && GroupGood(b, b.slots[id].group);
    }
    forall id | id in b'.slots && id !in dead ensures SlotAgrees(b', server, id) {
      assert SlotAgrees(b, server, id);
    }
  }

  // ------------------------------------------------------------------- runs

  /** The client's columns, the server's values, and the packages that are gone. */
  datatype World = World(book: Book, server: Server, dead: iset<nat>)

  datatype Op =
    | Register(ids: seq<nat>)
    | ReadField(id: nat, field: Text)
    | SetField(id: nat, field: Text, v: Value)
    | FreePackage(id: nat)
    | Release(handle: nat)

  /** Lists are of one owner, and so of one root; a read is of a package that is there. */
  predicate Legal(w: World, op: Op) {
    match op
    case Register(ids) => OneRoot(ids)
    case ReadField(id, _) => id == 0 || id !in w.dead
    case _ => true
  }

  ghost predicate Good(w: World, strings: Text -> bool) { Inv(w.book, w.server, w.dead, strings) }

  ghost function Step(w: World, op: Op, strings: Text -> bool): World {
    match op
    case Register(ids) => w.(book := Registered(w.book, ids))
    case ReadField(id, field) => w.(book := Read(w.book, w.server, id, field, strings(field)).0)
    case SetField(id, field, v) => w.(book := Dropped(w.book, id, field), server := Updated(w.server, id, field, v))
    case FreePackage(id) => w.(dead := w.dead + iset{id})
    case Release(handle) =>
      var root := Registry.Root(handle);
      w.(book := Freed(w.book, root), dead := w.dead + iset id: nat | Registry.Root(id) == root)
  }

  lemma {:induction false} StepKeeps(w: World, op: Op, strings: Text -> bool)
    requires Good(w, strings) && Legal(w, op)
    ensures Good(Step(w, op, strings), strings)
  {
    match op
    case Register(ids) => RegisterKeeps(w.book, ids, w.server, w.dead, strings);
    case ReadField(id, field) => if id != 0 { ReadAgrees(w.book, w.server, w.dead, strings, id, field); }
    case SetField(id, field, v) => SetKeeps(w.book, w.server, w.dead, strings, id, field, v);
    case FreePackage(id) => MoreDead(w, strings, iset{id});
    case Release(handle) =>
      var root := Registry.Root(handle);
      FreeKeeps(w.book, w.server, w.dead, strings, root);
      MoreDead(w.(book := Freed(w.book, root)), strings, iset id: nat | Registry.Root(id) == root);
  }

  lemma {:induction false} MoreDead(w: World, strings: Text -> bool, more: iset<nat>)
    requires Good(w, strings)
    ensures Good(w.(dead := w.dead + more), strings)
  {
    hide Registry.Root;
    forall id | id in w.book.slots && id !in w.dead + more
      ensures SlotGood(w.book, id) && GroupGood(w.book, w.book.slots[id].group)
      ensures SlotAgrees(w.book, w.server, id)
    {
      assert SlotGood(w.book, id) && GroupGood(w.book, w.book.slots[id].group);
      assert SlotAgrees(w.book, w.server, id);
    }
  }

  ghost predicate IsRun(run: seq<World>, ops: seq<Op>, strings: Text -> bool) {
    && |run| == |ops| + 1 && run[0].book == EMPTY
    && forall i {:trigger ops[i]} :: 0 <= i < |ops| ==>
         Legal(run[i], ops[i]) && run[i + 1] == Step(run[i], ops[i], strings)
  }

  lemma {:induction false} RunIsGood(run: seq<World>, ops: seq<Op>, strings: Text -> bool, k: nat)
    requires IsRun(run, ops, strings) && k < |run|
    ensures Good(run[k], strings)
    decreases k
  {
    if k > 0 {
      RunIsGood(run, ops, strings, k - 1);
      assert Legal(run[k - 1], ops[k - 1]);
      StepKeeps(run[k - 1], ops[k - 1], strings);
    }
  }

  /** Over any run of registrations, reads, sets and releases, every slot points at a live
      group that has its package there, and reading a field of a package that is there
      gives what the server answers for that package alone. */
  lemma {:induction false} ReadsAreFresh(run: seq<World>, ops: seq<Op>, strings: Text -> bool, k: nat, id: nat,
                                         field: Text)
    requires IsRun(run, ops, strings) && k < |run| && id != 0 && id !in run[k].dead
    ensures Linked(run[k].book)
    ensures Read(run[k].book, run[k].server, id, field, strings(field)).1 ==
            var answer := run[k].server(id, field);
            if strings(field) then (if answer.Word? then answer else Nothing)
            else if answer.Number? then answer else Number(0)
  {
    RunIsGood(run, ops, strings, k);
    ReadAgrees(run[k].book, run[k].server, run[k].dead, strings, id, field);
  }

  /** A field that has been read of a package is known of its whole group: read again, of
      any member that found its place there, it comes without asking the server. */
  lemma {:induction false} FetchedOnce(b: Book, server: Server, other: Server, id: nat, field: Text, isStr: bool,
                                       member: nat)
    requires Linked(b) && id != 0 && member != 0
    requires var b1 := Read(b, server, id, field, isStr).0;
             member in b1.slots && id in b1.slots && b1.slots[member].group == b1.slots[id].group
    ensures var b1 := Read(b, server, id, field, isStr).0;
            && Read(b1, other, member, field, isStr).0 == b1
            && Read(b1, other, member, field, isStr).1 == Read(b1, server, member, field, isStr).1
  {
    RegisterLinks(b, [id]);
    PlacedHasSlot(b, id);
    assert SlotGood(Placed(b, id), id);
  }

  /** A setter drops that field's column of the package's group, and no other. */
  lemma {:induction false} DropTakesOneColumn(b: Book, id: nat, field: Text, g: nat)
    requires Linked(b) && g in b.groups
    ensures var b' := Dropped(b, id, field);
            && b'.slots == b.slots && b'.groups.Keys == b.groups.Keys && b'.groups[g].ids == b.groups[g].ids
            && forall c :: c in b'.groups[g].cols <==>
                 c in b.groups[g].cols && !(c.field == field && id in b.slots && b.slots[id].group == g)
  {
    assert GroupGood(b, g);
    if id in b.slots {
      assert SlotGood(b, id) && GroupGood(b, b.slots[id].group);
      var cols := b.groups[b.slots[id].group].cols;
      var k := FindColumn(cols, field, 0);
      if k < |cols| {
        WithoutOne(cols, k);
      }
    }
  }

  lemma {:induction false} WithoutOne(cols: seq<Column>, k: nat)
    requires k < |cols| && forall i, j :: 0 <= i < j < |cols| ==> cols[i].field != cols[j].field
    ensures forall c :: c in cols[..k] + cols[k + 1..] <==> c in cols && c.field != cols[k].field
  {
    forall c | c in cols && c.field != cols[k].field ensures c in cols[..k] + cols[k + 1..] {
      var i :| 0 <= i < |cols| && cols[i] == c;
      assert i < k ==> cols[..k][i] == c;
      assert i > k ==> cols[k + 1..][i - k - 1] == c;
    }
  }

  /** A release takes the groups and slots of its root, and leaves the others as they are. */
  lemma {:induction false} FreeTakesOneRoot(b: Book, root: nat)
    requires Linked(b)
    ensures forall id :: id in Freed(b, root).slots <==> id in b.slots && Registry.Root(id) != root
    ensures forall id :: id in Freed(b, root).slots ==> Freed(b, root).slots[id] == b.slots[id]
    ensures forall g :: g in Freed(b, root).groups <==>
              g in b.groups && forall id :: id in b.groups[g].ids ==> Registry.Root(id) != root
    ensures forall g :: g in Freed(b, root).groups ==> Freed(b, root).groups[g] == b.groups[g]
  {
    hide Registry.Root;
    forall g | g in b.groups
      ensures GroupRoot(b.groups[g]) != root <==> forall id :: id in b.groups[g].ids ==> Registry.Root(id) != root
    {
      assert GroupGood(b, g);
      assert b.groups[g].ids[0] in b.groups[g].ids;
    }
  }

  /** A column of one kind answers a reader of the other with nothing: the generator's
      discipline is needed. */
  lemma {:induction false} WrongKindReadsNothing(b: Book, server: Server, dead: iset<nat>, strings: Text -> bool,
                                                 id: nat, field: Text)
    requires Inv(b, server, dead, strings) && id != 0 && id !in dead
    ensures var b1 := Read(b, server, id, field, strings(field)).0;
            Read(b1, server, id, field, !strings(field)).1 == if strings(field) then Number(0) else Nothing
  {
    RegisterKeeps(b, [id], server, dead, strings);
    PlacedHasSlot(b, id);
    assert SlotGood(Placed(b, id), id);
    ReadAgrees(b, server, dead, strings, id, field);
  }

  // ---------------------------------------------------------------- the class

  class PackageColumns {
    var groups: map<nat, Group>
    var slots: map<nat, Slot>
    var next: nat

    ghost function Abs(): Book
      reads this
    {
      Book(groups, slots, next)
    }

    constructor ()
      ensures Abs() == EMPTY
    {
      groups, slots, next := map[], map[], 0;
    }

    /** A group for these ids, in this order; -1 if every member has one already. */
    method GroupNew(ids: seq<nat>) returns (at: int)
      modifies this
      ensures Abs() == Registered(old(Abs()), ids)
      ensures at == if Abs() == old(Abs()) then -1 else old(next)
    {
      ghost var was := slots;
      var placed := 0;
      var g := next;
      var i := 0;
      while i < |ids|
        modifies this`slots
        invariant 0 <= i <= |ids| && 0 <= placed && slots == Placing(was, ids, i, g)
        invariant placed == 0 <==> forall j :: 0 <= j < i ==> ids[j] in was
      {
        if ids[i] !in slots {
          slots := slots[ids[i] := Slot(g, i)];
          placed := placed + 1;
        }
        PlacingPlaces(was, ids, i, g);
        i := i + 1;
      }
      if placed == 0 {
        PlacingNone(was, ids, |ids|, g);
        return -1;
      }
      groups := groups[g := Group(ids, [])];
      next := next + 1;
      return g;
    }

    method GroupFor(id: nat) returns (s: Slot)
      modifies this
      ensures Abs() == Placed(old(Abs()), id) && id in slots && s == slots[id]
    {
      PlacedHasSlot(Abs(), id);
      if id !in slots {
        var g := GroupNew([id]);
      }
      s := slots[id];
    }

    /** One round trip: this field, for every member of the group. */
    method FetchColumn(at: nat, server: Server, field: Text, isStr: bool)
      requires at in groups
      modifies this`groups
      ensures var g := old(groups)[at];
              groups == old(groups)[at := g.(cols := [Fetched(server, g.ids, field, isStr)] + g.cols)]
      ensures var c := groups[at].cols[0];
              && c.field == field && c.isStr == isStr && |c.cells| == |groups[at].ids|
              && forall i :: 0 <= i < |c.cells| ==>
                   var answer := server(groups[at].ids[i], field);
                   c.cells[i] == if isStr then (if answer.Word? then answer else Nothing)
                                 else if answer.Number? then answer else Number(0)
    {
      var g := groups[at];
      var cells: seq<Value> := [];
      while |cells| < |g.ids|
        invariant |cells| <= |g.ids|
        invariant forall i :: 0 <= i < |cells| ==> cells[i] == Cell(server(g.ids[i], field), isStr)
        decreases |g.ids| - |cells|
      {
        cells := cells + [Cell(server(g.ids[|cells|], field), isStr)];
      }
      assert Column(field, isStr, cells) == Fetched(server, g.ids, field, isStr);
      groups := groups[at := g.(cols := [Column(field, isStr, cells)] + g.cols)];
    }

    method ColumnFor(at: nat, server: Server, field: Text, isStr: bool) returns (k: nat)
      requires at in groups
      modifies this`groups
      ensures var g := old(groups)[at];
              var found := FindColumn(g.cols, field, 0);
              if found < |g.cols| then k == found && groups == old(groups)
              else k == 0 && groups == old(groups)[at := g.(cols := [Fetched(server, g.ids, field, isStr)] + g.cols)]
    {
      var cols := groups[at].cols;
      k := 0;
      while k < |cols| && cols[k].field != field
        invariant 0 <= k <= |cols| && FindColumn(cols, field, 0) == FindColumn(cols, field, k)
      {
        k := k + 1;
      }
      if k == |cols| {
        FetchColumn(at, server, field, isStr);
        k := 0;
      }
    }

    /** A batched accessor's whole stub. */
    method PackageField(id: nat, server: Server, field: Text, isStr: bool) returns (v: Value)
      requires Linked(Abs())
      modifies this
      ensures (Abs(), v) == Read(old(Abs()), server, id, field, isStr)
    {
      v := NoCell(isStr);
      if id == 0 {
        return;
      }
      RegisterLinks(Abs(), [id]);
      var s := GroupFor(id);
      assert SlotGood(Abs(), id) && GroupGood(Abs(), s.group);
      var k := ColumnFor(s.group, server, field, isStr);
      var c := groups[s.group].cols[k];
      if c.isStr == isStr {
        v := c.cells[s.pos];
      }
    }

    method DropColumn(id: nat, field: Text)
      requires Linked(Abs())
      modifies this`groups
      ensures Abs() == Dropped(old(Abs()), id, field)
    {
      if id !in slots {
        return;
      }
      assert SlotGood(Abs(), id);
      var at := slots[id].group;
      var cols := groups[at].cols;
      var k := 0;
      while k < |cols| && cols[k].field != field
        invariant 0 <= k <= |cols| && FindColumn(cols, field, 0) == FindColumn(cols, field, k)
      {
        k := k + 1;
      }
      if k < |cols| {
        groups := groups[at := groups[at].(cols := cols[..k] + cols[k + 1..])];
      }
    }

    method FreeGroupsOf(root: nat)
      modifies this
      ensures Abs() == Freed(old(Abs()), root)
    {
      FreeGroups(root);
      FreeSlots(root);
    }

    /** One group after another. */
    method FreeGroups(root: nat)
      modifies this`groups
      ensures groups == Freed(old(Abs()), root).groups
    {
      ghost var was := groups;
      var todo := groups.Keys;
      while todo != {}
        modifies this`groups
        invariant todo <= groups.Keys
        invariant groups == map g | g in was && (g in todo || GroupRoot(was[g]) != root) :: was[g]
        decreases todo
      {
        var g :| g in todo;
        todo := todo - {g};
        if GroupRoot(groups[g]) == root {
          groups := groups - {g};
        }
      }
    }

    method FreeSlots(root: nat)
      modifies this`slots
      ensures slots == Freed(old(Abs()), root).slots
    {
      ghost var was := slots;
      var todo := slots.Keys;
      while todo != {}
        modifies this`slots
        invariant todo <= slots.Keys
        invariant slots == map id | id in was && (id in todo || Registry.Root(id) != root) :: was[id]
        decreases todo
      {
        var id :| id in todo;
        todo := todo - {id};
        if Registry.Root(id) == root {
          slots := slots - {id};
        }
      }
    }
  }
}
