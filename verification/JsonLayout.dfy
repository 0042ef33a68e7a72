/** How the reader lays a value out: one node per value in source order, children and
    siblings linked by index, strings as offsets into one buffer.  Here is what such a
    layout is, and that it survives the ways a parse goes on changing its arrays. */
module JsonLayout {
  import opened Json

  datatype Kind = KNull | KBool | KNum | KStr | KArr | KObj

  /** A link is -1 when there is nothing there; a key is its offset plus one, or 0. */
  datatype Node = Node(kind: Kind, num: int, str: nat, key: nat, firstChild: int, nextSibling: int)

  function NewNode(kind: Kind): Node { Node(kind, 0, 0, 0, -1, -1) }

  function GroupKind(isObj: bool): Kind { if isObj then KObj else KArr }

  /** A NUL-terminated string stands at `off`. */
  predicate StrAt(ss: Text, off: nat, s: Text) {
    off + |s| < |ss| && ss[off..off + |s|] == s && ss[off + |s|] == 0
  }

  /** The nodes from `n` on are `v`. The node's own key and sibling are its parent's
      business; see `LaysKids`. */
  ghost predicate Lays(ns: seq<Node>, ss: Text, n: nat, v: Json)
    decreases Size(v), 0
  {
    && n + Size(v) <= |ns|
    && match v
       case Null => ns[n].kind == KNull && ns[n].firstChild == -1
       case Bool(b) => ns[n].kind == KBool && ns[n].num == (if b then 1 else 0) && ns[n].firstChild == -1
       case Num(k) => ns[n].kind == KNum && ns[n].num == k && ns[n].firstChild == -1
       case Str(s) => ns[n].kind == KStr && StrAt(ss, ns[n].str, s) && ns[n].firstChild == -1
       case Group(isObj, kids) =>
         && ns[n].kind == GroupKind(isObj)
         && ns[n].firstChild == (if kids == [] then -1 else n + 1)
         && LaysKids(ns, ss, n + 1, isObj, kids)
  }

  /** The nodes from `c` on are those kids, one after the other, each linked to the next. */
  ghost predicate LaysKids(ns: seq<Node>, ss: Text, c: nat, isObj: bool, kids: seq<Kid>)
    decreases SizeOfKids(kids), 1
  {
    kids == [] ||
    var next := c + Size(kids[0].val);
    && Lays(ns, ss, c, kids[0].val)
    && KeyLaid(ss, ns[c].key, isObj, kids[0].key)
    && ns[c].nextSibling == (if |kids| == 1 then -1 else next)
    && LaysKids(ns, ss, next, isObj, kids[1..])
  }

  /** The first kid, and the ones after it. */
  lemma {:induction false} FirstAndRest(ns: seq<Node>, ss: Text, c: nat, isObj: bool, kids: seq<Kid>)
    requires kids != []
    ensures var next := c + Size(kids[0].val);
            LaysKids(ns, ss, c, isObj, kids) <==>
              && Lays(ns, ss, c, kids[0].val)
              && c < |ns| && KeyLaid(ss, ns[c].key, isObj, kids[0].key)
              && ns[c].nextSibling == (if |kids| == 1 then -1 else next)
              && LaysKids(ns, ss, next, isObj, kids[1..])
  {
    hide KeyLaid;
  }

  ghost predicate KeyLaid(ss: Text, key: nat, isObj: bool, k: Text) {
    if isObj then key > 0 && StrAt(ss, key - 1, k) else key == 0 && k == []
  }

  lemma {:induction false} SizeOfMore(kids: seq<Kid>, more: seq<Kid>)
    ensures SizeOfKids(kids + more) == SizeOfKids(kids) + SizeOfKids(more)
  {
    if kids == [] {
      assert kids + more == more;
    } else {
      assert (kids + more)[1..] == kids[1..] + more;
      SizeOfMore(kids[1..], more);
    }
  }

  lemma {:induction false} SizeOfOne(kid: Kid)
    ensures SizeOfKids([kid]) == Size(kid.val)
  {
    assert [kid][1..] == [];
  }

  /** Strings stay where they are as the buffer grows. */
  lemma {:induction false} StrStays(ss: Text, ss': Text, off: nat, s: Text)
    requires StrAt(ss, off, s) && ss <= ss'
    ensures StrAt(ss', off, s)
  {
    assert ss'[off..off + |s|] == ss[off..off + |s|];
  }

  lemma {:induction false} KeyStays(ss: Text, ss': Text, key: nat, isObj: bool, k: Text)
    requires KeyLaid(ss, key, isObj, k) && ss <= ss'
    ensures KeyLaid(ss', key, isObj, k)
  {
    if isObj {
      StrStays(ss, ss', key - 1, k);
    }
  }

  /** A node as its own value sees it: all but the links its parent sets. */
  predicate SameInside(a: Node, b: Node) { a.(key := b.key, nextSibling := b.nextSibling) == b }

  /** Nothing outside a value's own nodes can disturb it, nor its parent's links. */
  lemma {:induction false} LaysStays(ns: seq<Node>, ns': seq<Node>, ss: Text, ss': Text, n: nat, v: Json)
    requires Lays(ns, ss, n, v) && n + Size(v) <= |ns'| && ss <= ss'
    requires SameInside(ns[n], ns'[n]) && ns'[n + 1..n + Size(v)] == ns[n + 1..n + Size(v)]
    ensures Lays(ns', ss', n, v)
    decreases Size(v), 0
  {
    match v
    case Str(s) => StrStays(ss, ss', ns[n].str, s);
    case Group(isObj, kids) => LaysKidsStay(ns, ns', ss, ss', n + 1, isObj, kids);
    case _ =>
  }

  lemma {:induction false} SliceOfSlice(ns: seq<Node>, c: nat, end: nat, a: nat, b: nat)
    requires c <= a <= b <= end <= |ns|
    ensures ns[a..b] == ns[c..end][a - c..b - c]
    ensures a < end ==> ns[a] == ns[c..end][a - c]
  {
    assert forall k :: 0 <= k < b - a ==> ns[a..b][k] == ns[c..end][a - c..b - c][k];
  }

  lemma {:induction false} SlicesStay(ns: seq<Node>, ns': seq<Node>, c: nat, next: nat, end: nat)
    requires c < next <= end <= |ns| && end <= |ns'| && ns'[c..end] == ns[c..end]
    ensures ns'[c] == ns[c] && ns'[c + 1..next] == ns[c + 1..next] && ns'[next..end] == ns[next..end]
  {
    SliceOfSlice(ns, c, end, c, c);
    SliceOfSlice(ns', c, end, c, c);
    SliceOfSlice(ns, c, end, c + 1, next);
    SliceOfSlice(ns', c, end, c + 1, next);
    SliceOfSlice(ns, c, end, next, end);
    SliceOfSlice(ns', c, end, next, end);
  }

  lemma {:induction false} LaysKidsStay(ns: seq<Node>, ns': seq<Node>, ss: Text, ss': Text, c: nat, isObj: bool,
                                        kids: seq<Kid>)
    requires LaysKids(ns, ss, c, isObj, kids) && ss <= ss'
    requires c + SizeOfKids(kids) <= |ns| && c + SizeOfKids(kids) <= |ns'|
    requires ns'[c..c + SizeOfKids(kids)] == ns[c..c + SizeOfKids(kids)]
    ensures LaysKids(ns', ss', c, isObj, kids)
    decreases SizeOfKids(kids), 1
  {
    if kids != [] {
      var end, next := c + SizeOfKids(kids), c + Size(kids[0].val);
      SlicesStay(ns, ns', c, next, end);
      FirstAndRest(ns, ss, c, isObj, kids);
      FirstAndRest(ns', ss', c, isObj, kids);
      KeyStays(ss, ss', ns[c].key, isObj, kids[0].key);
      hide Lays, LaysKids, KeyLaid;
      LaysStays(ns, ns', ss, ss', c, kids[0].val);
      LaysKidsStay(ns, ns', ss, ss', next, isObj, kids[1..]);
    }
  }

  /** Where the last of some kids starts. */
  function LastStart(c: nat, kids: seq<Kid>): nat
    requires kids != []
  {
    c + SizeOfKids(kids[..|kids| - 1])
  }

  /** The links a container's loop sets: the new kid's key, and the last one's sibling. */
  function Linked(ns: seq<Node>, c: nat, kids: seq<Kid>, child: nat): seq<Node>
    requires child <= |ns| && (kids != [] ==> LastStart(c, kids) < |ns|)
  {
    if kids == [] then ns
    else ns[LastStart(c, kids) := ns[LastStart(c, kids)].(nextSibling := child)]
  }

  lemma {:induction false} LastIsInside(c: nat, kids: seq<Kid>)
    requires kids != []
    ensures c <= LastStart(c, kids) < c + SizeOfKids(kids)
    ensures |kids| > 1 ==> LastStart(c + Size(kids[0].val), kids[1..]) == LastStart(c, kids)
  {
    var n := |kids| - 1;
    SizeOfMore(kids[..n], [kids[n]]);
    SizeOfOne(kids[n]);
    assert kids == kids[..n] + [kids[n]];
    if n > 0 {
      assert kids[1..][..n - 1] == kids[..n][1..];
    }
  }

  /** The link set is the last kid's, whether one counts from the first or the second. */
  lemma {:induction false} LinkedFromNext(ns: seq<Node>, c: nat, kids: seq<Kid>, child: nat)
    requires |kids| > 1 && child == c + SizeOfKids(kids) <= |ns| && LastStart(c, kids) < |ns|
    ensures var next := c + Size(kids[0].val);
            && child == next + SizeOfKids(kids[1..]) && LastStart(next, kids[1..]) < |ns|
            && Linked(ns, next, kids[1..], child) == Linked(ns, c, kids, child)
            && Linked(ns, c, kids, child)[..next] == ns[..next]
  {
    LastIsInside(c, kids);
    LastIsInside(c + Size(kids[0].val), kids[1..]);
  }

  lemma {:induction false} AppendToOne(ns: seq<Node>, ss: Text, c: nat, isObj: bool, first: Kid, kid: Kid)
    requires LaysKids(ns, ss, c, isObj, [first])
    requires var child := c + Size(first.val);
             Lays(ns, ss, child, kid.val) && KeyLaid(ss, ns[child].key, isObj, kid.key) && ns[child].nextSibling == -1
    ensures LaysKids(ns[c := ns[c].(nextSibling := c + Size(first.val))], ss, c, isObj, [first] + [kid])
  {
    var child := c + Size(first.val);
    var ns' := ns[c := ns[c].(nextSibling := child)];
    LaysStays(ns, ns', ss, ss, c, first.val);
    LaysStays(ns, ns', ss, ss, child, kid.val);
    assert ([first] + [kid])[1..] == [kid] && [kid][1..] == [];
  }

  lemma {:induction false} AppendToFew(ns: seq<Node>, ss: Text, c: nat, isObj: bool, kids: seq<Kid>, kid: Kid)
    requires |kids| <= 1 && LaysKids(ns, ss, c, isObj, kids)
    requires var child := c + SizeOfKids(kids);
             Lays(ns, ss, child, kid.val) && KeyLaid(ss, ns[child].key, isObj, kid.key) && ns[child].nextSibling == -1
    requires kids != [] ==> LastStart(c, kids) < |ns|
    ensures LaysKids(Linked(ns, c, kids, c + SizeOfKids(kids)), ss, c, isObj, kids + [kid])
  {
    if kids == [] {
      assert kids + [kid] == [kid] && [kid][1..] == [];
    } else {
      assert kids == [kids[0]] && kids[..0] == [];
      SizeOfOne(kids[0]);
      AppendToOne(ns, ss, c, isObj, kids[0], kid);
    }
  }

  /** One kid more at the end of a container: the loop's step. */
  lemma {:induction false} AppendKid(ns: seq<Node>, ss: Text, c: nat, isObj: bool, kids: seq<Kid>, kid: Kid)
    requires LaysKids(ns, ss, c, isObj, kids)
    requires var child := c + SizeOfKids(kids);
             Lays(ns, ss, child, kid.val) && KeyLaid(ss, ns[child].key, isObj, kid.key) && ns[child].nextSibling == -1
    requires kids != [] ==> LastStart(c, kids) < |ns|
    ensures LaysKids(Linked(ns, c, kids, c + SizeOfKids(kids)), ss, c, isObj, kids + [kid])
    decreases |kids|
  {
    var child := c + SizeOfKids(kids);
    if |kids| <= 1 {
      AppendToFew(ns, ss, c, isObj, kids, kid);
    } else {
      var next := c + Size(kids[0].val);
      LinkedFromNext(ns, c, kids, child);
      AppendKid(ns, ss, next, isObj, kids[1..], kid);
      BehindFirst(ns, Linked(ns, c, kids, child), ss, c, isObj, kids, kid);
    }
  }

  /** A change beyond the first of several kids leaves it as it was. */
  lemma {:induction false} BehindFirst(ns: seq<Node>, ns': seq<Node>, ss: Text, c: nat, isObj: bool, kids: seq<Kid>,
                                       kid: Kid)
    requires |kids| > 1 && LaysKids(ns, ss, c, isObj, kids)
    requires |ns'| == |ns| >= c + Size(kids[0].val) && ns'[..c + Size(kids[0].val)] == ns[..c + Size(kids[0].val)]
    requires LaysKids(ns', ss, c + Size(kids[0].val), isObj, kids[1..] + [kid])
    ensures LaysKids(ns', ss, c, isObj, kids + [kid])
  {
    var next := c + Size(kids[0].val);
    FirstAndRest(ns, ss, c, isObj, kids);
    FirstAndRest(ns', ss, c, isObj, kids + [kid]);
    hide Lays, LaysKids, KeyLaid, SizeOfKids;
    assert (kids + [kid])[1..] == kids[1..] + [kid];
    assert ns'[c] == ns'[..next][c] && ns[c] == ns[..next][c];
    assert ns'[c + 1..next] == ns'[..next][c + 1..] && ns[c + 1..next] == ns[..next][c + 1..];
    LaysStays(ns, ns', ss, ss, c, kids[0].val);
  }

  // --------------------------------------------------------- reading it back

  /** Where the k-th kid starts. */
  function KidStart(c: nat, kids: seq<Kid>, k: nat): nat
    requires k <= |kids|
  {
    c + SizeOfKids(kids[..k])
  }

  /** The k-th kid stands where it should, under its key, linked to the one after it. */
  lemma {:induction false} KidIsLaid(ns: seq<Node>, ss: Text, c: nat, isObj: bool, kids: seq<Kid>, k: nat)
    requires LaysKids(ns, ss, c, isObj, kids) && k < |kids|
    ensures var i := KidStart(c, kids, k);
            && Lays(ns, ss, i, kids[k].val)
            && KeyLaid(ss, ns[i].key, isObj, kids[k].key)
            && ns[i].nextSibling == (if k + 1 == |kids| then -1 else KidStart(c, kids, k + 1))
            && KidStart(c, kids, k + 1) == i + Size(kids[k].val)
    decreases |kids|
  {
    StartsFollow(c, kids, k);
    FirstAndRest(ns, ss, c, isObj, kids);
    hide Lays, LaysKids, KeyLaid, KidStart;
    if k > 0 {
      StartsFromNext(c, kids, k);
      StartsFromNext(c, kids, k + 1);
      KidIsLaid(ns, ss, c + Size(kids[0].val), isObj, kids[1..], k - 1);
    } else {
      NoneBefore(c, kids);
    }
  }

  lemma {:induction false} NoneBefore(c: nat, kids: seq<Kid>)
    ensures KidStart(c, kids, 0) == c
  {
    assert kids[..0] == [];
  }

  lemma {:induction false} StartsFollow(c: nat, kids: seq<Kid>, k: nat)
    requires k < |kids|
    ensures KidStart(c, kids, k + 1) == KidStart(c, kids, k) + Size(kids[k].val)
  {
    SizeOfMore(kids[..k], [kids[k]]);
    SizeOfOne(kids[k]);
    assert kids[..k + 1] == kids[..k] + [kids[k]];
  }

  lemma {:induction false} StartsFromNext(c: nat, kids: seq<Kid>, k: nat)
    requires 0 < k <= |kids|
    ensures KidStart(c, kids, k) == KidStart(c + Size(kids[0].val), kids[1..], k - 1)
  {
    assert kids[1..][..k - 1] == kids[..k][1..];
  }

  // ------------------------------------------------------------- the forest

  /** Does a link of node `m` lead to `k`? */
  predicate Leads(ns: seq<Node>, m: nat, k: nat)
    requires m < |ns|
  {
    ns[m].firstChild == k || ns[m].nextSibling == k
  }

  /** All links of a value's nodes lead forward, and stay inside it. */
  lemma {:induction false} LinksGoForward(ns: seq<Node>, ss: Text, n: nat, v: Json, m: nat, k: nat)
    requires Lays(ns, ss, n, v) && n <= m < n + Size(v) && (m == n ==> ns[m].nextSibling == -1) && Leads(ns, m, k)
    ensures m < k < n + Size(v)
    decreases Size(v), 0
  {
    if v.Group? && v.kids != [] && m > n {
      KidLinksGoForward(ns, ss, n + 1, v.isObj, v.kids, m, k);
    }
  }

  lemma {:induction false} KidLinksGoForward(ns: seq<Node>, ss: Text, c: nat, isObj: bool, kids: seq<Kid>, m: nat,
                                             k: nat)
    requires LaysKids(ns, ss, c, isObj, kids) && c <= m < c + SizeOfKids(kids) && m < |ns| && Leads(ns, m, k)
    ensures m < k < c + SizeOfKids(kids)
    decreases SizeOfKids(kids), 1
  {
    var next := c + Size(kids[0].val);
    if m >= next {
      KidLinksGoForward(ns, ss, next, isObj, kids[1..], m, k);
    } else if m > c || ns[m].nextSibling != k {
      var ns' := ns[c := ns[c].(nextSibling := -1)];
      LaysStays(ns, ns', ss, ss, c, kids[0].val);
      LinksGoForward(ns', ss, c, kids[0].val, m, k);
    }
  }
}
