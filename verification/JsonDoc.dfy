/** A parsed document and the walks over it: each gives the part of the value that its
    name says, because the nodes lay that value out. */
module JsonDoc {
  import opened Wrappers
  import opened Json
  import opened JsonLayout
  import opened JsonReader

  /** The nodes, and the string buffer with the address it stands at. Strings and keys are
      pointers into it; a node without a key has a null one. */
  datatype Doc = Doc(nodes: seq<Node>, strs: Text, base: nat)

  /** What the C string functions see of a string. */
  function CString(s: Text): (r: Text)
    ensures |r| <= |s| && NulFree(r)
    ensures |r| < |s| ==> s[|r|] == 0
    ensures r == s[..|r|]
  {
    if s == [] || s[0] == 0 then [] else [s[0]] + CString(s[1..])
  }

  /** A node with its offsets made pointers, once the buffer has stopped moving. */
  function Settled(n: Node, base: nat): Node {
    n.(str := if n.kind == KStr then base + n.str else n.str, key := if n.key != 0 then base + (n.key - 1) else n.key)
  }

  /** And back: the offsets that its pointers stand for. */
  function Unsettled(n: Node, base: nat): Node {
    n.(str := if n.kind == KStr && n.str >= base then n.str - base else n.str,
       key := if n.key >= base > 0 then n.key - base + 1 else n.key)
  }

  lemma {:induction false} SettledAndBack(n: Node, base: nat)
    requires base > 0
    ensures Unsettled(Settled(n, base), base) == n && Pointed(Settled(n, base), base)
  {
  }

  predicate Pointed(n: Node, base: nat) { (n.kind == KStr ==> n.str >= base) && (n.key == 0 || n.key >= base) }

  /** The nodes as the parse left them. */
  ghost function Offsets(d: Doc): (ns: seq<Node>)
    ensures |ns| == |d.nodes| && forall i :: 0 <= i < |ns| ==> ns[i] == Unsettled(d.nodes[i], d.base)
  {
    seq(|d.nodes|, i requires 0 <= i < |d.nodes| => Unsettled(d.nodes[i], d.base))
  }

  /** Does the document's node `n` stand for `v`? */
  ghost predicate Holds(d: Doc, n: nat, v: Json) {
    && d.base > 0 && (forall i :: 0 <= i < |d.nodes| ==> Pointed(d.nodes[i], d.base))
    && Lays(Offsets(d), d.strs, n, v)
  }

  /** Does `p` point at this string, ended by a NUL? */
  predicate PointsAt(d: Doc, p: nat, s: Text) { p >= d.base && StrAt(d.strs, p - d.base, s) }

  /** A document accepted whole, or nothing. `base` is where the string buffer is. */
  method ParseDocument(text: Text, base: nat) returns (d: Option<Doc>)
    requires base > 0
    ensures d.Some? == Parse(text).Got?
    ensures d.Some? ==>
              && Holds(d.value, 0, Parse(text).v)
              && |d.value.nodes| == Size(Parse(text).v)
              && d.value.nodes[0].nextSibling == -1
  {
    var p := new Reader(text);
    var root := p.ParseValue();
    if root != 0 {
      return None;
    }
    p.SkipSpace();
    if p.pos != |text| {
      return None;
    }
    ghost var was := p.Nodes();
    Settle(p, base);
    d := Some(Doc(p.nodes[..p.count], p.sbuf[..p.slen], base));
    BackToOffsets(was, d.value);
  }

  /** Offsets become pointers, node by node. */
  method Settle(p: Reader, base: nat)
    requires p.Valid() && base > 0
    modifies p.nodes
    ensures p.Valid() && |p.Nodes()| == |old(p.Nodes())|
    ensures forall i :: 0 <= i < p.count ==> p.Nodes()[i] == Settled(old(p.Nodes())[i], base)
  {
    var i := 0;
    while i < p.count
      invariant 0 <= i <= p.count && p.Valid()
      invariant forall j :: 0 <= j < i ==> p.nodes[j] == Settled(old(p.Nodes())[j], base)
      invariant forall j :: i <= j < p.count ==> p.nodes[j] == old(p.Nodes())[j]
    {
      var n := p.nodes[i];
      if n.kind == KStr {
        n := n.(str := base + n.str);
      }
      if n.key != 0 {
        n := n.(key := base + (n.key - 1));
      }
      p.nodes[i] := n;
      i := i + 1;
    }
  }

  lemma {:induction false} BackToOffsets(was: seq<Node>, d: Doc)
    requires d.base > 0 && |d.nodes| == |was|
    requires forall i :: 0 <= i < |was| ==> d.nodes[i] == Settled(was[i], d.base)
    ensures Offsets(d) == was && forall i :: 0 <= i < |d.nodes| ==> Pointed(d.nodes[i], d.base)
  {
    forall i | 0 <= i < |was| ensures Unsettled(d.nodes[i], d.base) == was[i] && Pointed(d.nodes[i], d.base) {
      SettledAndBack(was[i], d.base);
    }
  }

  // ------------------------------------------------------------------ walks

  predicate Present(d: Doc, i: int) { 0 <= i < |d.nodes| }

  predicate IsContainer(k: Kind) { k == KArr || k == KObj }

  /** A node or, past the last kid, -1. */
  function KidOrEnd(n: nat, kids: seq<Kid>, k: nat): int
    requires k <= |kids|
  {
    if k == |kids| then -1 else KidStart(n + 1, kids, k)
  }

  lemma {:induction false} FirstIsFirst(n: nat, kids: seq<Kid>)
    ensures KidOrEnd(n, kids, 0) == if kids == [] then -1 else n + 1
  {
    assert kids[..0] == [];
  }

  /** From one kid to the one after it. */
  lemma {:induction false} NextIsNext(d: Doc, n: nat, v: Json, k: nat)
    requires Holds(d, n, v) && v.Group? && k < |v.kids|
    ensures Present(d, KidOrEnd(n, v.kids, k)) && KidOrEnd(n, v.kids, k) > n
    ensures d.nodes[KidOrEnd(n, v.kids, k)].nextSibling == KidOrEnd(n, v.kids, k + 1)
    ensures KidStart(n + 1, v.kids, k + 1) > KidStart(n + 1, v.kids, k)
    ensures Holds(d, KidOrEnd(n, v.kids, k), v.kids[k].val)
  {
    KidIsLaid(Offsets(d), d.strs, n + 1, v.isObj, v.kids, k);
  }

  method AjFirst(d: Doc, container: int, ghost v: Json) returns (i: int)
    requires Present(d, container) ==> Holds(d, container, v)
    ensures i == if Present(d, container) && v.Group? then KidOrEnd(container, v.kids, 0) else -1
  {
    if !Present(d, container) || !IsContainer(d.nodes[container].kind) {
      return -1;
    }
    FirstIsFirst(container, v.kids);
    return d.nodes[container].firstChild;
  }

  /** The `index`-th kid. */
  method AjElem(d: Doc, arr: int, index: int, ghost v: Json) returns (i: int)
    requires Present(d, arr) ==> Holds(d, arr, v)
    ensures i == if Present(d, arr) && v.Group? && 0 <= index < |v.kids| then KidStart(arr + 1, v.kids, index) else -1
  {
    if !Present(d, arr) || !IsContainer(d.nodes[arr].kind) || index < 0 {
      return -1;
    }
    FirstIsFirst(arr, v.kids);
    i := d.nodes[arr].firstChild;
    var left := index;
    while i >= 0 && left > 0
      invariant 0 <= left <= index && (left < index ==> index - left <= |v.kids|)
      invariant i == if index - left <= |v.kids| then KidOrEnd(arr, v.kids, index - left) else -1
      decreases left
    {
      NextIsNext(d, arr, v, index - left);
      i := d.nodes[i].nextSibling;
      left := left - 1;
    }
  }

  method AjCount(d: Doc, container: int, ghost v: Json) returns (n: int)
    requires Present(d, container) ==> Holds(d, container, v)
    ensures n == if Present(d, container) && v.Group? then |v.kids| else 0
  {
    if !Present(d, container) || !IsContainer(d.nodes[container].kind) {
      return 0;
    }
    FirstIsFirst(container, v.kids);
    n := 0;
    var i := d.nodes[container].firstChild;
    while i >= 0
      invariant 0 <= n <= |v.kids| && i == KidOrEnd(container, v.kids, n)
      decreases |v.kids| - n
    {
      NextIsNext(d, container, v, n);
      i := d.nodes[i].nextSibling;
      n := n + 1;
    }
  }

  /** The bytes at `off` are a C string, up to its NUL. */
  ghost predicate StandsAt(strs: Text, off: nat, c: Text) {
    && NulFree(c) && off + |c| < |strs| && strs[off + |c|] == 0
    && forall j {:trigger c[j]} :: 0 <= j < |c| ==> strs[off + j] == c[j]
  }

  lemma {:induction false} CStringStands(ss: Text, off: nat, s: Text)
    requires StrAt(ss, off, s)
    ensures StandsAt(ss, off, CString(s))
  {
    forall j | 0 <= j < |s| ensures ss[off + j] == s[j] {
      assert ss[off + j] == ss[off..off + |s|][j];
    }
  }

  /** One byte further on, and the byte where the two part. */
  lemma {:induction false} SameSoFar(strs: Text, off: nat, c: Text, key: Text, j: nat)
    requires StandsAt(strs, off, c) && NulFree(key) && j <= |c| && j <= |key| && c[..j] == key[..j]
    ensures j < |key| && strs[off + j] == key[j] ==> j < |c| && c[..j + 1] == key[..j + 1]
    ensures j == |key| || strs[off + j] != key[j] ==> (j == |key| && strs[off + j] == 0 <==> c == key)
  {
    assert j < |key| ==> key[j] != 0;
    if j < |c| {
      assert strs[off + j] == c[j] != 0;
      assert j < |key| && c[j] == key[j] ==> c[..j + 1] == c[..j] + [c[j]] == key[..j + 1];
    } else {
      assert c == c[..j];
    }
  }

  /** Comparing the string at a pointer with a C string. */
  method StrEq(d: Doc, p: nat, key: Text, ghost s: Text) returns (eq: bool)
    requires PointsAt(d, p, s) && NulFree(key)
    ensures eq == (CString(s) == key)
  {
    ghost var c := CString(s);
    var off := p - d.base;
    CStringStands(d.strs, off, s);
    hide CString, StrAt, NulFree;
    var j := 0;
    while j < |key| && d.strs[off + j] == key[j]
      invariant 0 <= j <= |key| && j <= |c| && c[..j] == key[..j]
      decreases |key| - j
    {
      SameSoFar(d.strs, off, c, key, j);
      j := j + 1;
    }
    SameSoFar(d.strs, off, c, key, j);
    eq := j == |key| && d.strs[off + j] == 0;
  }

  /** The first kid from the k-th on with that key, or the number of kids. */
  function FirstKey(kids: seq<Kid>, key: Text, k: nat): (r: nat)
    requires k <= |kids|
    ensures k <= r <= |kids|
    ensures r < |kids| ==> CString(kids[r].key) == key
    ensures forall j :: k <= j < r ==> CString(kids[j].key) != key
    decreases |kids| - k
  {
    if k == |kids| || CString(kids[k].key) == key then k else FirstKey(kids, key, k + 1)
  }

  /** The k-th member has its key, and leads to the next. */
  lemma {:induction false} MemberIsLaid(d: Doc, n: nat, v: Json, k: nat)
    requires Holds(d, n, v) && v.Group? && v.isObj && k < |v.kids|
    ensures var i := KidOrEnd(n, v.kids, k);
            && Present(d, i) && d.nodes[i].key != 0 && PointsAt(d, d.nodes[i].key, v.kids[k].key)
            && d.nodes[i].nextSibling == KidOrEnd(n, v.kids, k + 1)
  {
    NextIsNext(d, n, v, k);
    KidIsLaid(Offsets(d), d.strs, n + 1, true, v.kids, k);
    hide Lays, LaysKids, KidStart;
  }

  lemma {:induction false} KeyFound(kids: seq<Kid>, key: Text, k: nat)
    requires k <= |kids|
    ensures FirstKey(kids, key, k) ==
            if k == |kids| || CString(kids[k].key) == key then k else FirstKey(kids, key, k + 1)
  {
  }

  /** The member of an object under `key`: of several, the first. */
  method AjMember(d: Doc, obj: int, key: Text, ghost v: Json) returns (i: int)
    requires Present(d, obj) ==> Holds(d, obj, v)
    requires NulFree(key)
    ensures i == if Present(d, obj) && v.Group? && v.isObj then KidOrEnd(obj, v.kids, FirstKey(v.kids, key, 0)) else -1
  {
    if !Present(d, obj) || d.nodes[obj].kind != KObj {
      return -1;
    }
    FirstIsFirst(obj, v.kids);
    i := d.nodes[obj].firstChild;
    ghost var k := 0;
    hide Holds, PointsAt, FirstKey;
    while i >= 0
      invariant 0 <= k <= |v.kids| && i == KidOrEnd(obj, v.kids, k)
      invariant FirstKey(v.kids, key, 0) == FirstKey(v.kids, key, k)
      decreases |v.kids| - k
    {
      MemberIsLaid(d, obj, v, k);
      KeyFound(v.kids, key, k);
      if d.nodes[i].key != 0 {
        var eq := StrEq(d, d.nodes[i].key, key, v.kids[k].key);
        if eq {
          return;
        }
      }
      i := d.nodes[i].nextSibling;
      k := k + 1;
    }
  }

  /** A number, or a boolean as 0 or 1. */
  method AjI64(d: Doc, node: int, dflt: int, ghost v: Json) returns (n: int)
    requires Present(d, node) ==> Holds(d, node, v)
    ensures n == if Present(d, node) && v.Num? then v.n
                 else if Present(d, node) && v.Bool? then (if v.b then 1 else 0)
                 else dflt
  {
    if Present(d, node) && (d.nodes[node].kind == KNum || d.nodes[node].kind == KBool) {
      return d.nodes[node].num;
    }
    return dflt;
  }

  /** A pointer to a string's text, which is there whole and ended by a NUL. */
  method AjStr(d: Doc, node: int, dflt: nat, ghost v: Json) returns (p: nat)
    requires Present(d, node) ==> Holds(d, node, v)
    ensures if Present(d, node) && v.Str? then PointsAt(d, p, v.s) else p == dflt
  {
    if Present(d, node) && d.nodes[node].kind == KStr {
      return d.nodes[node].str;
    }
    return dflt;
  }

  // ------------------------------------------------------------- the forest

  /** The node whose child or sibling link leads to node `k` of the value laid at `n`. */
  function LinkSource(n: nat, v: Json, k: nat): (m: nat)
    requires n < k < n + Size(v)
    ensures n <= m < k
    decreases Size(v), 0
  {
    LinkSourceAmong(n, n + 1, v.kids, k)
  }

  /** The same among kids laid from `c` on, the first linked from `p`. */
  function LinkSourceAmong(p: nat, c: nat, kids: seq<Kid>, k: nat): (m: nat)
    requires p < c <= k < c + SizeOfKids(kids)
    ensures p <= m < k && (m < c ==> m == p)
    decreases SizeOfKids(kids), 1
  {
    var next := c + Size(kids[0].val);
    if k == c then p
    else if k < next then LinkSource(c, kids[0].val, k)
    else LinkSourceAmong(c, next, kids[1..], k)
  }

  /** Every node but the root is led to by exactly one link of one node. */
  lemma {:induction false} OneLinkIn(ns: seq<Node>, ss: Text, n: nat, v: Json, m: nat, k: nat)
    requires Lays(ns, ss, n, v) && ns[n].nextSibling == -1
    requires n <= m < n + Size(v) && n < k < n + Size(v)
    ensures Leads(ns, m, k) <==> m == LinkSource(n, v, k)
    decreases Size(v), 0
  {
    if m == n {
      assert k > n + 1 ==> LinkSource(n, v, k) > n by {
        if k > n + 1 {
          SourceIsInside(n, n + 1, v.kids, k);
        }
      }
    } else {
      OneLinkAmong(ns, ss, n, n + 1, v.isObj, v.kids, m, k);
    }
  }

  lemma {:induction false} SourceIsInside(p: nat, c: nat, kids: seq<Kid>, k: nat)
    requires p < c < k < c + SizeOfKids(kids)
    ensures LinkSourceAmong(p, c, kids, k) >= c
  {
  }

  lemma {:induction false} OneLinkAmong(ns: seq<Node>, ss: Text, p: nat, c: nat, isObj: bool, kids: seq<Kid>, m: nat,
                                        k: nat)
    requires LaysKids(ns, ss, c, isObj, kids) && c + SizeOfKids(kids) <= |ns|
    requires p < c <= m < c + SizeOfKids(kids) && c <= k < c + SizeOfKids(kids)
    ensures Leads(ns, m, k) <==> m == LinkSourceAmong(p, c, kids, k)
    decreases SizeOfKids(kids), 2
  {
    var next := c + Size(kids[0].val);
    if Leads(ns, m, k) {
      KidLinksGoForward(ns, ss, c, isObj, kids, m, k);
    }
    if k == c {
    } else if m >= next {
      if k >= next {
        OneLinkAmong(ns, ss, c, next, isObj, kids[1..], m, k);
      }
    } else {
      OneLinkInFirst(ns, ss, p, c, isObj, kids, m, k);
    }
  }

  /** The same where `m` is among the first kid's nodes. */
  lemma {:induction false} OneLinkInFirst(ns: seq<Node>, ss: Text, p: nat, c: nat, isObj: bool, kids: seq<Kid>, m: nat,
                                          k: nat)
    requires LaysKids(ns, ss, c, isObj, kids) && c + SizeOfKids(kids) <= |ns|
    requires p < c <= m < c + SizeOfKids(kids) && c < k < c + SizeOfKids(kids) && m < c + Size(kids[0].val)
    ensures Leads(ns, m, k) <==> m == LinkSourceAmong(p, c, kids, k)
    decreases SizeOfKids(kids), 1
  {
    var next := c + Size(kids[0].val);
    var ns' := ns[c := ns[c].(nextSibling := -1)];
    LaysStays(ns, ns', ss, ss, c, kids[0].val);
    if k < next {
      OneLinkIn(ns', ss, c, kids[0].val, m, k);
    } else {
      if Leads(ns', m, k) {
        LinksGoForward(ns', ss, c, kids[0].val, m, k);
      }
      SourceBeyondFirst(p, c, kids, k);
    }
  }

  lemma {:induction false} SourceBeyondFirst(p: nat, c: nat, kids: seq<Kid>, k: nat)
    requires p < c <= k < c + SizeOfKids(kids) && k >= c + Size(kids[0].val)
    ensures var m := LinkSourceAmong(p, c, kids, k);
            if k == c + Size(kids[0].val) then m == c else m >= c + Size(kids[0].val)
  {
    var next := c + Size(kids[0].val);
    if k > next {
      SourceIsInside(c, next, kids[1..], k);
    }
  }
}
