/** The entity tree of kmbio/PDB/core/entity.py as values: an arena mapping
    node handles to records, the invariants the `Entity` class keeps, and the
    pure state transitions its mutating methods perform. The class that
    performs them in place is `Entities.Tree`. */
module EntityModel {
  import opened Wrappers

  /** Handle of an entity in the arena (stands for a Python object reference). */
  type Node = nat

  /** Entity ids: Structure and Chain ids and atom names are strings, Model ids
      are integers, Residue ids are (hetero flag, sequence number, insertion code). */
  datatype Id =
    | Name(name: string)
    | Serial(serial: int)
    | ResidueId(hetero: string, seqNum: int, icode: string)

  datatype Level = StructureLevel | ModelLevel | ChainLevel | ResidueLevel | AtomLevel

  /** One entity: `_id`, `parent`, `_child_list`, `_child_dict`, `xtra`, plus the
      level and, for Models, `serial_num`. The cached `_full_id` is kept apart
      (see `Entities.Tree.caches`). */
  datatype NodeRec = NodeRec(
    id: Id,
    level: Level,
    serialNum: Option<Id>,
    xtra: map<string, string>,
    parent: Option<Node>,
    children: seq<Node>,
    dict: map<Id, Node>)

  type Nodes = map<Node, NodeRec>

  /** Ghost height of every node: a parent is strictly higher than its child,
      so following `parent` links always reaches a root. */
  type Ranks = map<Node, nat>

  /** `c`'s parent, if any, exists and is higher than `c`. */
  ghost predicate RankOk(m: Nodes, rank: Ranks, c: Node)
    requires c in m && c in rank
  {
    m[c].parent.Some? ==> m[c].parent.value in m && m[c].parent.value in rank && rank[c] < rank[m[c].parent.value]
  }

  ghost predicate Ranked(m: Nodes, rank: Ranks) {
    && rank.Keys == m.Keys
    && forall c {:trigger RankOk(m, rank, c)} :: c in m ==> RankOk(m, rank, c)
  }

  /** The ordered list and the id map of node `n` agree, and each listed child
      points back at `n`. */
  ghost predicate ChildrenOk(m: Nodes, n: Node)
    requires n in m
  {
    var ch, d := m[n].children, m[n].dict;
    && (forall i, j :: 0 <= i < j < |ch| ==> ch[i] != ch[j])
    && (forall i :: 0 <= i < |ch| ==>
          ch[i] in m && m[ch[i]].parent == Some(n) && m[ch[i]].id in d && d[m[ch[i]].id] == ch[i])
    && (forall k :: k in d ==> d[k] in m && m[d[k]].id == k && d[k] in ch)
  }

  /** A parent pointer is backed by membership in that parent's list. */
  ghost predicate ParentOk(m: Nodes, n: Node)
    requires n in m
  {
    match m[n].parent
    case None => true
    case Some(p) => p in m && n in m[p].children
  }

  ghost predicate NodeOk(m: Nodes, n: Node)
    requires n in m
  {
    ChildrenOk(m, n) && ParentOk(m, n)
  }

  ghost predicate Valid(m: Nodes, rank: Ranks) {
    && Ranked(m, rank)
    && forall n {:trigger NodeOk(m, n)} :: n in m ==> NodeOk(m, n)
  }

  lemma ChildRanks(m: Nodes, rank: Ranks, n: Node)
    requires Valid(m, rank) && n in m
    ensures forall x :: x in m[n].children ==> x in m && m[x].parent == Some(n) && rank[x] < rank[n]
  {
    assert NodeOk(m, n);
    forall x | x in m[n].children ensures x in m && m[x].parent == Some(n) && rank[x] < rank[n] {
      assert RankOk(m, rank, x);
    }
  }

  ghost function Above(rank: Ranks, n: Node): set<Node>
    requires n in rank
  {
    set k | k in rank && rank[k] >= rank[n]
  }

  lemma AboveShrinks(rank: Ranks, n: Node, p: Node)
    requires n in rank && p in rank && rank[n] < rank[p]
    ensures Above(rank, p) < Above(rank, n)
  {
    assert n in Above(rank, n);
  }

  /** The ids from the root down to `n`: the value `Entity.full_id` computes. */
  ghost function FullIdOf(m: Nodes, rank: Ranks, n: Node): (f: seq<Id>)
    requires Ranked(m, rank) && n in m
    ensures |f| >= 1 && f[|f| - 1] == m[n].id
    decreases Above(rank, n)
  {
    match m[n].parent
    case None => [m[n].id]
    case Some(p) =>
      assert RankOk(m, rank, n);
      AboveShrinks(rank, n, p);
      FullIdOf(m, rank, p) + [m[n].id]
  }

  /** `a` is `n` or lies on `n`'s parent chain. */
  ghost predicate AncestorOrSelf(m: Nodes, rank: Ranks, a: Node, n: Node)
    requires Ranked(m, rank) && n in m
    decreases Above(rank, n)
  {
    || a == n
    || match m[n].parent
       case None => false
       case Some(p) =>
         assert RankOk(m, rank, n);
         AboveShrinks(rank, n, p);
         AncestorOrSelf(m, rank, a, p)
  }

  /** `n` and every entity reachable from it through child lists: the nodes
      `_reset_full_id` visits. */
  ghost function Desc(m: Nodes, rank: Ranks, n: Node): (ds: set<Node>)
    requires Valid(m, rank) && n in m
    ensures n in ds && forall x :: x in ds ==> x in m
    decreases rank[n], |m[n].children| + 1
  {
    {n} + DescUpTo(m, rank, n, |m[n].children|)
  }

  /** The union of `Desc` over the first `j` children of `n`. */
  ghost function DescUpTo(m: Nodes, rank: Ranks, n: Node, j: nat): (ds: set<Node>)
    requires Valid(m, rank) && n in m && j <= |m[n].children|
    ensures forall x :: x in ds ==> x in m
    decreases rank[n], j
  {
    if j == 0 then {}
    else
      ChildRanks(m, rank, n);
      DescUpTo(m, rank, n, j - 1) + Desc(m, rank, m[n].children[j - 1])
  }

  /** Everything `Entity.copy` reproduces: the subtree's ids, levels, serial
      numbers, xtra maps and child order (not parents, not caches). */
  datatype Shape = Shape(
    id: Id,
    level: Level,
    serialNum: Option<Id>,
    xtra: map<string, string>,
    children: seq<Shape>)

  ghost function ShapeOf(m: Nodes, rank: Ranks, n: Node): Shape
    requires Valid(m, rank) && n in m
    decreases rank[n]
  {
    var r := m[n];
    ChildRanks(m, rank, n);
    Shape(r.id, r.level, r.serialNum, r.xtra,
          seq(|r.children|, i requires 0 <= i < |r.children| => ShapeOf(m, rank, r.children[i])))
  }

  // ---------------------------------------------------------------------
  // Transitions

  /** The ids of the batch are pairwise distinct. */
  ghost predicate DistinctIds(m: Nodes, es: seq<Node>)
    requires forall c :: c in es ==> c in m
  {
    forall i, j :: 0 <= i < j < |es| ==> m[es[i]].id != m[es[j]].id
  }

  /** `{c.id: c for c in entities}` */
  function IdMap(m: Nodes, es: seq<Node>): (d: map<Id, Node>)
    requires forall c :: c in es ==> c in m
    requires DistinctIds(m, es)
    ensures forall k :: k in d ==> d[k] in es && m[d[k]].id == k
    ensures forall i :: 0 <= i < |es| ==> m[es[i]].id in d && d[m[es[i]].id] == es[i]
  {
    if es == [] then map[]
    else
      var init, last := es[..|es| - 1], es[|es| - 1];
      assert forall i :: 0 <= i < |init| ==> init[i] == es[i];
      assert forall c :: c in init ==> c in es;
      assert DistinctIds(m, init);
      assert forall i :: 0 <= i < |init| ==> m[init[i]].id != m[last].id;
      IdMap(m, init)[m[last].id := last]
  }

  function SetParents(m: Nodes, es: seq<Node>, p: Option<Node>): Nodes {
    map k | k in m :: if k in es then m[k].(parent := p) else m[k]
  }

  /** Python's clamping of a slice position `pos` into a list of length `len`. */
  function ClampPos(pos: int, len: nat): (p: nat)
    ensures p <= len
    ensures 0 <= pos <= len ==> p == pos
    ensures pos < 0 && len + pos >= 0 ==> p == len + pos
  {
    if pos < 0 then (if len + pos < 0 then 0 else len + pos)
    else if pos > len then len
    else pos
  }

  /** The new state after `insert(pos, es)` (and `add(es)`, with `p` the list
      length) on node `n` once validation passed. */
  function AttachAt(m: Nodes, n: Node, p: nat, es: seq<Node>): Nodes
    requires n in m && p <= |m[n].children|
    requires forall c :: c in es ==> c in m
    requires DistinctIds(m, es)
  {
    var m1 := SetParents(m, es, Some(n));
    var ch := m[n].children;
    m1[n := m[n].(children := ch[..p] + es + ch[p..], dict := m[n].dict + IdMap(m, es))]
  }

  ghost predicate Distinct<T>(s: seq<T>) {
    forall i, j :: 0 <= i < j < |s| ==> s[i] != s[j]
  }

  lemma SpliceAt<T>(a: seq<T>, p: nat, es: seq<T>, i: nat)
    requires p <= |a| && i < |a| + |es|
    ensures var s := a[..p] + es + a[p..];
      && |s| == |a| + |es|
      && (i < p ==> s[i] == a[i])
      && (p <= i < p + |es| ==> s[i] == es[i - p])
      && (p + |es| <= i ==> s[i] == a[i - |es|])
  {
  }

  lemma DistinctSplice<T>(a: seq<T>, p: nat, es: seq<T>)
    requires p <= |a| && Distinct(a) && Distinct(es)
    requires forall x :: x in es ==> x !in a
    ensures Distinct(a[..p] + es + a[p..])
  {
    var s := a[..p] + es + a[p..];
    forall i, j | 0 <= i < j < |s| ensures s[i] != s[j] {
      SpliceAt(a, p, es, i);
      SpliceAt(a, p, es, j);
      if p <= i < p + |es| && !(p <= j < p + |es|) {
        assert s[i] in es;
      } else if p <= j < p + |es| && !(p <= i < p + |es|) {
        assert s[j] in es;
      }
    }
  }

  lemma AncestorStep(m: Nodes, rank: Ranks, a: Node, n: Node)
    requires Ranked(m, rank) && n in m && a in m && m[a].parent.Some?
    requires AncestorOrSelf(m, rank, a, n)
    ensures AncestorOrSelf(m, rank, m[a].parent.value, n)
    decreases Above(rank, n)
  {
    var p := m[a].parent.value;
    assert RankOk(m, rank, a);
    if a == n {
      assert AncestorOrSelf(m, rank, p, p);
    } else {
      var q := m[n].parent.value;
      assert RankOk(m, rank, n);
      AboveShrinks(rank, n, q);
      AncestorStep(m, rank, a, q);
    }
  }

  ghost function MaxRank(rank: Ranks, es: seq<Node>): (r: nat)
    requires forall c :: c in es ==> c in rank
    ensures forall c :: c in es ==> rank[c] <= r
  {
    if es == [] then 0
    else
      var t := MaxRank(rank, es[1..]);
      if rank[es[0]] > t then rank[es[0]] else t
  }

  /** New heights after hanging roots of height below `k` under `n`: `n` and
      its ancestors move up by `k`. */
  ghost function Lift(m: Nodes, rank: Ranks, n: Node, k: nat): Ranks
    requires Ranked(m, rank) && n in m
  {
    map x | x in rank :: if AncestorOrSelf(m, rank, x, n) then rank[x] + k else rank[x]
  }

  /** What `add` and `insert` need of a batch besides distinct, unused ids:
      every entity exists, is detached, and is neither the target nor one of
      its ancestors. */
  ghost predicate Attachable(m: Nodes, rank: Ranks, n: Node, es: seq<Node>)
    requires Ranked(m, rank) && n in m
  {
    forall c :: c in es ==> c in m && m[c].parent == None && !AncestorOrSelf(m, rank, c, n)
  }

  /** `m2` is `m` after hanging `es` under `n` with child list `ch2` and id map `d2`. */
  ghost predicate AttachedTo(m: Nodes, m2: Nodes, n: Node, es: seq<Node>, ch2: seq<Node>, d2: map<Id, Node>)
    requires n in m
  {
    && m2.Keys == m.Keys
    && m2[n] == m[n].(children := ch2, dict := d2)
    && forall x :: x in m && x != n ==> m2[x] == if x in es then m[x].(parent := Some(n)) else m[x]
  }

  lemma AttachAtFacts(m: Nodes, n: Node, p: nat, es: seq<Node>)
    requires n in m && p <= |m[n].children|
    requires forall c :: c in es ==> c in m
    requires DistinctIds(m, es) && n !in es
    ensures AttachedTo(m, AttachAt(m, n, p, es), n, es,
                       m[n].children[..p] + es + m[n].children[p..], m[n].dict + IdMap(m, es))
  {
  }

  lemma LiftFacts(m: Nodes, rank: Ranks, n: Node, k: nat)
    requires Ranked(m, rank) && n in m
    ensures var r2 := Lift(m, rank, n, k);
      && r2.Keys == rank.Keys
      && forall x :: x in m ==> r2[x] == if AncestorOrSelf(m, rank, x, n) then rank[x] + k else rank[x]
  {
  }

  lemma AttachRanked(m: Nodes, rank: Ranks, n: Node, es: seq<Node>, m2: Nodes, r2: Ranks, k: nat,
                     ch2: seq<Node>, d2: map<Id, Node>)
    requires Ranked(m, rank) && n in m
    requires Attachable(m, rank, n, es)
    requires forall c :: c in es ==> rank[c] < k
    requires AttachedTo(m, m2, n, es, ch2, d2)
    requires r2.Keys == rank.Keys
    requires forall x :: x in m ==> r2[x] == if AncestorOrSelf(m, rank, x, n) then rank[x] + k else rank[x]
    ensures Ranked(m2, r2)
  {
    assert AncestorOrSelf(m, rank, n, n);
    forall c | c in m2 ensures RankOk(m2, r2, c) {
      assert RankOk(m, rank, c);
      if c !in es && m[c].parent.Some? && AncestorOrSelf(m, rank, c, n) {
        AncestorStep(m, rank, c, n);
      }
    }
  }

  lemma AttachTargetOk(m: Nodes, rank: Ranks, n: Node, p: nat, es: seq<Node>, m2: Nodes)
    requires Valid(m, rank) && n in m && p <= |m[n].children|
    requires Attachable(m, rank, n, es) && DistinctIds(m, es)
    requires forall c :: c in es ==> m[c].id !in m[n].dict
    requires AttachedTo(m, m2, n, es, m[n].children[..p] + es + m[n].children[p..], m[n].dict + IdMap(m, es))
    ensures NodeOk(m2, n)
  {
    AttachTargetDistinct(m, rank, n, p, es, m2);
    AttachTargetList(m, rank, n, p, es, m2);
    AttachTargetDict(m, rank, n, p, es, m2);
    assert NodeOk(m, n);
    assert RankOk(m, rank, n);
  }

  lemma AttachTargetDistinct(m: Nodes, rank: Ranks, n: Node, p: nat, es: seq<Node>, m2: Nodes)
    requires Valid(m, rank) && n in m && p <= |m[n].children|
    requires Attachable(m, rank, n, es) && DistinctIds(m, es)
    requires forall c :: c in es ==> m[c].id !in m[n].dict
    requires AttachedTo(m, m2, n, es, m[n].children[..p] + es + m[n].children[p..], m[n].dict + IdMap(m, es))
    ensures Distinct(m2[n].children)
  {
    var ch := m[n].children;
    assert NodeOk(m, n);
    assert forall x :: x in es ==> x !in ch;
    assert Distinct(es) by {
      forall i, j | 0 <= i < j < |es| ensures es[i] != es[j] {
        assert m[es[i]].id != m[es[j]].id;
      }
    }
    DistinctSplice(ch, p, es);
  }

  lemma AttachTargetList(m: Nodes, rank: Ranks, n: Node, p: nat, es: seq<Node>, m2: Nodes)
    requires Valid(m, rank) && n in m && p <= |m[n].children|
    requires Attachable(m, rank, n, es) && DistinctIds(m, es)
    requires forall c :: c in es ==> m[c].id !in m[n].dict
    requires AttachedTo(m, m2, n, es, m[n].children[..p] + es + m[n].children[p..], m[n].dict + IdMap(m, es))
    ensures var ch2, d2 := m2[n].children, m2[n].dict;
      forall i :: 0 <= i < |ch2| ==>
        ch2[i] in m2 && m2[ch2[i]].parent == Some(n) && m2[ch2[i]].id in d2 && d2[m2[ch2[i]].id] == ch2[i]
  {
    var ch, ch2, d2 := m[n].children, m2[n].children, m2[n].dict;
    assert NodeOk(m, n);
    forall i | 0 <= i < |ch2|
      ensures ch2[i] in m2 && m2[ch2[i]].parent == Some(n) && m2[ch2[i]].id in d2 && d2[m2[ch2[i]].id] == ch2[i]
    {
      SpliceAt(ch, p, es, i);
      var x := ch2[i];
      if p <= i < p + |es| {
        assert x == es[i - p];
      } else {
        assert x in ch;
        assert m[x].id in m[n].dict;
      }
    }
  }

  lemma AttachTargetDict(m: Nodes, rank: Ranks, n: Node, p: nat, es: seq<Node>, m2: Nodes)
    requires Valid(m, rank) && n in m && p <= |m[n].children|
    requires Attachable(m, rank, n, es) && DistinctIds(m, es)
    requires forall c :: c in es ==> m[c].id !in m[n].dict
    requires AttachedTo(m, m2, n, es, m[n].children[..p] + es + m[n].children[p..], m[n].dict + IdMap(m, es))
    ensures var ch2, d2 := m2[n].children, m2[n].dict;
      forall k :: k in d2 ==> d2[k] in m2 && m2[d2[k]].id == k && d2[k] in ch2
  {
    var ch, ch2, d2 := m[n].children, m2[n].children, m2[n].dict;
    var idm := IdMap(m, es);
    assert NodeOk(m, n);
    assert ch2 == ch[..p] + es + ch[p..];
    forall k | k in d2 ensures d2[k] in m2 && m2[d2[k]].id == k && d2[k] in ch2 {
      if k !in idm {
        assert m[n].dict[k] in ch;
        assert ch == ch[..p] + ch[p..];
      }
    }
  }

  lemma AttachOtherOk(m: Nodes, rank: Ranks, n: Node, es: seq<Node>, m2: Nodes, ch2: seq<Node>,
                      d2: map<Id, Node>, k: Node)
    requires Valid(m, rank) && n in m
    requires Attachable(m, rank, n, es)
    requires AttachedTo(m, m2, n, es, ch2, d2)
    requires forall x :: x in m[n].children ==> x in ch2
    requires forall x :: x in es ==> x in ch2
    requires k in m && k != n
    ensures NodeOk(m2, k)
  {
    assert NodeOk(m, k);
    var ch := m[k].children;
    forall x | x in ch ensures x in m2 && m2[x].parent == m[x].parent && m2[x].id == m[x].id {
      assert x !in es;
    }
    assert ChildrenOk(m2, k);
    match m2[k].parent
    case None =>
    case Some(q) =>
      if k !in es {
        assert q in m && k in m[q].children;
        if q != n {
          assert m2[q].children == m[q].children;
        }
      }
  }

  lemma AttachValidAbstract(m: Nodes, rank: Ranks, n: Node, p: nat, es: seq<Node>, m2: Nodes, r2: Ranks, k: nat)
    requires Valid(m, rank) && n in m && p <= |m[n].children|
    requires Attachable(m, rank, n, es) && DistinctIds(m, es)
    requires forall c :: c in es ==> m[c].id !in m[n].dict
    requires forall c :: c in es ==> rank[c] < k
    requires AttachedTo(m, m2, n, es, m[n].children[..p] + es + m[n].children[p..], m[n].dict + IdMap(m, es))
    requires r2.Keys == rank.Keys
    requires forall x :: x in m ==> r2[x] == if AncestorOrSelf(m, rank, x, n) then rank[x] + k else rank[x]
    ensures Valid(m2, r2)
  {
    var ch := m[n].children;
    var ch2 := ch[..p] + es + ch[p..];
    var d2 := m[n].dict + IdMap(m, es);
    AttachRanked(m, rank, n, es, m2, r2, k, ch2, d2);
    assert forall x :: x in ch ==> x in ch2 by {
      assert ch == ch[..p] + ch[p..];
    }
    forall j | j in m2 ensures NodeOk(m2, j) {
      if j == n {
        AttachTargetOk(m, rank, n, p, es, m2);
      } else {
        AttachOtherOk(m, rank, n, es, m2, ch2, d2, j);
      }
    }
  }

  lemma AttachValid(m: Nodes, rank: Ranks, n: Node, p: nat, es: seq<Node>)
    requires Valid(m, rank) && n in m && p <= |m[n].children|
    requires Attachable(m, rank, n, es) && DistinctIds(m, es)
    requires forall c :: c in es ==> m[c].id !in m[n].dict
    ensures Valid(AttachAt(m, n, p, es), Lift(m, rank, n, MaxRank(rank, es) + 1))
  {
    var k := MaxRank(rank, es) + 1;
    assert AncestorOrSelf(m, rank, n, n);
    AttachAtFacts(m, n, p, es);
    LiftFacts(m, rank, n, k);
    AttachValidAbstract(m, rank, n, p, es, AttachAt(m, n, p, es), Lift(m, rank, n, k), k);
  }

  /** Python's `list.remove(x)`: drop the first occurrence of `x`. */
  function RemoveFirst<T(==)>(s: seq<T>, x: T): (r: seq<T>)
    ensures x !in s ==> r == s
    ensures x in s ==> |r| == |s| - 1 && multiset(r) == multiset(s) - multiset{x}
  {
    if s == [] then []
    else
      assert s == [s[0]] + s[1..];
      if s[0] == x then s[1..] else [s[0]] + RemoveFirst(s[1..], x)
  }

  lemma {:induction false} RemoveFirstAt<T>(s: seq<T>, i: nat, x: T)
    requires i < |s| && s[i] == x && x !in s[..i]
    ensures RemoveFirst(s, x) == s[..i] + s[i + 1..]
  {
    if i > 0 {
      assert s[0] in s[..i];
      var t := s[1..];
      assert s[..i] == [s[0]] + t[..i - 1];
      RemoveFirstAt(t, i - 1, x);
      assert s == [s[0]] + t;
      assert RemoveFirst(s, x) == [s[0]] + RemoveFirst(t, x);
      assert t[i..] == s[i + 1..];
    }
  }

  /** The new state after `pop(id)` / `del self[id]` removed child `c` of `n`. */
  function DetachChild(m: Nodes, n: Node, c: Node): (m2: Nodes)
    requires n in m && c in m
    ensures m2.Keys == m.Keys
  {
    var r := m[n];
    var m1 := m[n := r.(children := RemoveFirst(r.children, c), dict := r.dict - {m[c].id})];
    m1[c := m1[c].(parent := None)]
  }

  ghost predicate DetachedFrom(m: Nodes, m2: Nodes, n: Node, c: Node, ch2: seq<Node>, d2: map<Id, Node>)
    requires n in m && c in m
  {
    && m2.Keys == m.Keys
    && m2[n] == m[n].(children := ch2, dict := d2)
    && m2[c] == m[c].(parent := None)
    && forall x :: x in m && x != n && x != c ==> m2[x] == m[x]
  }

  /** Removing position `i` of a list of distinct elements keeps it distinct
      and drops exactly the element at `i`. */
  lemma RemoveAtFacts<T>(s: seq<T>, i: nat)
    requires Distinct(s) && i < |s|
    ensures Distinct(s[..i] + s[i + 1..])
    ensures forall x :: x in s[..i] + s[i + 1..] <==> x in s && x != s[i]
  {
    var r := s[..i] + s[i + 1..];
    forall a, b | 0 <= a < b < |r| ensures r[a] != r[b] {
      var a' := if a < i then a else a + 1;
      var b' := if b < i then b else b + 1;
      assert r[a] == s[a'] && r[b] == s[b'];
    }
    forall x ensures x in r <==> x in s && x != s[i] {
      if x in s && x != s[i] {
        var j :| 0 <= j < |s| && s[j] == x;
        if j < i { assert r[j] == x; } else { assert r[j - 1] == x; }
      }
      if x in r {
        var j :| 0 <= j < |r| && r[j] == x;
        var j' := if j < i then j else j + 1;
        assert s[j'] == x;
      }
    }
  }

  ghost predicate DetachPre(m: Nodes, rank: Ranks, n: Node, i: nat, m2: Nodes)
  {
    && Valid(m, rank) && n in m && i < |m[n].children|
    && var ch, c := m[n].children, m[n].children[i];
    c in m && c != n && DetachedFrom(m, m2, n, c, ch[..i] + ch[i + 1..], m[n].dict - {m[c].id})
  }

  lemma DetachTargetChildren(m: Nodes, rank: Ranks, n: Node, i: nat, m2: Nodes, x: Node)
    requires DetachPre(m, rank, n, i, m2)
    requires x in m[n].children && x != m[n].children[i]
    ensures x in m2 && m2[x].parent == Some(n) && m2[x].id in m2[n].dict && m2[n].dict[m2[x].id] == x
  {
    assert NodeOk(m, n);
    assert RankOk(m, rank, x);
    var c := m[n].children[i];
    var j :| 0 <= j < |m[n].children| && m[n].children[j] == x;
    assert m[n].dict[m[x].id] == x;
    assert m[n].dict[m[c].id] == c;
  }

  lemma DetachTargetDict(m: Nodes, rank: Ranks, n: Node, i: nat, m2: Nodes, k: Id)
    requires DetachPre(m, rank, n, i, m2)
    requires k in m2[n].dict
    ensures m2[n].dict[k] in m2 && m2[m2[n].dict[k]].id == k && m2[n].dict[k] in m2[n].children
  {
    assert NodeOk(m, n);
    var ch := m[n].children;
    var x := m[n].dict[k];
    assert x in ch && x != ch[i];
    assert RankOk(m, rank, x);
    RemoveAtFacts(ch, i);
  }

  lemma DetachTargetOk(m: Nodes, rank: Ranks, n: Node, i: nat, m2: Nodes)
    requires DetachPre(m, rank, n, i, m2)
    ensures NodeOk(m2, n)
  {
    var ch := m[n].children;
    assert NodeOk(m, n);
    RemoveAtFacts(ch, i);
    var ch2 := m2[n].children;
    forall j | 0 <= j < |ch2|
      ensures ch2[j] in m2 && m2[ch2[j]].parent == Some(n) && m2[ch2[j]].id in m2[n].dict && m2[n].dict[m2[ch2[j]].id] == ch2[j]
    {
      assert ch2[j] in ch2;
      DetachTargetChildren(m, rank, n, i, m2, ch2[j]);
    }
    forall k | k in m2[n].dict
      ensures m2[n].dict[k] in m2 && m2[m2[n].dict[k]].id == k && m2[n].dict[k] in ch2
    {
      DetachTargetDict(m, rank, n, i, m2, k);
    }
    assert ChildrenOk(m2, n);
    assert m2[n].parent == m[n].parent;
    match m[n].parent
    case None =>
    case Some(q) =>
      assert RankOk(m, rank, n);
      assert RankOk(m, rank, ch[i]);
      assert q != ch[i];
  }

  lemma DetachOtherOk(m: Nodes, rank: Ranks, n: Node, i: nat, m2: Nodes, k: Node)
    requires DetachPre(m, rank, n, i, m2)
    requires k in m && k != n
    ensures NodeOk(m2, k)
  {
    var ch := m[n].children;
    var c := ch[i];
    assert NodeOk(m, n);
    assert NodeOk(m, k);
    assert m2[k].children == m[k].children && m2[k].dict == m[k].dict;
    forall x | x in m[k].children ensures x in m2 && m2[x].parent == m[x].parent && m2[x].id == m[x].id {
      assert m[x].parent == Some(k);
    }
    assert ChildrenOk(m2, k);
    match m2[k].parent
    case None =>
    case Some(q) =>
      assert k in m[q].children;
      if q == n {
        assert k != c;
        var j :| 0 <= j < |ch| && ch[j] == k;
        if j < i { assert (ch[..i] + ch[i + 1..])[j] == k; }
        else { assert (ch[..i] + ch[i + 1..])[j - 1] == k; }
      }
  }

  /** Detaching the child at position `i` cuts exactly that position out of the list. */
  lemma DetachAt(m: Nodes, rank: Ranks, n: Node, i: nat)
    requires Valid(m, rank) && n in m && i < |m[n].children|
    ensures m[n].children[i] in m
    ensures DetachChild(m, n, m[n].children[i]) ==
      var ch, c := m[n].children, m[n].children[i];
      m[n := m[n].(children := ch[..i] + ch[i + 1..], dict := m[n].dict - {m[c].id})][c := m[c].(parent := None)]
  {
    var ch := m[n].children;
    var c := ch[i];
    assert NodeOk(m, n);
    assert RankOk(m, rank, c);
    assert c != n && c !in ch[..i];
    RemoveFirstAt(ch, i, c);
  }

  lemma DetachValid(m: Nodes, rank: Ranks, n: Node, i: nat)
    requires Valid(m, rank) && n in m && i < |m[n].children|
    ensures m[n].children[i] in m
    ensures Valid(DetachChild(m, n, m[n].children[i]), rank)
    ensures DetachChild(m, n, m[n].children[i]) ==
      var ch, c := m[n].children, m[n].children[i];
      m[n := m[n].(children := ch[..i] + ch[i + 1..], dict := m[n].dict - {m[c].id})][c := m[c].(parent := None)]
  {
    var ch := m[n].children;
    var c := ch[i];
    assert NodeOk(m, n);
    assert RankOk(m, rank, c);
    assert RankOk(m, rank, n);
    DetachAt(m, rank, n, i);
    var m2 := DetachChild(m, n, c);
    assert DetachPre(m, rank, n, i, m2);
    forall k | k in m2 ensures RankOk(m2, rank, k) {
      assert RankOk(m, rank, k);
    }
    forall k | k in m2 ensures NodeOk(m2, k) {
      if k == n {
        DetachTargetOk(m, rank, n, i, m2);
      } else {
        DetachOtherOk(m, rank, n, i, m2, k);
      }
    }
  }

  /** The new state after `clear()` on `n`: every listed child is detached,
      then the list, the map and `xtra` are emptied. */
  function ClearAll(m: Nodes, n: Node): Nodes
    requires n in m
  {
    var m1 := SetParents(m, m[n].children, None);
    m1[n := m1[n].(children := [], dict := map[], xtra := map[])]
  }

  lemma ClearOtherOk(m: Nodes, rank: Ranks, n: Node, m2: Nodes, k: Node)
    requires Valid(m, rank) && n in m && m2 == ClearAll(m, n)
    requires k in m && k != n
    ensures NodeOk(m2, k)
  {
    var ch := m[n].children;
    assert NodeOk(m, n);
    assert NodeOk(m, k);
    assert m2[k].children == m[k].children && m2[k].dict == m[k].dict;
    forall x | x in m[k].children ensures x in m2 && m2[x].parent == Some(k) && m2[x].id == m[x].id {
      assert m[x].parent == Some(k);
    }
    assert ChildrenOk(m2, k);
    if k !in ch {
      assert m2[k].parent == m[k].parent;
      match m[k].parent
      case None =>
      case Some(q) =>
        assert k in m[q].children;
        assert q != n;
    }
  }

  lemma ClearValid(m: Nodes, rank: Ranks, n: Node)
    requires Valid(m, rank) && n in m
    ensures Valid(ClearAll(m, n), rank)
  {
    var m2 := ClearAll(m, n);
    assert NodeOk(m, n);
    assert RankOk(m, rank, n);
    ChildRanks(m, rank, n);
    forall k | k in m2 ensures RankOk(m2, rank, k) {
      assert RankOk(m, rank, k);
    }
    forall k | k in m2 ensures NodeOk(m2, k) {
      if k == n {
        assert n !in m[n].children;
        match m[n].parent
        case None =>
        case Some(q) =>
          assert RankOk(m, rank, q);
          assert NodeOk(m, q);
          assert q !in m[n].children;
          assert m2[q].children == m[q].children;
      } else {
        ClearOtherOk(m, rank, n, m2, k);
      }
    }
  }

  /** The new state after the `id` setter renamed `x` to `newId`: the parent's
      map (when there is a parent) is re-keyed, the list is left as it is. */
  function Rekey(m: Nodes, x: Node, newId: Id): Nodes
    requires x in m
  {
    var m1 := match m[x].parent
      case Some(p) =>
        if p in m then m[p := m[p].(dict := (m[p].dict - {m[x].id})[newId := x])] else m
      case None => m;
    m1[x := m1[x].(id := newId)]
  }

  /** `newId` is not taken by a sibling of `x` (nor by `x` itself). */
  ghost predicate FreeInParent(m: Nodes, x: Node, newId: Id)
    requires x in m
  {
    match m[x].parent
    case None => true
    case Some(p) => p in m && newId !in m[p].dict
  }

  lemma RekeyParentOk(m: Nodes, rank: Ranks, x: Node, newId: Id, p: Node)
    requires Valid(m, rank) && x in m && m[x].parent == Some(p)
    requires p in m && newId !in m[p].dict
    ensures NodeOk(Rekey(m, x, newId), p)
  {
    var m2 := Rekey(m, x, newId);
    assert RankOk(m, rank, x);
    assert NodeOk(m, x);
    assert NodeOk(m, p);
    var ch, d, d2 := m[p].children, m[p].dict, m2[p].dict;
    forall i | 0 <= i < |ch|
      ensures ch[i] in m2 && m2[ch[i]].parent == Some(p) && m2[ch[i]].id in d2 && d2[m2[ch[i]].id] == ch[i]
    {
      if ch[i] != x {
        assert RankOk(m, rank, ch[i]);
        assert d[m[ch[i]].id] == ch[i];
        assert m[ch[i]].id != m[x].id;
      }
    }
    forall k | k in d2 ensures d2[k] in m2 && m2[d2[k]].id == k && d2[k] in ch {
      if k != newId {
        assert d[k] != x;
        assert RankOk(m, rank, d[k]);
      }
    }
  }

  lemma RekeyOtherOk(m: Nodes, rank: Ranks, x: Node, newId: Id, k: Node)
    requires Valid(m, rank) && x in m && k in m
    requires FreeInParent(m, x, newId)
    requires m[x].parent != Some(k)
    ensures NodeOk(Rekey(m, x, newId), k)
  {
    var m2 := Rekey(m, x, newId);
    assert NodeOk(m, k);
    assert NodeOk(m, x);
    assert m2[k].children == m[k].children && m2[k].parent == m[k].parent;
    assert m2[k].dict == m[k].dict;
    forall c | c in m[k].children ensures c in m2 && m2[c].parent == m[c].parent && m2[c].id == m[c].id {
      assert m[c].parent == Some(k);
    }
    match m[k].parent
    case None =>
    case Some(q) =>
      assert q in m2 && m2[q].children == m[q].children;
  }

  lemma RekeyValid(m: Nodes, rank: Ranks, x: Node, newId: Id)
    requires Valid(m, rank) && x in m
    requires FreeInParent(m, x, newId)
    ensures Valid(Rekey(m, x, newId), rank)
  {
    var m2 := Rekey(m, x, newId);
    assert RankOk(m, rank, x);
    forall k | k in m2 ensures RankOk(m2, rank, k) {
      assert RankOk(m, rank, k);
    }
    forall k | k in m2 ensures NodeOk(m2, k) {
      if m[x].parent == Some(k) {
        RekeyParentOk(m, rank, x, newId, k);
      } else {
        RekeyOtherOk(m, rank, x, newId, k);
      }
    }
  }

  /** A freshly constructed entity: no parent, no children, empty `xtra`. */
  function FreshRec(id: Id, level: Level, serialNum: Option<Id>): NodeRec {
    NodeRec(id, level, serialNum, map[], None, [], map[])
  }

  lemma FreshValid(m: Nodes, rank: Ranks, c: Node, id: Id, level: Level, serialNum: Option<Id>)
    requires Valid(m, rank) && c !in m
    ensures Valid(m[c := FreshRec(id, level, serialNum)], rank[c := 0])
  {
    var m2, r2 := m[c := FreshRec(id, level, serialNum)], rank[c := 0];
    forall k | k in m2 ensures RankOk(m2, r2, k) {
      if k != c { assert RankOk(m, rank, k); }
    }
    forall k | k in m2 ensures NodeOk(m2, k) {
      if k != c {
        assert NodeOk(m, k);
        assert RankOk(m, rank, k);
      }
    }
  }

  // ---------------------------------------------------------------------
  // Paths, descendants and shapes

  lemma {:induction false} AncestorRank(m: Nodes, rank: Ranks, a: Node, n: Node)
    requires Ranked(m, rank) && n in m && AncestorOrSelf(m, rank, a, n)
    ensures a in m && rank[a] >= rank[n]
    decreases Above(rank, n)
  {
    if a != n {
      var p := m[n].parent.value;
      assert RankOk(m, rank, n);
      AboveShrinks(rank, n, p);
      AncestorRank(m, rank, a, p);
    }
  }

  /** The full id of an ancestor is a prefix of the full id of its descendant. */
  lemma {:induction false} FullIdPrefix(m: Nodes, rank: Ranks, a: Node, n: Node)
    requires Ranked(m, rank) && n in m && a in m && AncestorOrSelf(m, rank, a, n)
    ensures FullIdOf(m, rank, a) <= FullIdOf(m, rank, n)
    decreases Above(rank, n)
  {
    if a != n {
      var p := m[n].parent.value;
      assert RankOk(m, rank, n);
      AboveShrinks(rank, n, p);
      FullIdPrefix(m, rank, a, p);
    }
  }

  lemma {:induction false} DescUpToChild(m: Nodes, rank: Ranks, n: Node, j: nat, i: nat)
    requires Valid(m, rank) && n in m && i < j <= |m[n].children| && m[n].children[i] in m
    ensures Desc(m, rank, m[n].children[i]) <= DescUpTo(m, rank, n, j)
    decreases j
  {
    ChildRanks(m, rank, n);
    if i < j - 1 {
      DescUpToChild(m, rank, n, j - 1, i);
    }
  }

  lemma DescOfChild(m: Nodes, rank: Ranks, n: Node, c: Node)
    requires Valid(m, rank) && n in m && c in m && c in m[n].children
    ensures Desc(m, rank, c) <= Desc(m, rank, n)
  {
    var i :| 0 <= i < |m[n].children| && m[n].children[i] == c;
    DescUpToChild(m, rank, n, |m[n].children|, i);
  }

  /** Every entity on whose parent chain `a` lies is visited from `a`. */
  lemma {:induction false} AncestorDesc(m: Nodes, rank: Ranks, a: Node, n: Node)
    requires Valid(m, rank) && a in m && n in m && AncestorOrSelf(m, rank, a, n)
    ensures n in Desc(m, rank, a) && Desc(m, rank, n) <= Desc(m, rank, a)
    decreases Above(rank, n)
  {
    if a != n {
      var p := m[n].parent.value;
      assert RankOk(m, rank, n);
      AboveShrinks(rank, n, p);
      AncestorDesc(m, rank, a, p);
      assert NodeOk(m, n);
      DescOfChild(m, rank, p, n);
    }
  }

  lemma {:induction false} DescAncestor(m: Nodes, rank: Ranks, a: Node, k: Node)
    requires Valid(m, rank) && a in m && k in Desc(m, rank, a)
    ensures AncestorOrSelf(m, rank, a, k)
    decreases rank[a], |m[a].children| + 1
  {
    if k != a {
      DescUpToAncestor(m, rank, a, |m[a].children|, k);
    }
  }

  lemma {:induction false} DescUpToAncestor(m: Nodes, rank: Ranks, a: Node, j: nat, k: Node)
    requires Valid(m, rank) && a in m && j <= |m[a].children| && k in DescUpTo(m, rank, a, j)
    ensures AncestorOrSelf(m, rank, a, k)
    decreases rank[a], j
  {
    ChildRanks(m, rank, a);
    var c := m[a].children[j - 1];
    if k in Desc(m, rank, c) {
      DescAncestor(m, rank, c, k);
      AncestorStep(m, rank, c, k);
    } else {
      DescUpToAncestor(m, rank, a, j - 1, k);
    }
  }

  /** The entities `_reset_full_id` visits from `a` are exactly those whose
      full id passes through `a`. */
  lemma DescIff(m: Nodes, rank: Ranks, a: Node, k: Node)
    requires Valid(m, rank) && a in m && k in m
    ensures k in Desc(m, rank, a) <==> AncestorOrSelf(m, rank, a, k)
  {
    if k in Desc(m, rank, a) {
      DescAncestor(m, rank, a, k);
    }
    if AncestorOrSelf(m, rank, a, k) {
      AncestorDesc(m, rank, a, k);
    }
  }

  /** Renaming `x` changes the full id of exactly the entities below it, and
      only at `x`'s own position. */
  lemma {:induction false} RekeyFullId(m: Nodes, rank: Ranks, x: Node, newId: Id, k: Node)
    requires Valid(m, rank) && x in m && k in m && FreeInParent(m, x, newId)
    ensures Valid(Rekey(m, x, newId), rank)
    ensures !AncestorOrSelf(m, rank, x, k) ==> FullIdOf(Rekey(m, x, newId), rank, k) == FullIdOf(m, rank, k)
    ensures AncestorOrSelf(m, rank, x, k) ==>
      |FullIdOf(m, rank, x)| <= |FullIdOf(m, rank, k)| &&
      FullIdOf(Rekey(m, x, newId), rank, k) == FullIdOf(m, rank, k)[|FullIdOf(m, rank, x)| - 1 := newId]
    decreases Above(rank, k)
  {
    RekeyValid(m, rank, x, newId);
    var m2 := Rekey(m, x, newId);
    assert m2[k].parent == m[k].parent;
    assert RankOk(m, rank, k);
    match m[k].parent
    case None =>
      if AncestorOrSelf(m, rank, x, k) {
        assert x == k;
      }
    case Some(q) =>
      AboveShrinks(rank, k, q);
      RekeyFullId(m, rank, x, newId, q);
      if k == x {
        if AncestorOrSelf(m, rank, x, q) {
          AncestorRank(m, rank, x, q);
        }
      } else if AncestorOrSelf(m, rank, x, k) {
        FullIdPrefix(m, rank, x, q);
      }
  }

  /** Renaming back restores the tree: rename followed by rename-back is the identity. */
  lemma RekeyRoundTrip(m: Nodes, rank: Ranks, x: Node, newId: Id)
    requires Valid(m, rank) && x in m && FreeInParent(m, x, newId)
    ensures FreeInParent(Rekey(m, x, newId), x, m[x].id)
    ensures Rekey(Rekey(m, x, newId), x, m[x].id) == m
  {
    var m2 := Rekey(m, x, newId);
    match m[x].parent
    case None =>
    case Some(p) =>
      assert RankOk(m, rank, x);
      assert NodeOk(m, x);
      assert NodeOk(m, p);
      assert m[p].dict[m[x].id] == x;
      assert ((m[p].dict - {m[x].id})[newId := x] - {newId})[m[x].id := x] == m[p].dict;
  }

  /** The children of a node have pairwise distinct ids. */
  lemma ChildIdsDistinct(m: Nodes, rank: Ranks, n: Node)
    requires Valid(m, rank) && n in m
    ensures forall c :: c in m[n].children ==> c in m
    ensures DistinctIds(m, m[n].children)
  {
    assert NodeOk(m, n);
    var ch := m[n].children;
    forall i, j | 0 <= i < j < |ch| ensures m[ch[i]].id != m[ch[j]].id {
      assert m[n].dict[m[ch[i]].id] == ch[i];
      assert m[n].dict[m[ch[j]].id] == ch[j];
    }
  }

  /** The fields `ShapeOf` reads agree. */
  ghost predicate SameContent(a: NodeRec, b: NodeRec) {
    a.id == b.id && a.level == b.level && a.serialNum == b.serialNum && a.xtra == b.xtra && a.children == b.children
  }

  /** Shapes and descendant sets only depend on the records of the subtree. */
  lemma {:induction false} ShapeFrame(m: Nodes, rank: Ranks, m2: Nodes, r2: Ranks, n: Node)
    requires Valid(m, rank) && Valid(m2, r2) && n in m
    requires forall d :: d in Desc(m, rank, n) ==> d in m2 && SameContent(m[d], m2[d])
    ensures n in m2 && ShapeOf(m, rank, n) == ShapeOf(m2, r2, n)
    ensures Desc(m, rank, n) == Desc(m2, r2, n)
    decreases rank[n]
  {
    var ch := m[n].children;
    assert SameContent(m[n], m2[n]);
    ChildRanks(m, rank, n);
    ChildRanks(m2, r2, n);
    forall i | 0 <= i < |ch|
      ensures ShapeOf(m, rank, ch[i]) == ShapeOf(m2, r2, ch[i])
      ensures Desc(m, rank, ch[i]) == Desc(m2, r2, ch[i])
    {
      DescOfChild(m, rank, n, ch[i]);
      ShapeFrame(m, rank, m2, r2, ch[i]);
    }
    DescUpToFrame(m, rank, m2, r2, n, |ch|);
  }

  lemma {:induction false} DescUpToFrame(m: Nodes, rank: Ranks, m2: Nodes, r2: Ranks, n: Node, j: nat)
    requires Valid(m, rank) && Valid(m2, r2) && n in m && n in m2
    requires m2[n].children == m[n].children && j <= |m[n].children|
    requires forall i :: 0 <= i < j ==>
      (m[n].children[i] in m && m[n].children[i] in m2 &&
       Desc(m, rank, m[n].children[i]) == Desc(m2, r2, m[n].children[i]))
    ensures DescUpTo(m, rank, n, j) == DescUpTo(m2, r2, n, j)
    decreases j
  {
    if j > 0 {
      DescUpToFrame(m, rank, m2, r2, n, j - 1);
    }
  }

  /** Every entity below `n` is `n` or below one of its children. */
  lemma {:induction false} DescUpToSplit(m: Nodes, rank: Ranks, n: Node, j: nat, d: Node)
    requires Valid(m, rank) && n in m && j <= |m[n].children| && d in DescUpTo(m, rank, n, j)
    ensures exists i :: 0 <= i < j && m[n].children[i] in m && d in Desc(m, rank, m[n].children[i])
    decreases j
  {
    ChildRanks(m, rank, n);
    if d !in Desc(m, rank, m[n].children[j - 1]) {
      DescUpToSplit(m, rank, n, j - 1, d);
    }
  }

  /** `xtra` plays no part in the tree invariant. */
  lemma SetXtraValid(m: Nodes, rank: Ranks, n: Node, x: map<string, string>)
    requires Valid(m, rank) && n in m
    ensures Valid(m[n := m[n].(xtra := x)], rank)
  {
    var m2 := m[n := m[n].(xtra := x)];
    forall k | k in m2 ensures RankOk(m2, rank, k) {
      assert RankOk(m, rank, k);
    }
    forall k | k in m2 ensures NodeOk(m2, k) {
      assert NodeOk(m, k);
    }
  }

  /** `add([c])` followed by `pop(c.id)` gives back the tree it started from. */
  lemma AttachDetachRoundTrip(m: Nodes, rank: Ranks, n: Node, c: Node)
    requires Valid(m, rank) && n in m && c in m && c != n
    requires m[c].parent == None && m[c].id !in m[n].dict
    ensures DetachChild(AttachAt(m, n, |m[n].children|, [c]), n, c) == m
  {
    assert NodeOk(m, n);
    AttachDetachSplice(m, n, c);
  }

  lemma AttachDetachSplice(m: Nodes, n: Node, c: Node)
    requires n in m && c in m && c != n && c !in m[n].children
    requires m[c].parent == None && m[c].id !in m[n].dict
    ensures DetachChild(AttachAt(m, n, |m[n].children|, [c]), n, c) == m
  {
    var ch := m[n].children;
    var m2 := AttachAt(m, n, |ch|, [c]);
    AppendRemove(ch, c);
    IdMapOne(m, c);
    assert (m[n].dict + map[m[c].id := c]) - {m[c].id} == m[n].dict;
    var m3 := DetachChild(m2, n, c);
    forall k | k in m ensures m3[k] == m[k] {
    }
  }

  lemma AppendRemove<T>(s: seq<T>, x: T)
    requires x !in s
    ensures RemoveFirst(s[..|s|] + [x] + s[|s|..], x) == s
  {
    var t := s + [x];
    assert s[..|s|] + [x] + s[|s|..] == t;
    assert t[..|s|] == s;
    RemoveFirstAt(t, |s|, x);
    assert t[|s| + 1..] == [];
  }

  lemma IdMapOne(m: Nodes, c: Node)
    requires c in m
    ensures IdMap(m, [c]) == map[m[c].id := c]
  {
    assert [c][..0] == [];
  }

  // ---------------------------------------------------------------------
  // Removing a set of children

  /** `ch` without the members of `s`; the others keep their order. */
  function Without(ch: seq<Node>, s: set<Node>): (r: seq<Node>)
    ensures |r| <= |ch|
  {
    if ch == [] then []
    else (if ch[0] in s then [] else [ch[0]]) + Without(ch[1..], s)
  }

  /** What is left is exactly what is listed and not left out. */
  lemma {:induction false} WithoutMembers(ch: seq<Node>, s: set<Node>)
    ensures forall x :: x in Without(ch, s) <==> x in ch && x !in s
  {
    if ch != [] {
      WithoutMembers(ch[1..], s);
      assert forall x :: x in ch <==> x == ch[0] || x in ch[1..] by {
        assert ch == [ch[0]] + ch[1..];
      }
    }
  }

  /** Leaving members out of a concatenation leaves them out of each part. */
  lemma {:induction false} WithoutAppend(a: seq<Node>, b: seq<Node>, s: set<Node>)
    ensures Without(a + b, s) == Without(a, s) + Without(b, s)
  {
    if a == [] {
      assert a + b == b;
    } else {
      assert (a + b)[0] == a[0] && (a + b)[1..] == a[1..] + b;
      WithoutAppend(a[1..], b, s);
    }
  }

  /** Nothing to leave out leaves the list as it is. */
  lemma {:induction false} WithoutNone(ch: seq<Node>, s: set<Node>)
    requires forall x :: x in ch ==> x !in s
    ensures Without(ch, s) == ch
  {
    if ch != [] {
      assert ch[0] in ch;
      assert forall x :: x in ch[1..] ==> x in ch;
      WithoutNone(ch[1..], s);
      assert ch == [ch[0]] + ch[1..];
    }
  }

  /** Leaving out a value the list does not hold changes nothing. */
  lemma {:induction false} WithoutAbsent(ch: seq<Node>, s: set<Node>, x: Node)
    requires x !in ch
    ensures Without(ch, s + {x}) == Without(ch, s)
  {
    if ch != [] {
      assert ch[0] in ch && ch[0] != x;
      assert forall y :: y in ch[1..] ==> y in ch;
      WithoutAbsent(ch[1..], s, x);
    }
  }

  /** In a list without repeats, removing the first occurrence of `c` from
      the list without `s` is leaving out `s` and `c` together. */
  lemma {:induction false} WithoutOneMore(ch: seq<Node>, s: set<Node>, c: Node)
    requires Distinct(ch) && c !in s
    ensures RemoveFirst(Without(ch, s), c) == Without(ch, s + {c})
  {
    if ch != [] {
      var t := ch[1..];
      var w := Without(t, s);
      assert Distinct(t) by {
        forall i, j | 0 <= i < j < |t| ensures t[i] != t[j] {
          assert t[i] == ch[i + 1] && t[j] == ch[j + 1];
        }
      }
      assert Without(ch, s + {c}) == (if ch[0] in s + {c} then [] else [ch[0]]) + Without(t, s + {c});
      if ch[0] == c {
        assert c !in t by {
          forall i | 0 <= i < |t| ensures t[i] != c {
            assert t[i] == ch[i + 1];
          }
        }
        WithoutAbsent(t, s, c);
        assert Without(ch, s) == [c] + w;
        assert ([c] + w)[1..] == w;
      } else if ch[0] in s {
        WithoutOneMore(t, s, c);
        assert Without(ch, s) == [] + w;
        assert [] + w == w;
      } else {
        WithoutOneMore(t, s, c);
        assert Without(ch, s) == [ch[0]] + w;
        assert ([ch[0]] + w)[1..] == w;
      }
    }
  }

  /** Leaving out the members of the run `ch[lo..hi]` of a list without
      repeats leaves `ch[..lo] + ch[hi..]`. */
  lemma WithoutRun(ch: seq<Node>, lo: nat, hi: nat, s: set<Node>)
    requires Distinct(ch) && lo <= hi <= |ch|
    requires forall x :: x in s <==> x in ch[lo..hi]
    ensures Without(ch, s) == ch[..lo] + ch[hi..]
  {
    WithoutThree(ch, lo, hi, s);
    OutsideRun(ch, lo, hi);
    WithoutNone(ch[..lo], s);
    WithoutNone(ch[hi..], s);
    WithoutEvery(ch[lo..hi], s);
  }

  /** Leaving out members of a list split in three parts leaves them out
      of each part. */
  lemma WithoutThree(ch: seq<Node>, lo: nat, hi: nat, s: set<Node>)
    requires lo <= hi <= |ch|
    ensures Without(ch, s) == Without(ch[..lo], s) + Without(ch[lo..hi], s) + Without(ch[hi..], s)
  {
    var a, b, c := ch[..lo], ch[lo..hi], ch[hi..];
    assert ch == a + b + c;
    WithoutAppend(a + b, c, s);
    WithoutAppend(a, b, s);
  }

  /** In a list without repeats, nothing outside a run is in the run. */
  lemma OutsideRun(ch: seq<Node>, lo: nat, hi: nat)
    requires Distinct(ch) && lo <= hi <= |ch|
    ensures forall x :: x in ch[..lo] ==> x !in ch[lo..hi]
    ensures forall x :: x in ch[hi..] ==> x !in ch[lo..hi]
  {
    forall x | x in ch[lo..hi] ensures x !in ch[..lo] && x !in ch[hi..] {
      var j :| 0 <= j < hi - lo && ch[lo..hi][j] == x;
      assert ch[lo + j] == x;
      forall i | 0 <= i < lo ensures ch[..lo][i] != x {
        assert ch[..lo][i] == ch[i];
      }
      forall i | 0 <= i < |ch| - hi ensures ch[hi..][i] != x {
        assert ch[hi..][i] == ch[hi + i];
      }
    }
  }

  /** Leaving out every member leaves nothing. */
  lemma {:induction false} WithoutEvery(ch: seq<Node>, s: set<Node>)
    requires forall x :: x in ch ==> x in s
    ensures Without(ch, s) == []
  {
    if ch != [] {
      assert ch[0] in ch;
      assert forall x :: x in ch[1..] ==> x in ch;
      WithoutEvery(ch[1..], s);
    }
  }

  /** The ids of the entities in `s`. */
  ghost function IdSet(m: Nodes, s: set<Node>): set<Id> {
    set c | c in s && c in m :: m[c].id
  }

  /** `m` with the children of `n` that are in `s` detached: left out of the
      list (the others keep their order) and the map, their parent cleared,
      and every other record as it was. */
  ghost function DetachSet(m: Nodes, n: Node, s: set<Node>): (m2: Nodes)
    requires n in m
    ensures m2.Keys == m.Keys
  {
    map k | k in m ::
      if k == n then m[n].(children := Without(m[n].children, s), dict := m[n].dict - IdSet(m, s))
      else if k in s then m[k].(parent := None)
      else m[k]
  }

  /** Detaching no child changes nothing. */
  lemma DetachSetEmpty(m: Nodes, n: Node)
    requires n in m
    ensures DetachSet(m, n, {}) == m
  {
    WithoutNone(m[n].children, {});
    assert IdSet(m, {}) == {};
    assert m[n].dict - {} == m[n].dict;
  }

  /** Detaching one more listed child, as `del self[c.id]` does, detaches
      the set with `c` added. */
  lemma DetachSetStep(m: Nodes, rank: Ranks, n: Node, s: set<Node>, c: Node)
    requires Valid(m, rank) && n in m && c in m[n].children && c !in s
    ensures c in m && c in DetachSet(m, n, s)[n].children && DetachSet(m, n, s)[c] == m[c]
    ensures DetachChild(DetachSet(m, n, s), n, c) == DetachSet(m, n, s + {c})
  {
    assert c in m && c != n && Distinct(m[n].children) by {
      assert NodeOk(m, n);
      assert RankOk(m, rank, c);
    }
    DetachSetNext(m, n, s, c);
  }

  lemma DetachSetNext(m: Nodes, n: Node, s: set<Node>, c: Node)
    requires n in m && c in m && c != n && Distinct(m[n].children)
    requires c in m[n].children && c !in s
    ensures c in DetachSet(m, n, s)[n].children && DetachSet(m, n, s)[c] == m[c]
    ensures DetachChild(DetachSet(m, n, s), n, c) == DetachSet(m, n, s + {c})
  {
    var ch := m[n].children;
    var m1 := DetachSet(m, n, s);
    assert c in m1[n].children by {
      WithoutMembers(ch, s);
    }
    assert RemoveFirst(m1[n].children, c) == Without(ch, s + {c}) by {
      WithoutOneMore(ch, s, c);
    }
    assert m1[n].dict - {m1[c].id} == m[n].dict - IdSet(m, s + {c}) by {
      assert IdSet(m, s + {c}) == IdSet(m, s) + {m[c].id};
      MinusMinus(m[n].dict, IdSet(m, s), {m[c].id});
    }
    DetachSetJoin(m, n, s, c);
  }

  /** The records of the two states agree once the list and the map of `n` do. */
  lemma DetachSetJoin(m: Nodes, n: Node, s: set<Node>, c: Node)
    requires n in m && c in m && c != n && c !in s
    requires RemoveFirst(DetachSet(m, n, s)[n].children, c) == Without(m[n].children, s + {c})
    requires DetachSet(m, n, s)[n].dict - {m[c].id} == m[n].dict - IdSet(m, s + {c})
    ensures DetachChild(DetachSet(m, n, s), n, c) == DetachSet(m, n, s + {c})
  {
    var m1 := DetachSet(m, n, s);
    var a, b := DetachChild(m1, n, c), DetachSet(m, n, s + {c});
    assert a[n] == b[n];
    assert a[c] == b[c];
    forall k | k in m && k != n && k != c ensures a[k] == b[k] { }
  }

  lemma MinusMinus<K, V>(d: map<K, V>, a: set<K>, b: set<K>)
    ensures d - a - b == d - (a + b)
  {
  }

  // ---------------------------------------------------------------------
  // Shapes across `add`

  /** A subtree that does not contain `n` keeps its shape when only `n`'s
      record changes beyond parent links. */
  lemma ShapeAwayFrom(m: Nodes, rank: Ranks, m2: Nodes, r2: Ranks, n: Node, x: Node)
    requires Valid(m, rank) && Valid(m2, r2) && x in m && n !in Desc(m, rank, x)
    requires m2.Keys == m.Keys
    requires forall y :: y in m && y != n ==> SameContent(m[y], m2[y])
    ensures x in m2 && ShapeOf(m2, r2, x) == ShapeOf(m, rank, x)
  {
    ShapeFrame(m, rank, m2, r2, x);
  }

  /** Appending a detached entity `c` to `n` changes the shape of neither
      `c` nor any child `n` already had. */
  lemma AttachShapes(m: Nodes, rank: Ranks, n: Node, c: Node, r2: Ranks)
    requires Valid(m, rank) && n in m && c in m && m[c].parent == None
    requires !AncestorOrSelf(m, rank, c, n) && m[c].id !in m[n].dict
    requires Valid(AttachAt(m, n, |m[n].children|, [c]), r2)
    ensures forall x :: x in m && (x in m[n].children || x == c) ==>
      x in AttachAt(m, n, |m[n].children|, [c]) &&
      ShapeOf(AttachAt(m, n, |m[n].children|, [c]), r2, x) == ShapeOf(m, rank, x)
  {
    var m2 := AttachAt(m, n, |m[n].children|, [c]);
    assert NodeOk(m, n);
    AttachAtFacts(m, n, |m[n].children|, [c]);
    assert forall y :: y in m && y != n ==> SameContent(m[y], m2[y]);
    forall x | x in m && (x in m[n].children || x == c)
      ensures x in m2 && ShapeOf(m2, r2, x) == ShapeOf(m, rank, x)
    {
      NotBelow(m, rank, n, c, x);
      ShapeAwayFrom(m, rank, m2, r2, n, x);
    }
  }

  lemma NotBelow(m: Nodes, rank: Ranks, n: Node, c: Node, x: Node)
    requires Valid(m, rank) && n in m && c in m && x in m
    requires !AncestorOrSelf(m, rank, c, n)
    requires x in m[n].children || x == c
    ensures n !in Desc(m, rank, x)
  {
    DescIff(m, rank, x, n);
    if x != c {
      assert NodeOk(m, n) && NodeOk(m, x);
      assert RankOk(m, rank, x);
      if AncestorOrSelf(m, rank, x, n) {
        AncestorRank(m, rank, x, n);
      }
    }
  }
}
