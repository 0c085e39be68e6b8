/** The `Entity` class of kmbio/PDB/core/entity.py as a mutable arena: one
    `Tree` object holds every entity record, and each method performs the
    Python method of the same name on one entity handle, in place. */
module Entities {
  import opened Wrappers
  import opened EntityModel

  /** `[c.id for c in es]` */
  function IdsOf(m: Nodes, es: seq<Node>): seq<Id>
    requires forall c :: c in es ==> c in m
  {
    seq(|es|, i requires 0 <= i < |es| => m[es[i]].id)
  }

  /** Python's `set(s)`. */
  function SetOf<T>(s: seq<T>): set<T> {
    set x | x in s
  }

  /** A list has as many distinct elements as entries exactly when it has no repeats. */
  lemma {:induction false} SetOfSize<T>(s: seq<T>)
    ensures |SetOf(s)| <= |s|
    ensures |SetOf(s)| == |s| <==> Distinct(s)
  {
    if s != [] {
      var t := s[1..];
      SetOfSize(t);
      assert SetOf(s) == {s[0]} + SetOf(t) by {
        assert s == [s[0]] + t;
      }
      if s[0] in t {
        assert SetOf(s) == SetOf(t);
        var j :| 0 <= j < |t| && t[j] == s[0];
        assert s[0] == s[j + 1];
      } else {
        assert |SetOf(s)| == 1 + |SetOf(t)|;
        if Distinct(t) {
          forall i, j | 0 <= i < j < |s| ensures s[i] != s[j] {
            if i == 0 { assert s[j] == t[j - 1]; } else { assert s[i] == t[i - 1] && s[j] == t[j - 1]; }
          }
        }
        if Distinct(s) {
          forall i, j | 0 <= i < j < |t| ensures t[i] != t[j] {
            assert t[i] == s[i + 1] && t[j] == s[j + 1];
          }
        }
      }
    }
  }

  /** The test `len({c.id for c in entities}) < len(entities)` fires exactly
      when two entities of the batch share an id. */
  lemma DuplicateCheck(m: Nodes, es: seq<Node>)
    requires forall c :: c in es ==> c in m
    ensures |SetOf(IdsOf(m, es))| < |es| <==> !DistinctIds(m, es)
  {
    var ids := IdsOf(m, es);
    SetOfSize(ids);
    if Distinct(ids) {
      forall i, j | 0 <= i < j < |es| ensures m[es[i]].id != m[es[j]].id {
        assert ids[i] != ids[j];
      }
    } else {
      var i, j :| 0 <= i < j < |ids| && ids[i] == ids[j];
      assert m[es[i]].id == m[es[j]].id;
    }
  }

  /** `any(c.id in self for c in entities)` */
  predicate AnyDefined(m: Nodes, n: Node, es: seq<Node>)
    requires n in m && forall c :: c in es ==> c in m
  {
    exists i :: 0 <= i < |es| && m[es[i]].id in m[n].dict
  }

  /** The two validations `add` and `insert` run before changing anything. */
  function CheckBatch(m: Nodes, n: Node, es: seq<Node>): (o: Outcome)
    requires n in m && forall c :: c in es ==> c in m
    ensures o == Pass <==> !AnyDefined(m, n, es) && DistinctIds(m, es)
    ensures o.Fail? ==> o.error == (if AnyDefined(m, n, es) then DefinedTwice else Duplicates)
  {
    DuplicateCheck(m, es);
    if AnyDefined(m, n, es) then Fail(DefinedTwice)
    else if |SetOf(IdsOf(m, es))| < |es| then Fail(Duplicates)
    else Pass
  }

  /** Python's `lst[i]` with negative indices counted from the end. */
  function PyIndex(len: nat, i: int): (r: Option<nat>)
    ensures r.Some? <==> -(len as int) <= i < len
    ensures r.Some? ==> r.value < len && (r.value == i || r.value == len + i)
  {
    if 0 <= i < len then Some(i)
    else if -(len as int) <= i < 0 then Some(len + i)
    else None
  }

  /** Python's slice bounds `lst[start:stop]`, `None` meaning the ends. */
  function SliceBounds(len: nat, start: Option<int>, stop: Option<int>): (b: (nat, nat))
    ensures b.0 <= b.1 <= len
    ensures start.None? ==> b.0 == 0
    ensures stop.None? && start.Some? ==> b.0 == ClampPos(start.value, len) && b.1 == len
    ensures stop.None? && start.None? ==> b.1 == len
  {
    var lo := if start.Some? then ClampPos(start.value, len) else 0;
    var hi := if stop.Some? then ClampPos(stop.value, len) else len;
    if hi < lo then (lo, lo) else (lo, hi)
  }

  /** How `slice.indices(len)` places one bound of a slice: `None` takes the
      default, a negative value counts from the end, and the result is
      clamped into `lower..upper`. */
  function ClampBound(p: Option<int>, len: nat, lower: int, upper: int, default: int): (q: int)
    requires lower <= 0 && lower <= default <= upper && len - 1 <= upper
    ensures lower <= q <= upper
    ensures p.None? ==> q == default
    ensures p.Some? && 0 <= p.value <= upper ==> q == p.value
    ensures p.Some? && p.value < 0 && lower <= len + p.value ==> q == len + p.value
  {
    match p
    case None => default
    case Some(v) =>
      if v < 0 then (if v + len < lower then lower else v + len)
      else if v >= upper then upper
      else v
  }

  /** `slice(start, stop, step).indices(len)` for a non-zero step: the first
      position and the bound the positions stop before. A negative step
      runs from the end down, and may stop before position 0. */
  function SliceIndices(len: nat, start: Option<int>, stop: Option<int>, step: int): (b: (int, int))
    requires step != 0
    ensures step > 0 ==> 0 <= b.0 <= len && 0 <= b.1 <= len
    ensures step < 0 ==> -1 <= b.0 < len && -1 <= b.1 < len
  {
    var lower := if step < 0 then -1 else 0;
    var upper := if step < 0 then len - 1 else len;
    (ClampBound(start, len, lower, upper, if step < 0 then upper else lower),
     ClampBound(stop, len, lower, upper, if step < 0 then lower else upper))
  }

  /** `range(from, to, step)`: `from`, `from + step`, and so on, while
      before `to` in the direction of the step. */
  function Stepped(from: int, to: int, step: int): (ps: seq<int>)
    requires step != 0
    ensures |ps| > 0 ==> ps[0] == from
    ensures forall t :: 0 <= t < |ps| - 1 ==> ps[t + 1] == ps[t] + step
    ensures forall t :: 0 <= t < |ps| ==> if step > 0 then from <= ps[t] < to else to < ps[t] <= from
    ensures var next := if |ps| == 0 then from else ps[|ps| - 1] + step;
      if step > 0 then to <= next else next <= to
    decreases if step > 0 then to - from else from - to
  {
    if (step > 0 && from < to) || (step < 0 && to < from) then [from] + Stepped(from + step, to, step)
    else []
  }

  /** Position `t` of a stepped range is `from + t * step`. */
  lemma {:induction false} SteppedAt(from: int, to: int, step: int, t: nat)
    requires step != 0 && t < |Stepped(from, to, step)|
    ensures Stepped(from, to, step)[t] == from + t * step
  {
    if t > 0 {
      SteppedAt(from, to, step, t - 1);
      assert from + (t - 1) * step + step == from + t * step;
    }
  }

  /** The positions of a stepped range move in the direction of the step. */
  lemma {:induction false} SteppedMonotone(from: int, to: int, step: int, t: nat, u: nat)
    requires step != 0 && t < u < |Stepped(from, to, step)|
    ensures var ps := Stepped(from, to, step);
      if step > 0 then ps[t] < ps[u] else ps[u] < ps[t]
  {
    if t < u - 1 {
      SteppedMonotone(from, to, step, t, u - 1);
    }
  }

  /** Positions taken a non-zero step apart are different. */
  lemma SteppedDistinct(from: int, to: int, step: int)
    requires step != 0
    ensures Distinct(Stepped(from, to, step))
  {
    var ps := Stepped(from, to, step);
    forall t, u | 0 <= t < u < |ps| ensures ps[t] != ps[u] {
      SteppedMonotone(from, to, step, t, u);
    }
  }

  /** The positions of a list of length `len` that `lst[start:stop:step]`
      lists, in the order it lists them: ValueError for a zero step, and
      otherwise positions of the list without repeats. */
  function SlicePositions(len: nat, start: Option<int>, stop: Option<int>, step: Option<int>): (r: Result<seq<int>>)
    ensures r.Err? <==> step == Some(0)
    ensures r.Err? ==> r.error == ValueError
    ensures r.Ok? ==> Distinct(r.value) && forall t :: 0 <= t < |r.value| ==> 0 <= r.value[t] < len
  {
    var k := if step.Some? then step.value else 1;
    if k == 0 then Err(ValueError)
    else
      var (a, b) := SliceIndices(len, start, stop, k);
      SteppedDistinct(a, b, k);
      Ok(Stepped(a, b, k))
  }

  /** Position `t` of `lst[start:stop:step]` is the first position plus
      `t` steps, and the positions are exactly those of the stepped range. */
  lemma SlicePositionAt(len: nat, start: Option<int>, stop: Option<int>, step: int, t: nat)
    requires step != 0 && t < |SlicePositions(len, start, stop, Some(step)).value|
    ensures SlicePositions(len, start, stop, Some(step)).value[t] == SliceIndices(len, start, stop, step).0 + t * step
  {
    var (a, b) := SliceIndices(len, start, stop, step);
    SteppedAt(a, b, step, t);
  }

  /** Without a step (or with step 1) a slice lists the positions of its
      clamped range, in order. */
  lemma SliceStepOne(len: nat, start: Option<int>, stop: Option<int>, step: Option<int>)
    requires step == None || step == Some(1)
    ensures var (lo, hi) := SliceBounds(len, start, stop);
      var ps := SlicePositions(len, start, stop, step).value;
      |ps| == hi - lo && forall t :: 0 <= t < |ps| ==> ps[t] == lo + t
  {
    var (a, b) := SliceIndices(len, start, stop, 1);
    var (lo, hi) := SliceBounds(len, start, stop);
    var ps := Stepped(a, b, 1);
    assert a == lo;
    forall t | 0 <= t < |ps| ensures ps[t] == lo + t {
      SteppedAt(a, b, 1, t);
    }
    if ps != [] {
      assert ps[|ps| - 1] == lo + |ps| - 1;
    }
  }

  /** `lst[::-1]` lists the positions from the last down to the first. */
  lemma SliceReversed(len: nat)
    ensures var ps := SlicePositions(len, None, None, Some(-1)).value;
      |ps| == len && forall t :: 0 <= t < len ==> ps[t] == len - 1 - t
  {
    var ps := Stepped(len - 1, -1, -1);
    forall t | 0 <= t < |ps| ensures ps[t] == len - 1 - t {
      SteppedAt(len - 1, -1, -1, t);
    }
    if ps != [] {
      assert ps[|ps| - 1] == len - |ps|;
    }
  }

  /** What `ix[...]` is given: an integer position, a slice, another object
      with `start` and `stop` (read as `slice(start, stop)`, its step
      dropped), or an object without them. */
  datatype IndexKey =
    | At(i: int)
    | Span(start: Option<int>, stop: Option<int>, step: Option<int>)
    | Range(from: Option<int>, to: Option<int>)
    | Unsliceable

  /** `[vs[p] for p in ps]` */
  function PickAll(vs: seq<Node>, ps: seq<int>): (cs: seq<Node>)
    requires forall t :: 0 <= t < |ps| ==> 0 <= ps[t] < |vs|
    ensures |cs| == |ps| && forall t :: 0 <= t < |ps| ==> cs[t] == vs[ps[t]]
    ensures forall c :: c in cs ==> c in vs
  {
    if ps == [] then [] else [vs[ps[0]]] + PickAll(vs, ps[1..])
  }

  /** Distinct positions of distinct children pick distinct children. */
  lemma PickDistinct(vs: seq<Node>, ps: seq<int>)
    requires forall t :: 0 <= t < |ps| ==> 0 <= ps[t] < |vs|
    requires Distinct(vs) && Distinct(ps)
    ensures Distinct(PickAll(vs, ps))
  {
    var cs := PickAll(vs, ps);
    forall t, u | 0 <= t < u < |cs| ensures cs[t] != cs[u] {
      assert ps[t] != ps[u];
    }
  }

  /** Picking the positions `lo` to `hi - 1` in order is the slice `vs[lo..hi]`. */
  lemma PickRun(vs: seq<Node>, ps: seq<int>, lo: nat, hi: nat)
    requires lo <= hi <= |vs| && |ps| == hi - lo
    requires forall t :: 0 <= t < |ps| ==> ps[t] == lo + t
    ensures PickAll(vs, ps) == vs[lo..hi]
  {
  }

  /** A slice without a step picks the clamped range `vs[lo..hi]`. */
  lemma PickingRun(vs: seq<Node>, start: Option<int>, stop: Option<int>, lo: nat, hi: nat)
    requires Distinct(vs) && (lo, hi) == SliceBounds(|vs|, start, stop)
    ensures Picking(vs, SlicePositions(|vs|, start, stop, None)) == Ok(Many(vs[lo..hi]))
  {
    SliceStepOne(|vs|, start, stop, None);
    PickRun(vs, SlicePositions(|vs|, start, stop, None).value, lo, hi);
  }

  /** The slices before and from `s` together pick every element, in order. */
  lemma PickingSplit(vs: seq<Node>, s: int)
    requires Distinct(vs)
    ensures Picking(vs, SlicePositions(|vs|, None, Some(s), None)).Ok?
    ensures Picking(vs, SlicePositions(|vs|, Some(s), None, None)).Ok?
    ensures Picking(vs, SlicePositions(|vs|, None, Some(s), None)).value.nodes
      + Picking(vs, SlicePositions(|vs|, Some(s), None, None)).value.nodes == vs
  {
    var p := ClampPos(s, |vs|);
    assert SliceBounds(|vs|, None, Some(s)) == (0, p);
    assert SliceBounds(|vs|, Some(s), None) == (p, |vs|);
    PickingRun(vs, None, Some(s), 0, p);
    PickingRun(vs, Some(s), None, p, |vs|);
    SplitAt(vs, p);
  }

  lemma SplitAt(vs: seq<Node>, p: nat)
    requires p <= |vs|
    ensures vs[0..p] + vs[p..|vs|] == vs
  {
  }

  /** Picking the positions from the last down to the first reverses `vs`. */
  lemma PickReversed(vs: seq<Node>, ps: seq<int>)
    requires |ps| == |vs| && forall t :: 0 <= t < |ps| ==> ps[t] == |vs| - 1 - t
    ensures PickAll(vs, ps) == Reverse(vs)
  {
    var a := PickAll(vs, ps);
    forall t | 0 <= t < |a| ensures a[t] == vs[|vs| - 1 - t] {
      assert ps[t] == |vs| - 1 - t;
    }
    ReverseOf(vs, a);
  }

  /** What `ix[...]` returns: one child, or a list of children. */
  datatype Picked = One(node: Node) | Many(nodes: seq<Node>)

  /** The children a slice picks: `vs` at the positions, or the slice's error. */
  function Picking(vs: seq<Node>, ps: Result<seq<int>>): (r: Result<Picked>)
    requires Distinct(vs)
    requires ps.Ok? ==> forall t :: 0 <= t < |ps.value| ==> 0 <= ps.value[t] < |vs|
    requires ps.Ok? ==> Distinct(ps.value)
    ensures r.Ok? <==> ps.Ok?
    ensures r.Err? ==> r.error == ps.error
    ensures r.Ok? ==> r.value.Many? && |r.value.nodes| == |ps.value|
    ensures r.Ok? ==> forall t :: 0 <= t < |ps.value| ==> r.value.nodes[t] == vs[ps.value[t]]
    ensures r.Ok? ==> Distinct(r.value.nodes) && forall c :: c in r.value.nodes ==> c in vs
  {
    match ps
    case Err(e) => Err(e)
    case Ok(ps) =>
      PickDistinct(vs, ps);
      Ok(Many(PickAll(vs, ps)))
  }

  class Tree {
    /** Every entity record, by handle. */
    var nodes: Nodes
    /** The `_full_id` cache of every entity. */
    var caches: map<Node, Option<seq<Id>>>
    /** Handles below `next` have been handed out. */
    var next: Node
    ghost var rank: Ranks

    ghost predicate Inv()
      reads this
    {
      && Valid(nodes, rank)
      && caches.Keys == nodes.Keys
      && forall n :: n in nodes ==> n < next
    }

    /** Every filled cache holds the full id the parent chain gives now. */
    ghost predicate CachesSound()
      reads this
      requires Inv()
    {
      forall n :: n in nodes && caches[n].Some? ==> caches[n].value == FullIdOf(nodes, rank, n)
    }

    constructor()
      ensures Inv() && nodes == map[] && caches == map[]
    {
      nodes, caches, next, rank := map[], map[], 0, map[];
    }

    /** `Entity.__init__(id)` without children: a detached, empty entity with
        no cached full id. */
    method NewEntity(id: Id, level: Level, serialNum: Option<Id>) returns (n: Node)
      requires Inv()
      modifies this
      ensures Inv()
      ensures n !in old(nodes)
      ensures nodes == old(nodes)[n := FreshRec(id, level, serialNum)]
      ensures caches == old(caches)[n := None] && rank == old(rank)[n := 0]
    {
      n := next;
      FreshValid(nodes, rank, n, id, level, serialNum);
      nodes := nodes[n := FreshRec(id, level, serialNum)];
      caches := caches[n := None];
      rank := rank[n := 0];
      next := next + 1;
    }

    // -------------------------------------------------------------------
    // Reading

    /** `self[id]`: the child with that id, or KeyError. */
    function GetItem(n: Node, id: Id): (r: Result<Node>)
      reads this
      requires Inv() && n in nodes
      ensures r.Ok? <==> exists i :: 0 <= i < |nodes[n].children| && nodes[nodes[n].children[i]].id == id
      ensures r.Ok? ==> r.value in nodes[n].children && r.value in nodes && nodes[r.value].id == id
      ensures r.Err? ==> r.error == KeyError
    {
      assert NodeOk(nodes, n);
      if id in nodes[n].dict then Ok(nodes[n].dict[id]) else Err(KeyError)
    }

    /** `id in self` */
    predicate Contains(n: Node, id: Id)
      reads this
      requires Inv() && n in nodes
      ensures Contains(n, id) <==> GetItem(n, id).Ok?
    {
      id in nodes[n].dict
    }

    /** `len(self)`: the length of the child list, which is also the number
        of keys of the child map. */
    function Len(n: Node): (k: nat)
      reads this
      requires Inv() && n in nodes
      ensures k == |nodes[n].dict|
    {
      assert NodeOk(nodes, n);
      var ch := nodes[n].children;
      ChildIdsDistinct(nodes, rank, n);
      var ids := IdsOf(nodes, ch);
      assert nodes[n].dict.Keys == SetOf(ids) by {
        forall k | k in nodes[n].dict ensures k in SetOf(ids) {
          var i :| 0 <= i < |ch| && ch[i] == nodes[n].dict[k];
          assert ids[i] == k;
        }
      }
      assert Distinct(ids) by {
        forall i, j | 0 <= i < j < |ids| ensures ids[i] != ids[j] {
          assert ids[i] == nodes[ch[i]].id && ids[j] == nodes[ch[j]].id;
        }
      }
      SetOfSize(ids);
      |ch|
    }

    /** `bool(self)`, which Python derives from `__len__`. */
    predicate Truthy(n: Node)
      reads this
      requires Inv() && n in nodes
    {
      Len(n) > 0
    }

    /** `values()`: the children in order, each pointing back at `n`. */
    function Values(n: Node): (vs: seq<Node>)
      reads this
      requires Inv() && n in nodes
      ensures Distinct(vs) && |vs| == Len(n)
      ensures forall c :: c in vs ==> c in nodes && nodes[c].parent == Some(n) && GetItem(n, nodes[c].id) == Ok(c)
    {
      assert NodeOk(nodes, n);
      nodes[n].children
    }

    /** `iter(self)`: the ids of the children in order, without repeats, and
        exactly the keys of the child map. */
    function Iter(n: Node): (ids: seq<Id>)
      reads this
      requires Inv() && n in nodes
      ensures |ids| == Len(n) && Distinct(ids)
      ensures SetOf(ids) == nodes[n].dict.Keys
      ensures forall i :: 0 <= i < |ids| ==> GetItem(n, ids[i]) == Ok(Values(n)[i])
    {
      assert NodeOk(nodes, n);
      ChildIdsDistinct(nodes, rank, n);
      var ch := nodes[n].children;
      var ids := IdsOf(nodes, ch);
      assert SetOf(ids) == nodes[n].dict.Keys by {
        forall k | k in nodes[n].dict ensures k in SetOf(ids) {
          var i :| 0 <= i < |ch| && ch[i] == nodes[n].dict[k];
          assert ids[i] == k;
        }
      }
      ids
    }
  
    // -------------------------------------------------------------------
    // Adding and removing children

    /** What `add` and `insert` do once the batch passed validation: set the
        parent of each entity in turn, splice the batch into the child list at
        position `p`, and enter the batch into the child map. */
    method Attach(n: Node, p: nat, es: seq<Node>)
      requires Inv() && n in nodes && p <= |nodes[n].children|
      requires Attachable(nodes, rank, n, es) && DistinctIds(nodes, es)
      requires !AnyDefined(nodes, n, es)
      modifies this
      ensures Inv()
      ensures nodes == AttachAt(old(nodes), n, p, es)
      ensures caches == old(caches) && next == old(next)
      ensures forall k :: k in old(nodes) && !AncestorOrSelf(old(nodes), old(rank), k, n) ==> rank[k] == old(rank)[k]
    {
      var m0 := nodes;
      ghost var r0 := rank;
      forall c | c in es ensures m0[c].id !in m0[n].dict {
        var j :| 0 <= j < |es| && es[j] == c;
      }
      AttachValid(m0, r0, n, p, es);
      assert AncestorOrSelf(m0, r0, n, n);
      SetParentsLoop(es, Some(n));
      var ch := m0[n].children;
      nodes := nodes[n := nodes[n].(children := ch[..p] + es + ch[p..], dict := nodes[n].dict + IdMap(m0, es))];
      LiftFacts(m0, r0, n, MaxRank(r0, es) + 1);
      rank := Lift(m0, r0, n, MaxRank(r0, es) + 1);
      assert nodes.Keys == m0.Keys;
    }

    /** `for entity in entities: entity.parent = p` */
    method SetParentsLoop(es: seq<Node>, p: Option<Node>)
      requires forall c :: c in es ==> c in nodes
      modifies this
      ensures nodes == SetParents(old(nodes), es, p)
      ensures caches == old(caches) && next == old(next) && rank == old(rank)
    {
      var m0 := nodes;
      var i := 0;
      while i < |es|
        invariant 0 <= i <= |es|
        invariant nodes == SetParents(m0, es[..i], p)
        invariant caches == old(caches) && next == old(next) && rank == old(rank)
      {
        SetParentsStep(m0, es, i, p);
        nodes := nodes[es[i] := nodes[es[i]].(parent := p)];
        i := i + 1;
      }
      assert es[..|es|] == es;
    }

    /** `add(entities)`: `None` is ignored; an id already used by a child
        raises "defined twice"; two entities of the batch sharing an id raise
        "duplicates"; otherwise the batch is appended. Nothing changes on
        failure. */
    method Add(n: Node, entities: Option<seq<Node>>) returns (o: Outcome)
      requires Inv() && n in nodes
      requires entities.Some? ==> Attachable(nodes, rank, n, entities.value)
      modifies this
      ensures Inv() && caches == old(caches) && next == old(next)
      ensures entities.None? ==> o == Pass && nodes == old(nodes)
      ensures entities.Some? ==> o == CheckBatch(old(nodes), n, entities.value)
      ensures o.Fail? ==> nodes == old(nodes)
      ensures entities.Some? && o == Pass ==>
        nodes == AttachAt(old(nodes), n, |old(nodes)[n].children|, entities.value)
      ensures forall k :: k in old(nodes) && !AncestorOrSelf(old(nodes), old(rank), k, n) ==> rank[k] == old(rank)[k]
    {
      if entities.None? {
        return Pass;
      }
      var es := entities.value;
      o := CheckBatch(nodes, n, es);
      if o == Pass {
        Attach(n, |nodes[n].children|, es);
      }
    }

    /** `insert(pos, entities)`: the same validations as `add`, then the batch
        goes in before position `pos`, clamped as a Python slice position.
        `None` is not accepted (`list(None)` raises TypeError). */
    method Insert(n: Node, pos: int, entities: Option<seq<Node>>) returns (o: Outcome)
      requires Inv() && n in nodes
      requires entities.Some? ==> Attachable(nodes, rank, n, entities.value)
      modifies this
      ensures Inv() && caches == old(caches) && next == old(next)
      ensures entities.None? ==> o == Fail(TypeError)
      ensures entities.Some? ==> o == CheckBatch(old(nodes), n, entities.value)
      ensures o.Fail? ==> nodes == old(nodes)
      ensures entities.Some? && o == Pass ==>
        nodes == AttachAt(old(nodes), n, ClampPos(pos, |old(nodes)[n].children|), entities.value)
    {
      if entities.None? {
        return Fail(TypeError);
      }
      var es := entities.value;
      o := CheckBatch(nodes, n, es);
      if o == Pass {
        Attach(n, ClampPos(pos, |nodes[n].children|), es);
      }
    }

    /** `self[id] = item`: the key must be the item's own id, then `add([item])`. */
    method SetItem(n: Node, id: Id, item: Node) returns (o: Outcome)
      requires Inv() && n in nodes
      requires Attachable(nodes, rank, n, [item])
      modifies this
      ensures Inv() && caches == old(caches) && next == old(next)
      ensures id != old(nodes)[item].id ==> o == Fail(AssertionFailed)
      ensures id == old(nodes)[item].id && old(Contains(n, id)) ==> o == Fail(DefinedTwice)
      ensures o.Fail? ==> nodes == old(nodes)
      ensures o == Pass <==> id == old(nodes)[item].id && !old(Contains(n, id))
      ensures o == Pass ==> nodes == AttachAt(old(nodes), n, |old(nodes)[n].children|, [item])
    {
      if id != nodes[item].id {
        return Fail(AssertionFailed);
      }
      o := Add(n, Some([item]));
    }

    /** `pop(id)`: remove the child with that id from the map and the list,
        detach it and return it; KeyError (and no change) when absent. */
    method Pop(n: Node, id: Id) returns (r: Result<Node>)
      requires Inv() && n in nodes
      modifies this
      ensures Inv() && caches == old(caches) && next == old(next) && rank == old(rank)
      ensures r.Err? <==> !old(Contains(n, id))
      ensures r.Err? ==> r.error == KeyError && nodes == old(nodes)
      ensures r.Ok? ==> r == old(GetItem(n, id)) && nodes == DetachChild(old(nodes), n, r.value)
    {
      if id !in nodes[n].dict {
        return Err(KeyError);
      }
      assert NodeOk(nodes, n);
      var c := nodes[n].dict[id];
      ghost var i :| 0 <= i < |nodes[n].children| && nodes[n].children[i] == c;
      DetachValid(nodes, rank, n, i);
      var rec := nodes[n];
      nodes := nodes[n := rec.(children := RemoveFirst(rec.children, c), dict := rec.dict - {id})];
      nodes := nodes[c := nodes[c].(parent := None)];
      r := Ok(c);
    }

    /** `del self[id]`: `pop` without the result. */
    method Delete(n: Node, id: Id) returns (o: Outcome)
      requires Inv() && n in nodes
      modifies this
      ensures Inv() && caches == old(caches) && next == old(next) && rank == old(rank)
      ensures o.Fail? <==> !old(Contains(n, id))
      ensures o.Fail? ==> o.error == KeyError && nodes == old(nodes)
      ensures o == Pass ==> nodes == DetachChild(old(nodes), n, old(GetItem(n, id)).value)
    {
      var r := Pop(n, id);
      o := if r.Ok? then Pass else Fail(r.error);
    }

    /** `clear()`: detach every child in turn, then empty the list, the map
        and `xtra`. */
    method Clear(n: Node)
      requires Inv() && n in nodes
      modifies this
      ensures Inv() && nodes == ClearAll(old(nodes), n)
      ensures caches == old(caches) && next == old(next) && rank == old(rank)
    {
      ClearValid(nodes, rank, n);
      assert NodeOk(nodes, n);
      SetParentsLoop(nodes[n].children, None);
      nodes := nodes[n := nodes[n].(children := [], dict := map[], xtra := map[])];
    }

    /** `copy()`: a new entity with the same id, level, serial number and a
        copy of `xtra`, no parent and no cached full id, whose children are
        copies of the original's children, in the same order. Nothing that
        existed before changes, and no entity of the copy existed before. */
    method Copy(n: Node) returns (c: Node)
      requires Inv() && n in nodes
      modifies this
      ensures Inv()
      ensures c !in old(nodes) && c in nodes && nodes[c].parent == None
      ensures ShapeOf(nodes, rank, c) == ShapeOf(old(nodes), old(rank), n)
      ensures forall d :: d in Desc(nodes, rank, c) ==> d !in old(nodes) && caches[d] == None
      ensures forall k :: k in old(nodes) ==> k in nodes && nodes[k] == old(nodes)[k] && caches[k] == old(caches)[k]
      ensures forall k :: k in old(nodes) ==> rank[k] == old(rank)[k]
      decreases rank[n], 1
    {
      ghost var m0, r0, c0 := nodes, rank, caches;
      var rec := nodes[n];
      c := NewEntity(rec.id, rec.level, rec.serialNum);
      var copies := CopyChildren(n, c, m0, r0);
      AdoptCopies(n, c, copies, rec.xtra, m0, r0, c0);
    }

    /** The end of `copy()`: hang the finished copies under the new head `c`
        and give it the original's `xtra`; the result is a copy of `n` as it
        was in `m0`, and what existed in `m0` is untouched. */
    method AdoptCopies(n: Node, c: Node, copies: seq<Node>, xtra: map<string, string>,
                       ghost m0: Nodes, ghost r0: Ranks, ghost c0: map<Node, Option<seq<Id>>>)
      requires Inv() && Valid(m0, r0) && c0.Keys == m0.Keys && n in m0 && xtra == m0[n].xtra
      requires c in nodes && c !in m0 && nodes[c] == FreshRec(m0[n].id, m0[n].level, m0[n].serialNum) && caches[c] == None
      requires forall k :: k in m0 ==> k in nodes && nodes[k] == m0[k] && caches[k] == c0[k] && rank[k] == r0[k]
      requires ChildCopies(nodes, rank, caches, m0, r0, c, n, copies)
      requires Attachable(nodes, rank, c, copies)
      modifies this
      ensures Inv()
      ensures c in nodes && nodes[c].parent == None
      ensures ShapeOf(nodes, rank, c) == ShapeOf(m0, r0, n)
      ensures forall d :: d in Desc(nodes, rank, c) ==> d !in m0 && caches[d] == None
      ensures Kept(m0, r0, c0, nodes, rank, caches)
    {
      ghost var mb, rb, cb := nodes, rank, caches;
      var o := Add(c, Some(copies));
      assert o == Pass;
      ghost var ma := nodes;
      SetXtra(c, xtra);
      CopyAdopted(mb, rb, cb, ma, nodes, rank, m0, r0, c0, n, c, copies);
    }

    /** `xtra` of `n` replaced by `x`; nothing else changes. */
    method SetXtra(n: Node, x: map<string, string>)
      requires Inv() && n in nodes
      modifies this
      ensures Inv() && nodes == old(nodes)[n := old(nodes)[n].(xtra := x)]
      ensures caches == old(caches) && rank == old(rank) && next == old(next)
    {
      SetXtraValid(nodes, rank, n, x);
      nodes := nodes[n := nodes[n].(xtra := x)];
    }

    /** The generator `(c.copy() for c in self.values())` of `copy`, run to the
        end: one finished copy per child of `n`, in order, none of them `c`. */
    method CopyChildren(n: Node, c: Node, ghost m0: Nodes, ghost r0: Ranks) returns (copies: seq<Node>)
      requires Inv() && Valid(m0, r0) && n in m0 && c in nodes && c !in m0
      requires nodes[c].children == [] && nodes[c].dict == map[] && nodes[c].parent == None
      requires forall k :: k in m0 ==> k in nodes && nodes[k] == m0[k] && rank[k] == r0[k]
      modifies this
      ensures Inv() && c in nodes && nodes[c] == old(nodes)[c] && caches[c] == old(caches)[c]
      ensures forall k :: k in m0 ==> k in nodes && nodes[k] == m0[k] && caches[k] == old(caches)[k] && rank[k] == r0[k]
      ensures ChildCopies(nodes, rank, caches, m0, r0, c, n, copies)
      ensures Attachable(nodes, rank, c, copies)
      decreases rank[n], 0
    {
      ghost var c0 := caches;
      ghost var nc := nodes[c];
      var ch := nodes[n].children;
      ChildRanks(m0, r0, n);
      ChildIdsDistinct(m0, r0, n);
      copies := [];
      var i := 0;
      while i < |ch|
        invariant 0 <= i <= |ch| && |copies| == i
        invariant Inv() && c in nodes && nodes[c] == nc && caches[c] == c0[c]
        invariant forall k :: k in m0 ==> k in nodes && nodes[k] == m0[k] && caches[k] == c0[k] && rank[k] == r0[k]
        invariant forall j :: 0 <= j < i ==> CopyOf(nodes, rank, caches, m0, r0, c, ch[j], copies[j])
        invariant Distinct(copies)
        invariant forall x :: x in copies ==> x in nodes && x !in m0 && x != c
      {
        ghost var mb, rb, cb := nodes, rank, caches;
        assert ch[i] in ch;
        var cc := Copy(ch[i]);
        CopyStep(mb, rb, cb, nodes, rank, caches, m0, r0, c, n, copies, cc);
        copies := copies + [cc];
        i := i + 1;
      }
      CopiesDone(nodes, rank, caches, m0, r0, c, n, copies);
    }

    // -------------------------------------------------------------------
    // Ids and full ids

    /** `_reset_full_id()`: clear the cached full id of `n` and, recursively
        through the child lists, of everything below it. */
    method ResetFullId(n: Node)
      requires Inv() && n in nodes
      modifies this
      ensures Inv() && nodes == old(nodes) && rank == old(rank) && next == old(next)
      ensures caches == ClearCaches(old(caches), Desc(nodes, rank, n))
      decreases rank[n]
    {
      var ch := nodes[n].children;
      ghost var m0, r0, c0 := nodes, rank, caches;
      assert Valid(m0, r0) && c0.Keys == m0.Keys;
      ChildRanks(m0, r0, n);
      var i := 0;
      while i < |ch|
        invariant 0 <= i <= |ch|
        invariant nodes == m0 && rank == r0 && next == old(next)
        invariant caches == ClearCaches(c0, DescUpTo(m0, r0, n, i))
      {
        assert ch[i] in ch;
        ResetFullId(ch[i]);
        ClearCachesUnion(c0, DescUpTo(m0, r0, n, i), Desc(m0, r0, ch[i]));
        i := i + 1;
      }
      ClearCachesOne(c0, DescUpTo(m0, r0, n, |ch|), n);
      caches := caches[n := None];
      assert Desc(m0, r0, n) == DescUpTo(m0, r0, n, |ch|) + {n};
    }

    /** The `id` setter. When the entity has a parent (a parent listing it is
        never empty, so `if self.parent` is the same as `is not None`), an id
        already present in the parent's map, the entity's own id included,
        raises ValueError and nothing changes; otherwise the parent's map is
        re-keyed. Then the id is set and the cached full ids of the entity and
        everything below it are cleared. */
    method SetId(x: Node, newId: Id) returns (o: Outcome)
      requires Inv() && x in nodes
      modifies this
      ensures Inv() && next == old(next) && rank == old(rank)
      ensures o.Fail? <==> !FreeInParent(old(nodes), x, newId)
      ensures o.Fail? ==> o.error == ValueError && nodes == old(nodes) && caches == old(caches)
      ensures o == Pass ==> nodes == Rekey(old(nodes), x, newId)
      ensures o == Pass ==> caches == ClearCaches(old(caches), Desc(nodes, rank, x))
      ensures old(CachesSound()) ==> CachesSound()
    {
      var par := nodes[x].parent;
      assert RankOk(nodes, rank, x);
      if par.Some? {
        assert NodeOk(nodes, x);
        assert Truthy(par.value);
      }
      if par.Some? && Truthy(par.value) {
        var p := par.value;
        if newId in nodes[p].dict {
          return Fail(ValueError);
        }
      }
      RekeyValid(nodes, rank, x, newId);
      ghost var m0 := nodes;
      if par.Some? && Truthy(par.value) {
        var p := par.value;
        nodes := nodes[p := nodes[p].(dict := (nodes[p].dict - {nodes[x].id})[newId := x])];
      }
      nodes := nodes[x := nodes[x].(id := newId)];
      assert nodes == Rekey(m0, x, newId);
      ghost var c0 := caches;
      ResetFullId(x);
      o := Pass;
      if old(CachesSound()) {
        RekeySound(m0, rank, c0, x, newId);
      }
    }

    /** The loop of `full_id`: the ids met walking up the parent links from
        `n`, `n`'s own first. */
    method ParentChainIds(n: Node) returns (lst: seq<Id>)
      requires Inv() && n in nodes
      ensures Reverse(lst) == FullIdOf(nodes, rank, n)
    {
      lst := [nodes[n].id];
      var parent := nodes[n].parent;
      assert RankOk(nodes, rank, n);
      while parent.Some?
        invariant parent.Some? ==> parent.value in nodes && FullIdOf(nodes, rank, parent.value) + Reverse(lst) == FullIdOf(nodes, rank, n)
        invariant parent.None? ==> Reverse(lst) == FullIdOf(nodes, rank, n)
        decreases if parent.Some? then Above(rank, parent.value) else {}
      {
        var q := parent.value;
        assert RankOk(nodes, rank, q);
        assert q in Above(rank, q);
        if nodes[q].parent.Some? {
          AboveShrinks(rank, q, nodes[q].parent.value);
        }
        ReverseSnoc(lst, nodes[q].id);
        lst := lst + [nodes[q].id];
        parent := nodes[q].parent;
      }
    }

    /** `full_id`: the cached value when there is one; otherwise the ids met
        walking up the parent links from `n`, reversed so that the root comes
        first, which is then cached. */
    method FullId(n: Node) returns (f: seq<Id>)
      requires Inv() && n in nodes
      modifies this
      ensures Inv() && nodes == old(nodes) && rank == old(rank) && next == old(next)
      ensures old(caches)[n].Some? ==> f == old(caches)[n].value && caches == old(caches)
      ensures old(caches)[n].None? ==> f == FullIdOf(nodes, rank, n) && caches == old(caches)[n := Some(f)]
      ensures old(CachesSound()) ==> CachesSound() && f == FullIdOf(nodes, rank, n)
    {
      if caches[n].Some? {
        return caches[n].value;
      }
      var lst := ParentChainIds(n);
      f := Reverse(lst);
      caches := caches[n := Some(f)];
    }

    // -------------------------------------------------------------------
    // The positional view `ix`

    /** `self.ix[k]`: the child at an integer position, counted from the end
        when negative, or the children a slice picks, as a new list. Any
        other key is read as `slice(k.start, k.stop)`, its step dropped; a
        key without `start` raises AttributeError. */
    function IndexGet(n: Node, k: IndexKey): (r: Result<Picked>)
      reads this
      requires Inv() && n in nodes
      ensures k.At? ==> (r.Ok? <==> -(Len(n) as int) <= k.i < Len(n))
      ensures k.At? && r.Err? ==> r.error == IndexError
      ensures k.At? && r.Ok? ==> r.value.One? && r.value.node == Values(n)[if k.i < 0 then Len(n) + k.i else k.i]
      ensures k.At? && r.Ok? ==> GetItem(n, nodes[r.value.node].id) == Ok(r.value.node)
      ensures k.Unsliceable? ==> r == Err(AttributeError)
      ensures k.Span? || k.Range? ==>
        var ps := if k.Span? then SlicePositions(Len(n), k.start, k.stop, k.step)
          else SlicePositions(Len(n), k.from, k.to, None);
        && (r.Ok? <==> ps.Ok?)
        && (r.Err? ==> r.error == ValueError)
        && (r.Ok? ==> r.value.Many? && |r.value.nodes| == |ps.value|)
        && (r.Ok? ==> forall t :: 0 <= t < |ps.value| ==> r.value.nodes[t] == Values(n)[ps.value[t]])
      ensures r.Ok? && r.value.Many? ==> Distinct(r.value.nodes) && forall c :: c in r.value.nodes ==> c in Values(n)
    {
      match k
      case At(i) =>
        (match PyIndex(Len(n), i)
         case Some(j) => Ok(One(Values(n)[j]))
         case None => Err(IndexError))
      case Unsliceable => Err(AttributeError)
      case Span(start, stop, step) => Picking(Values(n), SlicePositions(Len(n), start, stop, step))
      case Range(from, to) => Picking(Values(n), SlicePositions(Len(n), from, to, None))
    }

    /** `ix[:s] + ix[s:]` lists every child, in order. */
    lemma IndexSplit(n: Node, s: int)
      requires Inv() && n in nodes
      ensures IndexGet(n, Span(None, Some(s), None)).value.nodes + IndexGet(n, Span(Some(s), None, None)).value.nodes == Values(n)
    {
      PickingSplit(Values(n), s);
    }

    /** A slice without a step lists the children of its clamped range, in
        order. */
    lemma IndexStepOne(n: Node, start: Option<int>, stop: Option<int>)
      requires Inv() && n in nodes
      ensures var (lo, hi) := SliceBounds(Len(n), start, stop);
        IndexGet(n, Span(start, stop, None)) == Ok(Many(Values(n)[lo..hi]))
    {
      var (lo, hi) := SliceBounds(Len(n), start, stop);
      PickingRun(Values(n), start, stop, lo, hi);
    }

    /** `ix[::-1]` lists the children in reverse. */
    lemma IndexReversed(n: Node)
      requires Inv() && n in nodes
      ensures IndexGet(n, Span(None, None, Some(-1))) == Ok(Many(Reverse(Values(n))))
    {
      SliceReversed(Len(n));
      PickReversed(Values(n), SlicePositions(Len(n), None, None, Some(-1)).value);
    }

    /** `del self.ix[k]`: look the children up as `ix[k]` does, then delete
        each of them by id. The children a slice picks are left out of the
        list and the map, the others keep their order, and the picked ones
        lose their parent. */
    method IndexDelete(n: Node, k: IndexKey) returns (o: Outcome)
      requires Inv() && n in nodes
      modifies this
      ensures Inv() && caches == old(caches) && next == old(next) && rank == old(rank)
      ensures o.Fail? <==> old(IndexGet(n, k)).Err?
      ensures o.Fail? ==> o.error == old(IndexGet(n, k)).error && nodes == old(nodes)
      ensures k.At? && o == Pass ==>
        var c := old(IndexGet(n, k)).value.node;
        && nodes == DetachChild(old(nodes), n, c)
        && !Contains(n, old(nodes)[c].id)
      ensures !k.At? && o == Pass ==>
        nodes == DetachSet(old(nodes), n, SetOf(old(IndexGet(n, k)).value.nodes))
    {
      var r := IndexGet(n, k);
      if r.Err? {
        return Fail(r.error);
      }
      match r.value
      case One(c) =>
        assert NodeOk(nodes, n);
        ghost var i :| 0 <= i < |nodes[n].children| && nodes[n].children[i] == c;
        DetachValid(nodes, rank, n, i);
        var d := Delete(n, nodes[c].id);
        o := Pass;
      case Many(cs) =>
        DeleteEach(n, cs);
        o := Pass;
    }

    /** `del ix[a:b]` leaves the children before `a` and from `b` on, in order. */
    lemma DeleteSpanLeaves(n: Node, start: Option<int>, stop: Option<int>)
      requires Inv() && n in nodes
      ensures var (lo, hi) := SliceBounds(Len(n), start, stop);
        var picked := IndexGet(n, Span(start, stop, None)).value.nodes;
        DetachSet(nodes, n, SetOf(picked))[n].children == Values(n)[..lo] + Values(n)[hi..]
    {
      var (lo, hi) := SliceBounds(Len(n), start, stop);
      IndexStepOne(n, start, stop);
      WithoutRun(Values(n), lo, hi, SetOf(Values(n)[lo..hi]));
    }

    /** The loop of `del self.ix[slice]`: delete the picked children one by
        one, each by its id. */
    method DeleteEach(n: Node, items: seq<Node>)
      requires Inv() && n in nodes && Distinct(items)
      requires forall c :: c in items ==> c in nodes[n].children
      modifies this
      ensures Inv() && caches == old(caches) && next == old(next) && rank == old(rank)
      ensures nodes == DetachSet(old(nodes), n, SetOf(items))
    {
      ghost var m0, r0 := nodes, rank;
      DetachSetEmpty(nodes, n);
      assert SetOf(items[..0]) == {};
      var j := 0;
      while j < |items|
        invariant 0 <= j <= |items|
        invariant Inv() && Valid(m0, r0) && rank == r0 && n in m0
        invariant caches == old(caches) && next == old(next)
        invariant nodes == DetachSet(m0, n, SetOf(items[..j]))
      {
        DeleteNext(n, items, j, m0, r0);
        j := j + 1;
      }
      assert items[..j] == items;
    }

    /** One turn of that loop: `del self[item.id]` for the next picked child. */
    method DeleteNext(n: Node, items: seq<Node>, j: nat, ghost m0: Nodes, ghost r0: Ranks)
      requires Inv() && Valid(m0, r0) && rank == r0 && n in m0 && j < |items| && Distinct(items)
      requires forall c :: c in items ==> c in m0[n].children
      requires nodes == DetachSet(m0, n, SetOf(items[..j]))
      modifies this
      ensures Inv() && caches == old(caches) && next == old(next) && rank == old(rank)
      ensures nodes == DetachSet(m0, n, SetOf(items[..j + 1]))
    {
      var item := items[j];
      assert item !in SetOf(items[..j]) by {
        forall t | 0 <= t < j ensures items[..j][t] != item { }
      }
      assert SetOf(items[..j + 1]) == SetOf(items[..j]) + {item} by {
        assert items[..j + 1] == items[..j] + [item];
      }
      DetachSetStep(m0, r0, n, SetOf(items[..j]), item);
      ghost var m1 := nodes;
      assert NodeOk(nodes, n);
      assert GetItem(n, nodes[item].id) == Ok(item);
      var d := Delete(n, nodes[item].id);
      assert nodes == DetachChild(m1, n, item);
    }
  }

  lemma SetParentsStep(m: Nodes, es: seq<Node>, i: nat, p: Option<Node>)
    requires i < |es| && es[i] in m
    ensures SetParents(m, es[..i + 1], p) == SetParents(m, es[..i], p)[es[i] := m[es[i]].(parent := p)]
  {
    assert es[..i + 1] == es[..i] + [es[i]];
    var a, b := SetParents(m, es[..i + 1], p), SetParents(m, es[..i], p)[es[i] := m[es[i]].(parent := p)];
    forall k | k in m ensures a[k] == b[k] {
      if k != es[i] {
        assert k in es[..i + 1] <==> k in es[..i];
      }
    }
  }

  /** The caches with every entry in `s` cleared. */
  ghost function ClearCaches(c: map<Node, Option<seq<Id>>>, s: set<Node>): map<Node, Option<seq<Id>>> {
    map k | k in c :: if k in s then None else c[k]
  }

  lemma ClearCachesUnion(c: map<Node, Option<seq<Id>>>, a: set<Node>, b: set<Node>)
    ensures ClearCaches(ClearCaches(c, a), b) == ClearCaches(c, a + b)
  {
  }

  lemma ClearCachesOne(c: map<Node, Option<seq<Id>>>, a: set<Node>, n: Node)
    requires n in c
    ensures ClearCaches(c, a)[n := None] == ClearCaches(c, a + {n})
  {
  }

  /** Python's `lst.reverse()`, as a value. */
  function Reverse<T>(s: seq<T>): (r: seq<T>)
    ensures |r| == |s|
    ensures forall i :: 0 <= i < |s| ==> r[i] == s[|s| - 1 - i]
  {
    if s == [] then [] else Reverse(s[1..]) + [s[0]]
  }

  /** A sequence holding the elements of `s` from the last to the first is
      `Reverse(s)`. */
  lemma ReverseOf<T>(s: seq<T>, b: seq<T>)
    requires |b| == |s| && forall i :: 0 <= i < |s| ==> b[i] == s[|s| - 1 - i]
    ensures b == Reverse(s)
  {
    var r := Reverse(s);
    forall i | 0 <= i < |s| ensures b[i] == r[i] {
      assert r[i] == s[|s| - 1 - i];
    }
  }

  lemma ReverseSnoc<T>(s: seq<T>, x: T)
    ensures Reverse(s + [x]) == [x] + Reverse(s)
  {
    var a, b := Reverse(s + [x]), [x] + Reverse(s);
    assert |a| == |b|;
    forall i | 0 <= i < |a| ensures a[i] == b[i] {
      if i > 0 {
        assert a[i] == (s + [x])[|s| - i];
      }
    }
  }

  /** Parent links alone decide the ancestor relation. */
  /** Re-keying `x` and clearing the caches of everything below it keeps
      every remaining cached full id right. */
  lemma RekeySound(m0: Nodes, rank: Ranks, c0: map<Node, Option<seq<Id>>>, x: Node, newId: Id)
    requires Valid(m0, rank) && x in m0 && FreeInParent(m0, x, newId) && c0.Keys == m0.Keys
    requires forall n :: n in m0 && c0[n].Some? ==> c0[n].value == FullIdOf(m0, rank, n)
    ensures Valid(Rekey(m0, x, newId), rank)
    ensures var m := Rekey(m0, x, newId); var cs := ClearCaches(c0, Desc(m, rank, x));
      forall k :: k in m && cs[k].Some? ==> cs[k].value == FullIdOf(m, rank, k)
  {
    var m := Rekey(m0, x, newId);
    RekeyValid(m0, rank, x, newId);
    var cs := ClearCaches(c0, Desc(m, rank, x));
    forall k | k in m && cs[k].Some? ensures cs[k].value == FullIdOf(m, rank, k) {
      DescIff(m, rank, x, k);
      AncestorFrame(m0, m, rank, x, k);
      RekeyFullId(m0, rank, x, newId, k);
    }
  }

  lemma {:induction false} AncestorFrame(m: Nodes, m2: Nodes, rank: Ranks, a: Node, n: Node)
    requires Ranked(m, rank) && Ranked(m2, rank) && n in m && m.Keys == m2.Keys
    requires forall k :: k in m ==> m2[k].parent == m[k].parent
    ensures AncestorOrSelf(m, rank, a, n) == AncestorOrSelf(m2, rank, a, n)
    decreases Above(rank, n)
  {
    if a != n && m[n].parent.Some? {
      var p := m[n].parent.value;
      assert RankOk(m, rank, n);
      AboveShrinks(rank, n, p);
      AncestorFrame(m, m2, rank, a, p);
    }
  }

  /** `cp` is a finished copy of `orig` (an entity of the earlier state `m0`)
      inside the state `m`, made while building the copy `c` of its parent. */
  ghost predicate CopyOf(m: Nodes, r: Ranks, cs: map<Node, Option<seq<Id>>>, m0: Nodes, r0: Ranks, c: Node, orig: Node, cp: Node)
    requires Valid(m, r) && Valid(m0, r0) && orig in m0 && cs.Keys == m.Keys
  {
    && cp in m && cp !in m0 && cp != c && m[cp].parent == None
    && ShapeOf(m, r, cp) == ShapeOf(m0, r0, orig)
    && forall d :: d in Desc(m, r, cp) ==> d !in m0 && d != c && cs[d] == None
  }

  /** `copies` are finished copies of the children of `n` (in the earlier
      state `m0`), in order, all new and none of them `c`. */
  ghost predicate ChildCopies(m: Nodes, r: Ranks, cs: map<Node, Option<seq<Id>>>, m0: Nodes, r0: Ranks, c: Node, n: Node, copies: seq<Node>)
    requires Valid(m, r) && Valid(m0, r0) && n in m0 && cs.Keys == m.Keys
  {
    && |copies| == |m0[n].children|
    && (forall j :: 0 <= j < |copies| ==>
          (m0[n].children[j] in m0 && CopyOf(m, r, cs, m0, r0, c, m0[n].children[j], copies[j])))
    && (forall x :: x in copies ==> x in m && x !in m0 && x != c)
    && DistinctIds(m, copies)
  }

  /** A finished copy stays one while nothing that existed changes. */
  lemma CopyOfFrame(m: Nodes, r: Ranks, cs: map<Node, Option<seq<Id>>>,
                    m2: Nodes, r2: Ranks, cs2: map<Node, Option<seq<Id>>>,
                    m0: Nodes, r0: Ranks, c: Node, orig: Node, cp: Node)
    requires Valid(m, r) && Valid(m2, r2) && Valid(m0, r0) && orig in m0
    requires cs.Keys == m.Keys && cs2.Keys == m2.Keys
    requires forall k :: k in m ==> k in m2 && m2[k] == m[k] && cs2[k] == cs[k]
    requires CopyOf(m, r, cs, m0, r0, c, orig, cp)
    ensures CopyOf(m2, r2, cs2, m0, r0, c, orig, cp)
  {
    ShapeFrame(m, r, m2, r2, cp);
  }

  /** The last steps of `copy`: hanging the child copies under `c` and
      setting its `xtra` make `c` a copy of `n`. */
  lemma CopyFinish(mb: Nodes, rb: Ranks, cb: map<Node, Option<seq<Id>>>,
                   m: Nodes, r: Ranks, cs: map<Node, Option<seq<Id>>>,
                   m0: Nodes, r0: Ranks, n: Node, c: Node, copies: seq<Node>)
    requires Valid(mb, rb) && Valid(m, r) && Valid(m0, r0) && n in m0
    requires cb.Keys == mb.Keys && cs.Keys == m.Keys
    requires |copies| == |m0[n].children| && c in mb && c !in m0
    requires forall j :: 0 <= j < |copies| ==>
      (m0[n].children[j] in m0 && CopyOf(mb, rb, cb, m0, r0, c, m0[n].children[j], copies[j]))
    requires c in m && m[c] == NodeRec(m0[n].id, m0[n].level, m0[n].serialNum, m0[n].xtra, None, copies, m[c].dict)
    requires forall k :: k in mb && k != c ==> k in m && m[k] == mb[k].(parent := m[k].parent)
    requires forall k :: k in mb && k != c ==> cs[k] == cb[k]
    requires cs[c] == None
    ensures ShapeOf(m, r, c) == ShapeOf(m0, r0, n)
    ensures forall d :: d in Desc(m, r, c) ==> d !in m0 && cs[d] == None
  {
    var ch := m0[n].children;
    forall j | 0 <= j < |copies|
      ensures copies[j] in m && ShapeOf(m, r, copies[j]) == ShapeOf(m0, r0, ch[j])
      ensures Desc(m, r, copies[j]) == Desc(mb, rb, copies[j])
    {
      assert CopyOf(mb, rb, cb, m0, r0, c, ch[j], copies[j]);
      forall d | d in Desc(mb, rb, copies[j]) ensures d in m && SameContent(mb[d], m[d]) {
        assert d != c;
      }
      ShapeFrame(mb, rb, m, r, copies[j]);
    }
    ChildRanks(m, r, c);
    ChildRanks(m0, r0, n);
    assert ShapeOf(m, r, c).children == ShapeOf(m0, r0, n).children;
    forall d | d in Desc(m, r, c) ensures d !in m0 && cs[d] == None {
      if d != c {
        DescUpToSplit(m, r, c, |copies|, d);
        var j :| 0 <= j < |copies| && copies[j] in m && d in Desc(m, r, copies[j]);
        assert CopyOf(mb, rb, cb, m0, r0, c, ch[j], copies[j]);
      }
    }
  }

  /** One round of the loop in `CopyChildren`: the copies made so far stay
      finished copies, and the new copy `cc` of the next child joins them. */
  lemma CopyStep(mb: Nodes, rb: Ranks, cb: map<Node, Option<seq<Id>>>,
                 m: Nodes, r: Ranks, cs: map<Node, Option<seq<Id>>>,
                 m0: Nodes, r0: Ranks, c: Node, n: Node, copies: seq<Node>, cc: Node)
    requires Valid(mb, rb) && Valid(m, r) && Valid(m0, r0) && n in m0
    requires cb.Keys == mb.Keys && cs.Keys == m.Keys && c in mb && c !in m0
    requires |copies| < |m0[n].children| && m0[n].children[|copies|] in m0
    requires forall k :: k in m0 ==> k in mb && mb[k] == m0[k]
    requires forall j :: 0 <= j < |copies| ==>
      (m0[n].children[j] in m0 && CopyOf(mb, rb, cb, m0, r0, c, m0[n].children[j], copies[j]))
    requires Distinct(copies)
    requires forall k :: k in mb ==> k in m && m[k] == mb[k] && cs[k] == cb[k]
    requires cc !in mb && cc in m && m[cc].parent == None
    requires ShapeOf(m, r, cc) == ShapeOf(mb, rb, m0[n].children[|copies|])
    requires forall d :: d in Desc(m, r, cc) ==> d !in mb && cs[d] == None
    ensures forall j :: 0 <= j < |copies| + 1 ==>
      (m0[n].children[j] in m0 && CopyOf(m, r, cs, m0, r0, c, m0[n].children[j], (copies + [cc])[j]))
    ensures Distinct(copies + [cc])
  {
    var ch := m0[n].children;
    forall j | 0 <= j < |copies| ensures CopyOf(m, r, cs, m0, r0, c, ch[j], copies[j]) {
      CopyOfFrame(mb, rb, cb, m, r, cs, m0, r0, c, ch[j], copies[j]);
    }
    ShapeFrame(m0, r0, mb, rb, ch[|copies|]);
    assert CopyOf(m, r, cs, m0, r0, c, ch[|copies|], cc);
    forall j | 0 <= j < |copies| ensures copies[j] != cc {
      assert CopyOf(mb, rb, cb, m0, r0, c, ch[j], copies[j]);
    }
  }

  /** When the loop in `CopyChildren` ends, its copies are the children's
      copies and can be hung under `c`. */
  lemma CopiesDone(m: Nodes, r: Ranks, cs: map<Node, Option<seq<Id>>>, m0: Nodes, r0: Ranks, c: Node, n: Node, copies: seq<Node>)
    requires Valid(m, r) && Valid(m0, r0) && n in m0 && cs.Keys == m.Keys && c in m && m[c].parent == None
    requires |copies| == |m0[n].children|
    requires (forall k :: k in m0[n].children ==> k in m0) && DistinctIds(m0, m0[n].children)
    requires forall j :: 0 <= j < |copies| ==>
      (m0[n].children[j] in m0 && CopyOf(m, r, cs, m0, r0, c, m0[n].children[j], copies[j]))
    requires forall x :: x in copies ==> x in m && x !in m0 && x != c
    ensures ChildCopies(m, r, cs, m0, r0, c, n, copies)
    ensures Attachable(m, r, c, copies)
  {
    var ch := m0[n].children;
    forall j | 0 <= j < |copies| ensures copies[j] in m && m[copies[j]].id == m0[ch[j]].id {
      assert CopyOf(m, r, cs, m0, r0, c, ch[j], copies[j]);
    }
    assert DistinctIds(m, copies);
    forall x | x in copies ensures x in m && m[x].parent == None && !AncestorOrSelf(m, r, x, c) {
      var j :| 0 <= j < |copies| && copies[j] == x;
      assert CopyOf(m, r, cs, m0, r0, c, ch[j], copies[j]);
    }
  }

  /** After the child copies are hung under `c` and its `xtra` is set, `c`
      is a copy of `n`. */
  lemma CopyAttached(mb: Nodes, rb: Ranks, cb: map<Node, Option<seq<Id>>>, ma: Nodes,
                     m: Nodes, r: Ranks, m0: Nodes, r0: Ranks, n: Node, c: Node, copies: seq<Node>)
    requires Valid(mb, rb) && Valid(m, r) && Valid(m0, r0) && n in m0
    requires cb.Keys == mb.Keys && c in mb && c !in m0
    requires mb[c] == FreshRec(m0[n].id, m0[n].level, m0[n].serialNum) && cb[c] == None
    requires ChildCopies(mb, rb, cb, m0, r0, c, n, copies)
    requires ma == AttachAt(mb, c, 0, copies) && c in ma && m == ma[c := ma[c].(xtra := m0[n].xtra)]
    ensures c in m && m[c].parent == None
    ensures ShapeOf(m, r, c) == ShapeOf(m0, r0, n)
    ensures forall d :: d in Desc(m, r, c) ==> d !in m0 && cb[d] == None
  {
    assert forall x :: x in copies ==> x in mb && x != c;
    CopyHead(mb, ma, m, m0, n, c, copies);
    CopyFinish(mb, rb, cb, m, r, cb, m0, r0, n, c, copies);
  }

  /** The head of the copy after its children are hung under it and its `xtra` is set. */
  lemma CopyHead(mb: Nodes, ma: Nodes, m: Nodes, m0: Nodes, n: Node, c: Node, copies: seq<Node>)
    requires n in m0 && c in mb && mb[c] == FreshRec(m0[n].id, m0[n].level, m0[n].serialNum)
    requires forall x :: x in copies ==> x in mb && x != c
    requires DistinctIds(mb, copies)
    requires ma == AttachAt(mb, c, 0, copies) && c in ma && m == ma[c := ma[c].(xtra := m0[n].xtra)]
    ensures c in m && m[c] == NodeRec(m0[n].id, m0[n].level, m0[n].serialNum, m0[n].xtra, None, copies, m[c].dict)
    ensures forall k :: k in mb && k != c ==> k in m && m[k] == mb[k].(parent := m[k].parent)
  {
    AttachAtFacts(mb, c, 0, copies);
    CopyHeadRec(mb, ma, m0, n, c, copies);
    forall k | k in mb && k != c ensures k in m && m[k] == mb[k].(parent := m[k].parent) {
      assert m[k] == ma[k];
    }
  }

  lemma CopyHeadRec(mb: Nodes, ma: Nodes, m0: Nodes, n: Node, c: Node, copies: seq<Node>)
    requires n in m0 && c in mb && mb[c] == FreshRec(m0[n].id, m0[n].level, m0[n].serialNum)
    requires (forall x :: x in copies ==> x in mb) && DistinctIds(mb, copies)
    requires AttachedTo(mb, ma, c, copies, mb[c].children[..0] + copies + mb[c].children[0..], mb[c].dict + IdMap(mb, copies))
    ensures c in ma && ma[c] == NodeRec(m0[n].id, m0[n].level, m0[n].serialNum, map[], None, copies, ma[c].dict)
  {
    assert mb[c].children[..0] + copies + mb[c].children[0..] == copies;
  }

  /** Nothing that existed before `copy` has changed. */
  lemma CopyUntouched(mb: Nodes, rb: Ranks, cb: map<Node, Option<seq<Id>>>, ma: Nodes, m: Nodes, r: Ranks,
                      m0: Nodes, r0: Ranks, n: Node, c: Node, copies: seq<Node>)
    requires Valid(mb, rb) && Valid(m0, r0) && cb.Keys == mb.Keys && n in m0 && c in mb && c !in m0 && mb[c].parent == None
    requires ChildCopies(mb, rb, cb, m0, r0, c, n, copies)
    requires ma == AttachAt(mb, c, 0, copies) && m == ma[c := ma[c].(xtra := m0[n].xtra)]
    requires forall k :: k in mb && !AncestorOrSelf(mb, rb, k, c) ==> k in r && r[k] == rb[k]
    ensures forall k :: k in m0 && k in mb ==> k in m && m[k] == mb[k] && k in r && r[k] == rb[k]
  {
    AttachAtFacts(mb, c, 0, copies);
    forall k | k in m0 && k in mb ensures k in m && m[k] == mb[k] && k in r && r[k] == rb[k] {
      assert k !in copies;
      assert !AncestorOrSelf(mb, rb, k, c);
    }
  }

  /** The end of `copy()` in one: `c` is a copy of `n` and everything of `m0` is kept. */
  lemma CopyAdopted(mb: Nodes, rb: Ranks, cb: map<Node, Option<seq<Id>>>, ma: Nodes, m: Nodes, r: Ranks,
                    m0: Nodes, r0: Ranks, c0: map<Node, Option<seq<Id>>>, n: Node, c: Node, copies: seq<Node>)
    requires Valid(mb, rb) && Valid(m, r) && Valid(m0, r0) && n in m0 && c0.Keys == m0.Keys
    requires cb.Keys == mb.Keys && c in mb && c !in m0
    requires mb[c] == FreshRec(m0[n].id, m0[n].level, m0[n].serialNum) && cb[c] == None
    requires forall k :: k in m0 ==> k in mb && mb[k] == m0[k] && cb[k] == c0[k] && rb[k] == r0[k]
    requires ChildCopies(mb, rb, cb, m0, r0, c, n, copies)
    requires ma == AttachAt(mb, c, 0, copies) && c in ma && m == ma[c := ma[c].(xtra := m0[n].xtra)]
    requires forall k :: k in mb && !AncestorOrSelf(mb, rb, k, c) ==> k in r && r[k] == rb[k]
    ensures c in m && m[c].parent == None
    ensures ShapeOf(m, r, c) == ShapeOf(m0, r0, n)
    ensures forall d :: d in Desc(m, r, c) ==> d !in m0 && cb[d] == None
    ensures Kept(m0, r0, c0, m, r, cb)
  {
    CopyAttached(mb, rb, cb, ma, m, r, m0, r0, n, c, copies);
    CopyUntouched(mb, rb, cb, ma, m, r, m0, r0, n, c, copies);
    FrameChain(m0, r0, c0, mb, rb, cb, m, r);
  }

  /** Two frames in a row make one: what `CopyChildren` left alone and the
      attaching step then left alone is as it was before the copy. */
  lemma FrameChain(m0: Nodes, r0: Ranks, c0: map<Node, Option<seq<Id>>>,
                   mb: Nodes, rb: Ranks, cb: map<Node, Option<seq<Id>>>, m: Nodes, r: Ranks)
    requires c0.Keys == m0.Keys && cb.Keys == mb.Keys
    requires forall k :: k in m0 ==> k in mb && mb[k] == m0[k] && cb[k] == c0[k] && k in rb && k in r0 && rb[k] == r0[k]
    requires forall k :: k in m0 && k in mb ==> k in m && m[k] == mb[k] && k in r && r[k] == rb[k]
    ensures Kept(m0, r0, c0, m, r, cb)
  {
  }

  /** Every entity of `m0` is still there, with the same record, cache and rank. */
  ghost predicate Kept(m0: Nodes, r0: Ranks, c0: map<Node, Option<seq<Id>>>,
                       m: Nodes, r: Ranks, cs: map<Node, Option<seq<Id>>>)
  {
    forall k :: k in m0 ==> k in m && m[k] == m0[k] && k in cs && k in c0 && cs[k] == c0[k] && k in r && k in r0 && r[k] == r0[k]
  }

}
