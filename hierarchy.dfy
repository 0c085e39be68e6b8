/** The Structure > Model > Chain > Residue > Atom hierarchy on top of the
    entity tree: the nested traversals of kmbio/PDB/core/structure.py,
    kmbio/PDB/Structure.py and Bio/PDB/Model.py, the id comparisons of
    Structures and Models, the `serial_num` default of Models, and the
    copy-based extraction of models and chains. */
module Hierarchy {
  import opened Wrappers
  import opened EntityModel
  import opened Entities
  import opened PyStrings

  // ---------------------------------------------------------------------
  // Traversals

  /** `for x in xs: for c in x.values(): yield c` (`values()` is the child list). */
  function ChildrenOfAll(t: Tree, xs: seq<Node>): (r: seq<Node>)
    reads t
    requires t.Inv() && forall x :: x in xs ==> x in t.nodes
    ensures forall c :: c in r <==> c in t.nodes && t.nodes[c].parent.Some? && t.nodes[c].parent.value in xs
  {
    if xs == [] then []
    else
      var head, rest := t.nodes[xs[0]].children, ChildrenOfAll(t, xs[1..]);
      assert NodeOk(t.nodes, xs[0]);
      assert forall c :: c in t.nodes && t.nodes[c].parent == Some(xs[0]) ==> c in head by {
        forall c | c in t.nodes && t.nodes[c].parent == Some(xs[0]) ensures c in head {
          assert NodeOk(t.nodes, c);
        }
      }
      assert forall x :: x in xs <==> x == xs[0] || x in xs[1..] by {
        assert xs == [xs[0]] + xs[1..];
      }
      head + rest
  }

  /** The traversal over a list concatenates the traversals over its parts. */
  lemma {:induction false} ChildrenOfAllAppend(t: Tree, xs: seq<Node>, ys: seq<Node>)
    requires t.Inv() && forall x :: x in xs + ys ==> x in t.nodes
    ensures ChildrenOfAll(t, xs + ys) == ChildrenOfAll(t, xs) + ChildrenOfAll(t, ys)
  {
    if xs == [] {
      assert xs + ys == ys;
    } else {
      assert (xs + ys)[0] == xs[0];
      assert (xs + ys)[1..] == xs[1..] + ys;
      ChildrenOfAllAppend(t, xs[1..], ys);
    }
  }

  /** Without repeated parents, no entity is visited twice. */
  lemma {:induction false} ChildrenOfAllDistinct(t: Tree, xs: seq<Node>)
    requires t.Inv() && forall x :: x in xs ==> x in t.nodes
    requires Distinct(xs)
    ensures Distinct(ChildrenOfAll(t, xs))
  {
    if xs != [] {
      var head, rest := t.nodes[xs[0]].children, ChildrenOfAll(t, xs[1..]);
      assert NodeOk(t.nodes, xs[0]);
      assert Distinct(xs[1..]);
      ChildrenOfAllDistinct(t, xs[1..]);
      forall i, j | 0 <= i < j < |head + rest| ensures (head + rest)[i] != (head + rest)[j] {
        if i < |head| && j >= |head| {
          var c := (head + rest)[j];
          assert c in rest;
          assert xs[0] !in xs[1..];
        }
      }
    }
  }

  /** `c` is exactly `k` parent links below `s`. */
  ghost predicate Below(m: Nodes, s: Node, c: Node, k: nat)
    decreases k
  {
    if k == 0 then c == s
    else c in m && m[c].parent.Some? && Below(m, s, m[c].parent.value, k - 1)
  }

  /** The entities `k` levels below `s`, level by level in nested order:
      `k = 1` is `get_models()` of a Structure (and `get_chains()` of a
      Model), `k = 2` is `get_chains()` of a Structure (`get_residues()` of a
      Model), and so on down to the atoms. Each entity of that level comes
      exactly once. */
  function Generation(t: Tree, s: Node, k: nat): (r: seq<Node>)
    reads t
    requires t.Inv() && s in t.nodes
    ensures Distinct(r) && forall c :: c in r ==> c in t.nodes
  {
    if k == 0 then [s]
    else
      var up := Generation(t, s, k - 1);
      ChildrenOfAllDistinct(t, up);
      ChildrenOfAll(t, up)
  }

  /** The level holds exactly the entities `k` parent links below `s`. */
  lemma {:induction false} GenerationMembers(t: Tree, s: Node, k: nat, c: Node)
    requires t.Inv() && s in t.nodes
    ensures c in Generation(t, s, k) <==> c in t.nodes && Below(t.nodes, s, c, k)
  {
    if k > 0 {
      if c in t.nodes && t.nodes[c].parent.Some? {
        GenerationMembers(t, s, k - 1, t.nodes[c].parent.value);
      }
    }
  }

  /** The first level is the child list itself, in insertion order. */
  lemma GenerationOne(t: Tree, s: Node)
    requires t.Inv() && s in t.nodes
    ensures Generation(t, s, 1) == t.Values(s)
  {
    assert Generation(t, s, 1) == ChildrenOfAll(t, [s]);
    assert [s][1..] == [];
    assert ChildrenOfAll(t, [s]) == t.nodes[s].children + ChildrenOfAll(t, []);
  }

  /** Levels below a Model are the levels below its Structure, one deeper,
      taken model by model. */
  lemma {:induction false} GenerationSplit(t: Tree, s: Node, k: nat)
    requires t.Inv() && s in t.nodes
    ensures forall x :: x in t.nodes[s].children ==> x in t.nodes
    ensures Generation(t, s, k + 1) == GenerationsOf(t, t.nodes[s].children, k)
  {
    assert NodeOk(t.nodes, s);
    var ms := t.nodes[s].children;
    if k == 0 {
      GenerationOne(t, s);
      GenerationsOfOne(t, ms);
    } else {
      GenerationSplit(t, s, k - 1);
      SplitNext(t, s, k, ms);
    }
  }

  lemma SplitNext(t: Tree, s: Node, k: nat, ms: seq<Node>)
    requires t.Inv() && s in t.nodes && k > 0 && forall x :: x in ms ==> x in t.nodes
    requires Generation(t, s, k) == GenerationsOf(t, ms, k - 1)
    ensures Generation(t, s, k + 1) == GenerationsOf(t, ms, k)
  {
    assert Generation(t, s, k + 1) == ChildrenOfAll(t, Generation(t, s, k));
    GenerationsOfStep(t, ms, k - 1);
  }

  /** The level-`k` traversals of each entity of `xs`, concatenated. */
  function GenerationsOf(t: Tree, xs: seq<Node>, k: nat): (r: seq<Node>)
    reads t
    requires t.Inv() && forall x :: x in xs ==> x in t.nodes
    ensures forall c :: c in r ==> c in t.nodes
  {
    if xs == [] then [] else Generation(t, xs[0], k) + GenerationsOf(t, xs[1..], k)
  }

  lemma {:induction false} GenerationsOfOne(t: Tree, xs: seq<Node>)
    requires t.Inv() && forall x :: x in xs ==> x in t.nodes
    ensures GenerationsOf(t, xs, 0) == xs
  {
    if xs != [] {
      GenerationsOfOne(t, xs[1..]);
    }
  }

  lemma {:induction false} GenerationsOfStep(t: Tree, xs: seq<Node>, k: nat)
    requires t.Inv() && forall x :: x in xs ==> x in t.nodes
    ensures GenerationsOf(t, xs, k + 1) == ChildrenOfAll(t, GenerationsOf(t, xs, k))
  {
    if xs != [] {
      GenerationsOfStep(t, xs[1..], k);
      var g := Generation(t, xs[0], k);
      var rest := GenerationsOf(t, xs[1..], k);
      ChildrenOfAllAppend(t, g, rest);
    }
  }

  // ---------------------------------------------------------------------
  // Extracting models and chains

  /** What `extract_models` and `extract_chains` run into while copying
      `ids[i..]` out of an entity whose id map is `d`: an id that names no
      child raises KeyError (`self[id]`), an id met before raises "defined
      twice" (`add` into the new entity); the first such id decides. */
  function ExtractCheck(d: map<Id, Node>, ids: seq<Id>, i: nat): (o: Outcome)
    requires i <= |ids|
    decreases |ids| - i
  {
    if i == |ids| then Pass
    else if ids[i] !in d then Fail(KeyError)
    else if ids[i] in ids[..i] then Fail(DefinedTwice)
    else ExtractCheck(d, ids, i + 1)
  }

  lemma {:induction false} ExtractCheckFrom(d: map<Id, Node>, ids: seq<Id>, i: nat)
    requires i <= |ids|
    ensures ExtractCheck(d, ids, i) == Pass <==>
      forall j :: i <= j < |ids| ==> ids[j] in d && ids[j] !in ids[..j]
    decreases |ids| - i
  {
    if i < |ids| {
      ExtractCheckFrom(d, ids, i + 1);
    }
  }

  /** Extraction succeeds exactly when every id names a child and no id
      comes twice. */
  lemma ExtractCheckPass(d: map<Id, Node>, ids: seq<Id>)
    ensures ExtractCheck(d, ids, 0) == Pass <==>
      (forall j :: 0 <= j < |ids| ==> ids[j] in d) && Distinct(ids)
  {
    ExtractCheckFrom(d, ids, 0);
    if forall j :: 0 <= j < |ids| ==> ids[j] !in ids[..j] {
      forall a, b | 0 <= a < b < |ids| ensures ids[a] != ids[b] {
        assert ids[a] == ids[..b][a];
      }
    }
  }

  /** Two records agree on everything a new head entity takes over. */
  ghost predicate HeadAs(a: NodeRec, b: NodeRec) {
    a.id == b.id && a.level == b.level && a.serialNum == b.serialNum && a.xtra == b.xtra
  }

  /** The entity extracted from `s`: the record `head` above copies of the
      children of `s` that `ids` name, in the order of `ids`. */
  ghost function Extracted(m: Nodes, rank: Ranks, s: Node, head: NodeRec, ids: seq<Id>): Shape
    requires Valid(m, rank) && s in m && forall j :: 0 <= j < |ids| ==> ids[j] in m[s].dict
  {
    assert NodeOk(m, s);
    Shape(head.id, head.level, head.serialNum, head.xtra,
          seq(|ids|, j requires 0 <= j < |ids| => ShapeOf(m, rank, m[s].dict[ids[j]])))
  }

  /** One round of the extraction loop: `st.add(self[id].copy())`. */
  method ExtractNext(t: Tree, s: Node, st: Node, id: Id, ghost m0: Nodes, ghost r0: Ranks)
    returns (o: Outcome, c: Node)
    requires t.Inv() && Valid(m0, r0) && s in m0 && st in m0 && st != s && m0[st].parent == None
    requires forall k :: k in m0 && k != st ==> k in t.nodes && t.nodes[k] == m0[k]
    requires st in t.nodes && t.nodes[st].parent == None
    modifies t
    ensures t.Inv() && st in t.nodes
    ensures forall k :: k in m0 && k != st ==> k in t.nodes && t.nodes[k] == m0[k]
    ensures o == if id !in m0[s].dict then Fail(KeyError)
                 else if id in old(t.nodes[st].dict) then Fail(DefinedTwice) else Pass
    ensures o.Fail? ==> t.nodes[st] == old(t.nodes[st])
    ensures o == Pass ==> c in t.nodes && t.nodes[c].id == id
    ensures o == Pass ==> m0[s].dict[id] in m0 && ShapeOf(t.nodes, t.rank, c) == ShapeOf(m0, r0, m0[s].dict[id])
    ensures o == Pass ==>
      && HeadAs(t.nodes[st], old(t.nodes[st])) && t.nodes[st].parent == None
      && t.nodes[st].children == old(t.nodes[st].children) + [c]
      && t.nodes[st].dict.Keys == old(t.nodes[st].dict.Keys) + {id}
    ensures o == Pass ==> forall x :: x in old(t.nodes[st].children) && x in old(t.nodes) ==>
      x in t.nodes && ShapeOf(t.nodes, t.rank, x) == old(ShapeOf(t.nodes, t.rank, x))
  {
    c := 0;
    assert t.nodes[s] == m0[s];
    var r := t.GetItem(s, id);
    assert NodeOk(m0, s);
    if r.Err? {
      return Fail(KeyError), c;
    }
    var x := r.value;
    assert x == m0[s].dict[id];
    SourceShape(t.nodes, t.rank, m0, r0, s, st, x);
    o, c := CopyInto(t, st, x);
  }

  /** `st.add(x.copy())` for a detached `st`. */
  method CopyInto(t: Tree, st: Node, x: Node) returns (o: Outcome, c: Node)
    requires t.Inv() && st in t.nodes && x in t.nodes && t.nodes[st].parent == None
    modifies t
    ensures t.Inv() && st in t.nodes
    ensures forall k :: k in old(t.nodes) && k != st ==> k in t.nodes && t.nodes[k] == old(t.nodes)[k]
    ensures o == if old(t.nodes)[x].id in old(t.nodes)[st].dict then Fail(DefinedTwice) else Pass
    ensures o.Fail? ==> t.nodes[st] == old(t.nodes[st])
    ensures o == Pass ==> c in t.nodes && t.nodes[c].id == old(t.nodes)[x].id
    ensures o == Pass ==> ShapeOf(t.nodes, t.rank, c) == old(ShapeOf(t.nodes, t.rank, x))
    ensures o == Pass ==>
      && HeadAs(t.nodes[st], old(t.nodes[st])) && t.nodes[st].parent == None
      && t.nodes[st].children == old(t.nodes[st].children) + [c]
      && t.nodes[st].dict.Keys == old(t.nodes[st].dict.Keys) + {old(t.nodes)[x].id}
    ensures o == Pass ==> forall y :: y in old(t.nodes[st].children) && y in old(t.nodes) ==>
      y in t.nodes && ShapeOf(t.nodes, t.rank, y) == old(ShapeOf(t.nodes, t.rank, y))
  {
    ghost var mb, rb := t.nodes, t.rank;
    c := t.Copy(x);
    ghost var mc, rc := t.nodes, t.rank;
    OldChildrenShapes(mb, rb, mc, rc, st);
    o := t.Add(st, Some([c]));
    if o.Fail? {
      return;
    }
    AppendOne(mc, rc, t.nodes, t.rank, st, c);
  }

  /** A child `x` of `s` has the same shape in the current tree as in `m0`. */
  lemma SourceShape(m: Nodes, rank: Ranks, m0: Nodes, r0: Ranks, s: Node, st: Node, x: Node)
    requires Valid(m, rank) && Valid(m0, r0) && s in m0 && st in m0 && m0[st].parent == None
    requires forall k :: k in m0 && k != st ==> k in m && m[k] == m0[k]
    requires x in m0[s].children && x in m0
    ensures x in m && ShapeOf(m, rank, x) == ShapeOf(m0, r0, x)
  {
    ChildRanks(m0, r0, s);
    DescIff(m0, r0, x, st);
    forall d | d in Desc(m0, r0, x) ensures d in m && SameContent(m0[d], m[d]) {
    }
    ShapeFrame(m0, r0, m, rank, x);
  }

  /** `copy` leaves the shapes of the children `st` already had alone. */
  lemma OldChildrenShapes(mb: Nodes, rb: Ranks, mc: Nodes, rc: Ranks, st: Node)
    requires Valid(mb, rb) && Valid(mc, rc) && st in mb
    requires forall k :: k in mb ==> k in mc && mc[k] == mb[k]
    ensures forall x :: x in mb[st].children ==> x in mb && x in mc && ShapeOf(mc, rc, x) == ShapeOf(mb, rb, x)
  {
    ChildRanks(mb, rb, st);
    forall x | x in mb[st].children ensures x in mc && ShapeOf(mc, rc, x) == ShapeOf(mb, rb, x) {
      ShapeFrame(mb, rb, mc, rc, x);
    }
  }

  /** What `add([c])` of a detached `c` does to `st`: `c` is appended, the
      id map gains its id, and no shape below `st` changes. */
  lemma AppendOne(mc: Nodes, rc: Ranks, m2: Nodes, r2: Ranks, st: Node, c: Node)
    requires Valid(mc, rc) && Valid(m2, r2) && st in mc && c in mc && mc[c].parent == None
    requires !AncestorOrSelf(mc, rc, c, st) && mc[c].id !in mc[st].dict
    requires m2 == AttachAt(mc, st, |mc[st].children|, [c])
    ensures st in m2 && c in m2 && m2[c].id == mc[c].id
    ensures HeadAs(m2[st], mc[st]) && m2[st].parent == mc[st].parent
    ensures m2[st].children == mc[st].children + [c]
    ensures m2[st].dict.Keys == mc[st].dict.Keys + {mc[c].id}
    ensures forall k :: k in mc && k != st && k != c ==> k in m2 && m2[k] == mc[k]
    ensures forall x :: x in mc && (x in mc[st].children || x == c) ==>
      x in m2 && ShapeOf(m2, r2, x) == ShapeOf(mc, rc, x)
  {
    var ch := mc[st].children;
    AttachAtFacts(mc, st, |ch|, [c]);
    assert ch[..|ch|] + [c] + ch[|ch|..] == ch + [c];
    AttachShapes(mc, rc, st, c, r2);
  }

  /** The loop of `extract_models` / `extract_chains`: copy the children of
      `s` named by `ids`, in that order, into the detached, empty `st`. On
      success `st` is exactly the extracted entity; either way nothing but
      `st` and the new copies changes. */
  method ExtractInto(t: Tree, s: Node, st: Node, ids: seq<Id>) returns (o: Outcome)
    requires t.Inv() && s in t.nodes && st in t.nodes && st != s
    requires t.nodes[st].children == [] && t.nodes[st].dict == map[] && t.nodes[st].parent == None
    modifies t
    ensures t.Inv() && st in t.nodes && t.nodes[st].parent == None
    ensures o == ExtractCheck(old(t.nodes)[s].dict, ids, 0)
    ensures forall k :: k in old(t.nodes) && k != st ==> k in t.nodes && t.nodes[k] == old(t.nodes)[k]
    ensures o == Pass ==> forall j :: 0 <= j < |ids| ==> ids[j] in old(t.nodes)[s].dict
    ensures o == Pass ==>
      ShapeOf(t.nodes, t.rank, st) == Extracted(old(t.nodes), old(t.rank), s, old(t.nodes)[st], ids)
  {
    ghost var m0, r0 := t.nodes, t.rank;
    ghost var d := m0[s].dict;
    var cs: seq<Node> := [];
    ProgressStart(m0, r0, s, st, ids);
    var i := 0;
    while i < |ids|
      invariant 0 <= i <= |ids| && |cs| == i
      invariant t.Inv() && Progress(m0, r0, t.nodes, t.rank, s, st, ids, cs)
      invariant ExtractCheck(d, ids, 0) == ExtractCheck(d, ids, i)
    {
      var c;
      o, c := ExtractRound(t, s, st, ids, cs, m0, r0);
      if o.Fail? {
        return;
      }
      cs := cs + [c];
      i := i + 1;
    }
    o := Pass;
    ExtractShape(t.nodes, t.rank, m0, r0, s, st, ids, cs);
  }

  /** The body of the `ExtractInto` loop for the id at position `|cs|`. */
  method ExtractRound(t: Tree, s: Node, st: Node, ids: seq<Id>, cs: seq<Node>, ghost m0: Nodes, ghost r0: Ranks)
    returns (o: Outcome, c: Node)
    requires t.Inv() && Progress(m0, r0, t.nodes, t.rank, s, st, ids, cs) && |cs| < |ids|
    requires ExtractCheck(m0[s].dict, ids, 0) == ExtractCheck(m0[s].dict, ids, |cs|)
    modifies t
    ensures t.Inv() && st in t.nodes && t.nodes[st].parent == None
    ensures forall k :: k in m0 && k != st ==> k in t.nodes && t.nodes[k] == m0[k]
    ensures o.Fail? ==> o == ExtractCheck(m0[s].dict, ids, 0)
    ensures o == Pass ==> Progress(m0, r0, t.nodes, t.rank, s, st, ids, cs + [c])
    ensures o == Pass ==> ExtractCheck(m0[s].dict, ids, 0) == ExtractCheck(m0[s].dict, ids, |cs| + 1)
  {
    ghost var mb, rb := t.nodes, t.rank;
    o, c := ExtractNext(t, s, st, ids[|cs|], m0, r0);
    ExtractCheckStep(m0[s].dict, ids, |cs|, mb[st].dict.Keys, o);
    if o == Pass {
      ProgressStep(m0, r0, mb, rb, t.nodes, t.rank, s, st, ids, cs, c);
    }
  }

  /** One round of `ExtractInto` decides the outcome or passes it on to the next id. */
  lemma ExtractCheckStep(d: map<Id, Node>, ids: seq<Id>, i: nat, keys: set<Id>, o: Outcome)
    requires i < |ids| && forall k :: k in keys <==> k in ids[..i]
    requires ExtractCheck(d, ids, 0) == ExtractCheck(d, ids, i)
    requires o == if ids[i] !in d then Fail(KeyError) else if ids[i] in keys then Fail(DefinedTwice) else Pass
    ensures o.Fail? ==> o == ExtractCheck(d, ids, 0)
    ensures o == Pass ==> ExtractCheck(d, ids, 0) == ExtractCheck(d, ids, i + 1)
  {
  }

  /** The loop invariant of `ExtractInto`: `st` is the untouched head over
      copies of the children of `s` named by the first `|cs|` ids. */
  ghost predicate Progress(m0: Nodes, r0: Ranks, m: Nodes, r: Ranks, s: Node, st: Node, ids: seq<Id>, cs: seq<Node>) {
    && Valid(m0, r0) && Valid(m, r)
    && ProgressHead(m0, m, s, st, ids, cs)
    && ProgressCopies(m0, r0, m, r, s, ids, cs)
  }

  /** `st` is the detached head over `cs`, holding the ids of the first
      `|cs|` rounds, and nothing else in `m0` changed. */
  ghost predicate ProgressHead(m0: Nodes, m: Nodes, s: Node, st: Node, ids: seq<Id>, cs: seq<Node>) {
    && s in m0 && st in m0 && st != s && m0[st].parent == None
    && st in m && |cs| <= |ids|
    && m[st].parent == None && HeadAs(m[st], m0[st]) && m[st].children == cs
    && (forall k :: k in m[st].dict <==> k in ids[..|cs|])
    && (forall k :: k in m0 && k != st ==> k in m && m[k] == m0[k])
  }

  /** Each of `cs` is shaped like the child of `s` its round named. */
  ghost predicate ProgressCopies(m0: Nodes, r0: Ranks, m: Nodes, r: Ranks, s: Node, ids: seq<Id>, cs: seq<Node>)
    requires Valid(m0, r0) && Valid(m, r) && s in m0 && |cs| <= |ids|
  {
    && (forall j :: 0 <= j < |cs| ==> ids[j] in m0[s].dict && m0[s].dict[ids[j]] in m0)
    && (forall j :: 0 <= j < |cs| ==>
          (cs[j] in m && ids[j] in m0[s].dict && m0[s].dict[ids[j]] in m0 &&
           ShapeOf(m, r, cs[j]) == ShapeOf(m0, r0, m0[s].dict[ids[j]])))
  }

  lemma ProgressStart(m0: Nodes, r0: Ranks, s: Node, st: Node, ids: seq<Id>)
    requires Valid(m0, r0) && s in m0 && st in m0 && st != s
    requires m0[st].children == [] && m0[st].dict == map[] && m0[st].parent == None
    ensures Progress(m0, r0, m0, r0, s, st, ids, [])
  {
  }

  lemma ProgressStep(m0: Nodes, r0: Ranks, mb: Nodes, rb: Ranks, m: Nodes, r: Ranks,
                     s: Node, st: Node, ids: seq<Id>, cs: seq<Node>, c: Node)
    requires Progress(m0, r0, mb, rb, s, st, ids, cs) && |cs| < |ids| && Valid(m, r)
    requires forall k :: k in m0 && k != st ==> k in m && m[k] == m0[k]
    requires ids[|cs|] in m0[s].dict && m0[s].dict[ids[|cs|]] in m0
    requires c in m && ShapeOf(m, r, c) == ShapeOf(m0, r0, m0[s].dict[ids[|cs|]])
    requires st in m && HeadAs(m[st], mb[st]) && m[st].parent == None
    requires m[st].children == mb[st].children + [c]
    requires m[st].dict.Keys == mb[st].dict.Keys + {ids[|cs|]}
    requires forall y :: y in mb[st].children && y in mb ==> y in m && ShapeOf(m, r, y) == ShapeOf(mb, rb, y)
    ensures Progress(m0, r0, m, r, s, st, ids, cs + [c])
  {
    ProgressIds(m0, mb, m, s, st, ids, |cs|);
    ProgressShapes(m0, r0, mb, rb, m, r, s, st, ids, cs, c);
  }

  lemma ProgressIds(m0: Nodes, mb: Nodes, m: Nodes, s: Node, st: Node, ids: seq<Id>, i: nat)
    requires st in mb && st in m && s in m0 && i < |ids|
    requires forall k :: k in mb[st].dict <==> k in ids[..i]
    requires m[st].dict.Keys == mb[st].dict.Keys + {ids[i]}
    requires forall j :: 0 <= j < i ==> ids[j] in m0[s].dict && m0[s].dict[ids[j]] in m0
    requires ids[i] in m0[s].dict && m0[s].dict[ids[i]] in m0
    ensures forall k :: k in m[st].dict <==> k in ids[..i + 1]
    ensures forall j :: 0 <= j < i + 1 ==> ids[j] in m0[s].dict && m0[s].dict[ids[j]] in m0
  {
    assert ids[..i + 1] == ids[..i] + [ids[i]];
  }

  lemma ProgressShapes(m0: Nodes, r0: Ranks, mb: Nodes, rb: Ranks, m: Nodes, r: Ranks,
                       s: Node, st: Node, ids: seq<Id>, cs: seq<Node>, c: Node)
    requires Valid(m0, r0) && Valid(mb, rb) && Valid(m, r) && s in m0 && st in mb && |cs| < |ids|
    requires mb[st].children == cs
    requires forall j :: 0 <= j < |cs| + 1 ==> ids[j] in m0[s].dict && m0[s].dict[ids[j]] in m0
    requires forall j :: 0 <= j < |cs| ==>
      (cs[j] in mb && ids[j] in m0[s].dict && m0[s].dict[ids[j]] in m0 &&
       ShapeOf(mb, rb, cs[j]) == ShapeOf(m0, r0, m0[s].dict[ids[j]]))
    requires c in m && ShapeOf(m, r, c) == ShapeOf(m0, r0, m0[s].dict[ids[|cs|]])
    requires forall y :: y in mb[st].children && y in mb ==> y in m && ShapeOf(m, r, y) == ShapeOf(mb, rb, y)
    ensures forall j :: 0 <= j < |cs + [c]| ==>
      ((cs + [c])[j] in m && ids[j] in m0[s].dict && m0[s].dict[ids[j]] in m0 &&
       ShapeOf(m, r, (cs + [c])[j]) == ShapeOf(m0, r0, m0[s].dict[ids[j]]))
  {
    var i, cs2 := |cs|, cs + [c];
    forall j | 0 <= j < |cs2|
      ensures cs2[j] in m && ShapeOf(m, r, cs2[j]) == ShapeOf(m0, r0, m0[s].dict[ids[j]])
    {
      if j < i {
        assert cs2[j] == cs[j] && cs[j] in mb[st].children;
      }
    }
  }

  /** A head whose children are, one by one, shaped like the children of `s`
      named by `ids` has the extracted shape. */
  lemma ExtractShape(m: Nodes, rank: Ranks, m0: Nodes, r0: Ranks, s: Node, st: Node, ids: seq<Id>, cs: seq<Node>)
    requires Progress(m0, r0, m, rank, s, st, ids, cs) && |cs| == |ids|
    ensures forall j :: 0 <= j < |ids| ==> ids[j] in m0[s].dict
    ensures ShapeOf(m, rank, st) == Extracted(m0, r0, s, m0[st], ids)
  {
    ChildRanks(m, rank, st);
    assert ShapeOf(m, rank, st).children == Extracted(m0, r0, s, m0[st], ids).children;
  }

  /** `Model(id, serial_num)`: a detached, empty Model whose serial number
      is `serial_num`, or its id when none is given. */
  method NewModel(t: Tree, id: Id, serialNum: Option<Id>) returns (n: Node)
    requires t.Inv()
    modifies t
    ensures t.Inv() && n !in old(t.nodes)
    ensures t.nodes == old(t.nodes)[n := FreshRec(id, ModelLevel, Some(DefaultSerial(id, serialNum)))]
  {
    n := t.NewEntity(id, ModelLevel, Some(DefaultSerial(id, serialNum)));
  }

  /** The serial number `Model.__init__` keeps: the one given, else the id. */
  function DefaultSerial(id: Id, serialNum: Option<Id>): (r: Id)
    ensures serialNum.None? ==> r == id
    ensures serialNum.Some? ==> r == serialNum.value
  {
    if serialNum.None? then id else serialNum.value
  }

  /** `Structure.extract_models(ids)`: a new, detached Structure with the id
      of `s` holding copies of the models `ids` names, in that order; a
      missing id raises KeyError and a repeated one "defined twice". The
      entities that existed before are left as they were. */
  method ExtractModels(t: Tree, s: Node, ids: seq<Id>) returns (r: Result<Node>)
    requires t.Inv() && s in t.nodes
    modifies t
    ensures t.Inv()
    ensures forall k :: k in old(t.nodes) ==> k in t.nodes && t.nodes[k] == old(t.nodes)[k]
    ensures r.Ok? <==> ExtractCheck(old(t.nodes)[s].dict, ids, 0) == Pass
    ensures r.Err? ==> Fail(r.error) == ExtractCheck(old(t.nodes)[s].dict, ids, 0)
    ensures r.Ok? ==> r.value in t.nodes && r.value !in old(t.nodes) && t.nodes[r.value].parent == None
    ensures r.Ok? ==> forall j :: 0 <= j < |ids| ==> ids[j] in old(t.nodes)[s].dict
    ensures r.Ok? ==> (ShapeOf(t.nodes, t.rank, r.value) ==
      Extracted(old(t.nodes), old(t.rank), s, FreshRec(old(t.nodes)[s].id, StructureLevel, None), ids))
  {
    ghost var m0, r0 := t.nodes, t.rank;
    var st := t.NewEntity(t.nodes[s].id, StructureLevel, None);
    ghost var m1, r1 := t.nodes, t.rank;
    r := ExtractFrom(t, s, st, ids);
    if r.Ok? {
      ExtractedFrame(m0, r0, m1, r1, s, m1[st], ids);
    }
  }

  /** `Model.extract_chains(ids)`: the same for the chains of a Model; the
      new Model takes over the id and the serial number. */
  method ExtractChains(t: Tree, s: Node, ids: seq<Id>) returns (r: Result<Node>)
    requires t.Inv() && s in t.nodes
    modifies t
    ensures t.Inv()
    ensures forall k :: k in old(t.nodes) ==> k in t.nodes && t.nodes[k] == old(t.nodes)[k]
    ensures r.Ok? <==> ExtractCheck(old(t.nodes)[s].dict, ids, 0) == Pass
    ensures r.Err? ==> Fail(r.error) == ExtractCheck(old(t.nodes)[s].dict, ids, 0)
    ensures r.Ok? ==> r.value in t.nodes && r.value !in old(t.nodes) && t.nodes[r.value].parent == None
    ensures r.Ok? ==> forall j :: 0 <= j < |ids| ==> ids[j] in old(t.nodes)[s].dict
    ensures r.Ok? ==> (ShapeOf(t.nodes, t.rank, r.value) ==
      Extracted(old(t.nodes), old(t.rank), s,
                FreshRec(old(t.nodes)[s].id, ModelLevel,
                         Some(DefaultSerial(old(t.nodes)[s].id, old(t.nodes)[s].serialNum))), ids))
  {
    ghost var m0, r0 := t.nodes, t.rank;
    var st := NewModel(t, t.nodes[s].id, t.nodes[s].serialNum);
    ghost var m1, r1 := t.nodes, t.rank;
    r := ExtractFrom(t, s, st, ids);
    if r.Ok? {
      ExtractedFrame(m0, r0, m1, r1, s, m1[st], ids);
    }
  }

  /** Adding unrelated entities does not change what extraction yields. */
  lemma ExtractedFrame(m: Nodes, rank: Ranks, m2: Nodes, r2: Ranks, s: Node, head: NodeRec, ids: seq<Id>)
    requires Valid(m, rank) && Valid(m2, r2) && s in m
    requires forall j :: 0 <= j < |ids| ==> ids[j] in m[s].dict
    requires forall k :: k in m ==> k in m2 && m2[k] == m[k]
    ensures Extracted(m2, r2, s, head, ids) == Extracted(m, rank, s, head, ids)
  {
    assert NodeOk(m, s);
    forall j | 0 <= j < |ids|
      ensures ShapeOf(m2, r2, m[s].dict[ids[j]]) == ShapeOf(m, rank, m[s].dict[ids[j]])
    {
      ShapeFrame(m, rank, m2, r2, m[s].dict[ids[j]]);
    }
  }

  /** Fill the new head `st` and hand it back, or the error. */
  method ExtractFrom(t: Tree, s: Node, st: Node, ids: seq<Id>) returns (r: Result<Node>)
    requires t.Inv() && s in t.nodes && st in t.nodes && st != s
    requires t.nodes[st].children == [] && t.nodes[st].dict == map[] && t.nodes[st].parent == None
    modifies t
    ensures t.Inv() && st in t.nodes && t.nodes[st].parent == None
    ensures forall k :: k in old(t.nodes) && k != st ==> k in t.nodes && t.nodes[k] == old(t.nodes)[k]
    ensures r.Ok? <==> ExtractCheck(old(t.nodes)[s].dict, ids, 0) == Pass
    ensures r.Err? ==> Fail(r.error) == ExtractCheck(old(t.nodes)[s].dict, ids, 0)
    ensures r.Ok? ==> r.value == st && forall j :: 0 <= j < |ids| ==> ids[j] in old(t.nodes)[s].dict
    ensures r.Ok? ==>
      ShapeOf(t.nodes, t.rank, st) == Extracted(old(t.nodes), old(t.rank), s, old(t.nodes)[st], ids)
  {
    var o := ExtractInto(t, s, st, ids);
    r := if o.Pass? then Ok(st) else Err(o.error);
  }

  /** The extracted entity's children carry the requested ids, in order. */
  lemma ExtractedIds(m: Nodes, rank: Ranks, s: Node, head: NodeRec, ids: seq<Id>)
    requires Valid(m, rank) && s in m && forall j :: 0 <= j < |ids| ==> ids[j] in m[s].dict
    ensures |Extracted(m, rank, s, head, ids).children| == |ids|
    ensures forall j :: 0 <= j < |ids| ==> Extracted(m, rank, s, head, ids).children[j].id == ids[j]
  {
    assert NodeOk(m, s);
  }

  /** Extracting every child, in the order of the child list, always
      succeeds and copies the children of `s` exactly. */
  lemma ExtractAll(m: Nodes, rank: Ranks, s: Node, head: NodeRec)
    requires Valid(m, rank) && s in m
    ensures forall c :: c in m[s].children ==> c in m
    ensures forall j :: 0 <= j < |m[s].children| ==> IdsOf(m, m[s].children)[j] in m[s].dict
    ensures ExtractCheck(m[s].dict, IdsOf(m, m[s].children), 0) == Pass
    ensures Extracted(m, rank, s, head, IdsOf(m, m[s].children)).children == ShapeOf(m, rank, s).children
  {
    assert NodeOk(m, s);
    var ch := m[s].children;
    var ids := IdsOf(m, ch);
    ChildIdsDistinct(m, rank, s);
    assert Distinct(ids);
    ExtractCheckPass(m[s].dict, ids);
    ChildRanks(m, rank, s);
  }

  // ---------------------------------------------------------------------
  // Comparing Structures and Models

  /** The six rich comparisons `<`, `<=`, `==`, `!=`, `>=`, `>`. */
  datatype CmpOp = Lt | Le | Eq | Ne | Ge | Gt

  /** A comparison operator applied to two strings. */
  predicate StrCmp(op: CmpOp, a: string, b: string) {
    match op
    case Lt => StrLt(a, b)
    case Le => StrLe(a, b)
    case Eq => a == b
    case Ne => a != b
    case Ge => StrLe(b, a)
    case Gt => StrLt(b, a)
  }

  /** Structures compare by `id.lower()`, so case is ignored; an id without
      `lower` (one that is not a string) raises AttributeError. */
  function StructureCompare(op: CmpOp, a: Id, b: Id): (r: Result<bool>)
    ensures r.Err? <==> !a.Name? || !b.Name?
    ensures r.Err? ==> r.error == AttributeError
  {
    if a.Name? && b.Name? then Ok(StrCmp(op, Lower(a.name), Lower(b.name)))
    else Err(AttributeError)
  }

  /** Of `<`, `==` and `>` between two Structures exactly one holds, `<=` is
      `<` or `==`, `!=` is the negation of `==`, and `>=`/`>` are `<=`/`<`
      with the sides swapped. */
  lemma StructureCompareLaws(a: string, b: string)
    ensures var lt, eq, gt := StructureCompare(Lt, Name(a), Name(b)), StructureCompare(Eq, Name(a), Name(b)),
                              StructureCompare(Gt, Name(a), Name(b));
      && (lt == Ok(true) || eq == Ok(true) || gt == Ok(true))
      && !(lt == Ok(true) && gt == Ok(true)) && !(lt == Ok(true) && eq == Ok(true))
      && !(eq == Ok(true) && gt == Ok(true))
    ensures StructureCompare(Le, Name(a), Name(b)).value <==>
      StructureCompare(Lt, Name(a), Name(b)).value || StructureCompare(Eq, Name(a), Name(b)).value
    ensures StructureCompare(Ne, Name(a), Name(b)).value == !StructureCompare(Eq, Name(a), Name(b)).value
    ensures StructureCompare(Ge, Name(a), Name(b)) == StructureCompare(Le, Name(b), Name(a))
    ensures StructureCompare(Gt, Name(a), Name(b)) == StructureCompare(Lt, Name(b), Name(a))
  {
    StrLtTotal(Lower(a), Lower(b));
    if Lower(a) == Lower(b) {
      StrLtIrreflexive(Lower(a));
    }
  }

  /** Two Structures are equal exactly when their ids differ only in case
      (of ASCII letters), and the case of an id never changes a comparison. */
  lemma StructureCompareCaseless(op: CmpOp, a: string, b: string)
    ensures StructureCompare(Eq, Name(a), Name(b)) == Ok(Lower(a) == Lower(b))
    ensures StructureCompare(op, Name(Lower(a)), Name(b)) == StructureCompare(op, Name(a), Name(b))
  {
    LowerIdempotent(a);
  }

  /** Python's `a < b` on ids of one kind: numbers numerically, strings by
      code point, residue id tuples element by element. Ids of different
      kinds cannot be ordered (TypeError). */
  function IdLt(a: Id, b: Id): (r: Result<bool>)
    ensures r.Err? <==> !SameKind(a, b)
    ensures r.Err? ==> r.error == TypeError
  {
    match (a, b)
    case (Serial(x), Serial(y)) => Ok(x < y)
    case (Name(x), Name(y)) => Ok(StrLt(x, y))
    case (ResidueId(h1, n1, i1), ResidueId(h2, n2, i2)) =>
      Ok(StrLt(h1, h2) || (h1 == h2 && (n1 < n2 || (n1 == n2 && StrLt(i1, i2)))))
    case _ => Err(TypeError)
  }

  predicate SameKind(a: Id, b: Id) {
    (a.Name? && b.Name?) || (a.Serial? && b.Serial?) || (a.ResidueId? && b.ResidueId?)
  }

  /** Models compare by their ids. `==` and `!=` never fail (ids of
      different kinds are simply unequal); the orderings raise TypeError
      across kinds. */
  function ModelCompare(op: CmpOp, a: Id, b: Id): (r: Result<bool>)
    ensures op.Eq? ==> r == Ok(a == b)
    ensures op.Ne? ==> r == Ok(a != b)
    ensures r.Err? <==> !op.Eq? && !op.Ne? && !SameKind(a, b)
    ensures r.Err? ==> r.error == TypeError
  {
    match op
    case Eq => Ok(a == b)
    case Ne => Ok(a != b)
    case Lt => IdLt(a, b)
    case Gt => IdLt(b, a)
    case Le => if SameKind(a, b) then Ok(IdLt(a, b).value || a == b) else Err(TypeError)
    case Ge => if SameKind(a, b) then Ok(IdLt(b, a).value || a == b) else Err(TypeError)
  }

  /** Between Models whose ids are of one kind, exactly one of `<`, `==`,
      `>` holds, and `<=` is `<` or `==`. */
  lemma {:induction false} ModelCompareTotal(a: Id, b: Id)
    requires SameKind(a, b)
    ensures ModelCompare(Lt, a, b) == Ok(true) || a == b || ModelCompare(Gt, a, b) == Ok(true)
    ensures !(ModelCompare(Lt, a, b) == Ok(true) && ModelCompare(Gt, a, b) == Ok(true))
    ensures !(ModelCompare(Lt, a, b) == Ok(true) && a == b)
    ensures ModelCompare(Le, a, b) == Ok(ModelCompare(Lt, a, b).value || ModelCompare(Eq, a, b).value)
  {
    match (a, b)
    case (Serial(x), Serial(y)) =>
    case (Name(x), Name(y)) =>
      StrLtTotal(x, y);
      StrLtIrreflexive(x);
    case (ResidueId(h1, n1, i1), ResidueId(h2, n2, i2)) =>
      StrLtTotal(h1, h2);
      StrLtTotal(i1, i2);
      StrLtIrreflexive(h1);
      StrLtIrreflexive(i1);
  }

  /** `<` on Models is transitive where it is defined. */
  lemma {:induction false} ModelLtTransitive(a: Id, b: Id, c: Id)
    requires ModelCompare(Lt, a, b) == Ok(true) && ModelCompare(Lt, b, c) == Ok(true)
    ensures ModelCompare(Lt, a, c) == Ok(true)
  {
    match (a, b, c)
    case (Name(x), Name(y), Name(z)) =>
      StrLtTransitive(x, y, z);
    case (ResidueId(h1, n1, i1), ResidueId(h2, n2, i2), ResidueId(h3, n3, i3)) =>
      if StrLt(h1, h2) && StrLt(h2, h3) {
        StrLtTransitive(h1, h2, h3);
      }
      if h1 == h2 == h3 && n1 == n2 == n3 && StrLt(i1, i2) && StrLt(i2, i3) {
        StrLtTransitive(i1, i2, i3);
      }
    case _ =>
  }
}
