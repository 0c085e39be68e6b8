/** `transform_structure` and `generate_bioassembly` of
    kmbio/PDB/parsers/bioassembly.py: building a biological assembly out of
    model 0 of a structure, one Model per transformation. The rotation and
    translation of each transformation are applied to atom coordinates,
    which this model does not hold; only the entity tree is built. */
module Bioassembly {
  import opened Wrappers
  import opened EntityModel
  import opened Entities
  import opened Hierarchy
  import opened PyStrings
  import opened Mmcif

  /** Chain ids as entity ids. */
  function ChainKeys(chainIds: seq<string>): (r: seq<Id>)
    ensures |r| == |chainIds| && forall j :: 0 <= j < |r| ==> r[j] == Name(chainIds[j])
  {
    seq(|chainIds|, j requires 0 <= j < |chainIds| => Name(chainIds[j]))
  }

  /** `Model(i)`: id `i`, serial number `i`. */
  function ModelHead(i: nat): NodeRec {
    FreshRec(Serial(i), ModelLevel, Some(DefaultSerial(Serial(i), None)))
  }

  /** The entity the chains are copied from: model 0 of the structure when
      there are chains to copy and it exists. */
  ghost function SourceModel(m: Nodes, s: Node, ids: seq<Id>): Node
    requires s in m
  {
    if ids != [] && Serial(0) in m[s].dict then m[s].dict[Serial(0)] else s
  }

  /** What stops `transform_structure`: with at least one transformation and
      one chain, model 0 must exist (KeyError), and the sorted chain ids must
      all be chains of it (KeyError) with no repeat ("defined twice"). */
  ghost function TransformCheck(m: Nodes, rank: Ranks, s: Node, ids: seq<Id>, n: nat): Outcome
    requires Valid(m, rank) && s in m
  {
    if n == 0 || ids == [] then Pass
    else if Serial(0) !in m[s].dict then Fail(KeyError)
    else
      assert NodeOk(m, s);
      ExtractCheck(m[m[s].dict[Serial(0)]].dict, ids, 0)
  }

  /** The chains named are all in the source model. */
  ghost predicate Sourced(m: Nodes, s: Node, src: Node, ids: seq<Id>) {
    s in m && src in m && forall j :: 0 <= j < |ids| ==> ids[j] in m[src].dict
  }

  /** The bioassembly `transform_structure` builds: a detached Structure with
      the structure's id holding, for each of the `n` transformations `i`, a
      `Model(i)` with copies of the chains of model 0 named by `ids`, in
      that order. */
  ghost function Assembled(m: Nodes, rank: Ranks, s: Node, ids: seq<Id>, n: nat): Shape
    requires Valid(m, rank) && s in m
    requires n > 0 ==> Sourced(m, s, SourceModel(m, s, ids), ids)
  {
    var src := SourceModel(m, s, ids);
    Shape(m[s].id, StructureLevel, None, map[],
          seq(n, i requires 0 <= i < n => Extracted(m, rank, src, ModelHead(i), ids)))
  }

  /** The loop invariant of `TransformStructure`: `bio` is the untouched,
      detached head over the models built so far, model `j` with id `j` and
      the extracted shape; nothing that existed before has changed. */
  ghost predicate Building(m0: Nodes, r0: Ranks, m: Nodes, r: Ranks, s: Node, src: Node,
                           bio: Node, ids: seq<Id>, ms: seq<Node>) {
    && Valid(m0, r0) && Valid(m, r) && s in m0 && src in m0 && bio !in m0 && bio in m
    && (forall k :: k in m0 ==> k in m && m[k] == m0[k])
    && BuiltHead(m0, m, s, bio, ms)
    && BuiltModels(m0, r0, m, r, s, src, ids, ms)
  }

  /** `bio` is a detached structure head with the source's id over `ms`,
      keyed `0 .. |ms| - 1`. */
  ghost predicate BuiltHead(m0: Nodes, m: Nodes, s: Node, bio: Node, ms: seq<Node>)
    requires s in m0 && bio in m
  {
    && m[bio].parent == None && HeadAs(m[bio], FreshRec(m0[s].id, StructureLevel, None))
    && m[bio].children == ms
    && (forall k :: k in m[bio].dict <==> k.Serial? && 0 <= k.serial < |ms|)
  }

  /** Model `j` of `ms` has the shape extracted for model `j`. */
  ghost predicate BuiltModels(m0: Nodes, r0: Ranks, m: Nodes, r: Ranks, s: Node, src: Node, ids: seq<Id>, ms: seq<Node>)
    requires Valid(m0, r0) && Valid(m, r) && s in m0 && src in m0
  {
    && (ms != [] ==> Sourced(m0, s, src, ids))
    && (forall j :: 0 <= j < |ms| ==>
          (ms[j] in m && Sourced(m0, s, src, ids) &&
           ShapeOf(m, r, ms[j]) == Extracted(m0, r0, src, ModelHead(j), ids)))
  }

  /** `model.add(...)` of the new bioassembly: model `i` is detached, not an
      ancestor of `bio`, and its id is not yet taken. */
  lemma AttachReady(m: Nodes, r: Ranks, bio: Node, mi: Node, i: nat)
    requires Valid(m, r) && bio in m && mi in m && bio != mi
    requires m[bio].parent == None && m[mi].parent == None && m[mi].id == Serial(i)
    requires forall k :: k in m[bio].dict <==> k.Serial? && 0 <= k.serial < i
    ensures Attachable(m, r, bio, [mi]) && CheckBatch(m, bio, [mi]) == Pass
  {
    assert !AncestorOrSelf(m, r, mi, bio);
    assert !AnyDefined(m, bio, [mi]);
    assert DistinctIds(m, [mi]);
  }

  /** One round of the loop keeps `Building`. */
  lemma BuildStep(m0: Nodes, r0: Ranks, mb: Nodes, rb: Ranks, m1: Nodes, r1: Ranks,
                  mc: Nodes, rc: Ranks, m2: Nodes, r2: Ranks,
                  s: Node, src: Node, bio: Node, ids: seq<Id>, ms: seq<Node>, mi: Node)
    requires Building(m0, r0, mb, rb, s, src, bio, ids, ms)
    requires mi !in mb && m1 == mb[mi := ModelHead(|ms|)] && Valid(m1, r1)
    requires Valid(mc, rc) && mi in mc && mc[mi].parent == None && mc[mi].id == Serial(|ms|)
    requires forall k :: k in m1 && k != mi ==> k in mc && mc[k] == m1[k]
    requires Sourced(m1, s, src, ids)
    requires ShapeOf(mc, rc, mi) == Extracted(m1, r1, src, ModelHead(|ms|), ids)
    requires bio in mc && m2 == AttachAt(mc, bio, |mc[bio].children|, [mi]) && Valid(m2, r2)
    ensures Building(m0, r0, m2, r2, s, src, bio, ids, ms + [mi])
  {
    ModelBuilt(m0, r0, mb, rb, m1, r1, mc, rc, s, src, bio, ids, ms, mi);
    ModelAdded(m0, r0, mb, rb, mc, rc, m2, r2, s, src, bio, ids, ms, mi);
  }

  /** The new model `mi`, once built, has the extracted shape, and building
      it changed nothing that existed. */
  lemma ModelBuilt(m0: Nodes, r0: Ranks, mb: Nodes, rb: Ranks, m1: Nodes, r1: Ranks,
                   mc: Nodes, rc: Ranks, s: Node, src: Node, bio: Node, ids: seq<Id>, ms: seq<Node>, mi: Node)
    requires Building(m0, r0, mb, rb, s, src, bio, ids, ms)
    requires mi !in mb && m1 == mb[mi := ModelHead(|ms|)] && Valid(m1, r1)
    requires Valid(mc, rc) && mi in mc
    requires forall k :: k in m1 && k != mi ==> k in mc && mc[k] == m1[k]
    requires Sourced(m1, s, src, ids)
    requires ShapeOf(mc, rc, mi) == Extracted(m1, r1, src, ModelHead(|ms|), ids)
    ensures forall k :: k in mb ==> k in mc && mc[k] == mb[k]
    ensures Sourced(m0, s, src, ids)
    ensures ShapeOf(mc, rc, mi) == Extracted(m0, r0, src, ModelHead(|ms|), ids)
  {
    NewOneFrame(mb, m1, mc, mi);
    assert m1[src] == m0[src];
    ExtractedFrame(m0, r0, m1, r1, src, ModelHead(|ms|), ids);
  }

  /** Hanging the built model `mi` under `bio` extends the invariant by one model. */
  lemma ModelAdded(m0: Nodes, r0: Ranks, mb: Nodes, rb: Ranks, mc: Nodes, rc: Ranks, m2: Nodes, r2: Ranks,
                   s: Node, src: Node, bio: Node, ids: seq<Id>, ms: seq<Node>, mi: Node)
    requires Building(m0, r0, mb, rb, s, src, bio, ids, ms)
    requires mi !in mb && Valid(mc, rc) && mi in mc && mc[mi].parent == None && mc[mi].id == Serial(|ms|)
    requires forall k :: k in mb ==> k in mc && mc[k] == mb[k]
    requires Sourced(m0, s, src, ids)
    requires ShapeOf(mc, rc, mi) == Extracted(m0, r0, src, ModelHead(|ms|), ids)
    requires m2 == AttachAt(mc, bio, |mc[bio].children|, [mi]) && Valid(m2, r2)
    ensures Building(m0, r0, m2, r2, s, src, bio, ids, ms + [mi])
  {
    var i := |ms|;
    assert mc[bio] == mb[bio];
    assert mi != bio && mc[bio].parent == None;
    assert !AncestorOrSelf(mc, rc, mi, bio);
    AppendOne(mc, rc, m2, r2, bio, mi);
    KeepOld(m0, mb, mc, m2, bio, mi);
    BuildKeys(mb[bio].dict.Keys, m2[bio].dict.Keys, i);
    BuildShapes(m0, r0, mb, rb, mc, rc, m2, r2, s, src, bio, ids, ms, mi);
  }

  /** The fresh head `bio`, before any model is built. */
  lemma BuildingStart(m0: Nodes, r0: Ranks, m: Nodes, r: Ranks, s: Node, src: Node, bio: Node, ids: seq<Id>)
    requires Valid(m0, r0) && Valid(m, r) && s in m0 && src in m0 && bio !in m0
    requires m == m0[bio := FreshRec(m0[s].id, StructureLevel, None)]
    ensures Building(m0, r0, m, r, s, src, bio, ids, [])
  {
  }

  /** What existed before `mi` was made is untouched by building `mi`. */
  lemma NewOneFrame(mb: Nodes, m1: Nodes, mc: Nodes, mi: Node)
    requires mi !in mb && mi in m1 && m1 == mb[mi := m1[mi]]
    requires forall k :: k in m1 && k != mi ==> k in mc && mc[k] == m1[k]
    ensures forall k :: k in mb ==> k in mc && mc[k] == mb[k]
  {
  }

  /** Nothing that existed before the round changes in it. */
  lemma KeepOld(m0: Nodes, mb: Nodes, mc: Nodes, m2: Nodes, bio: Node, mi: Node)
    requires bio !in m0 && mi !in mb
    requires forall k :: k in m0 ==> k in mb && mb[k] == m0[k]
    requires forall k :: k in mb ==> k in mc && mc[k] == mb[k]
    requires forall k :: k in mc && k != bio && k != mi ==> k in m2 && m2[k] == mc[k]
    ensures forall k :: k in m0 ==> k in m2 && m2[k] == m0[k]
  {
  }

  /** The id map of the assembly holds `0 .. i - 1`, then `0 .. i`. */
  lemma BuildKeys(before: set<Id>, after: set<Id>, i: nat)
    requires forall k :: k in before <==> k.Serial? && 0 <= k.serial < i
    requires after == before + {Serial(i)}
    ensures forall k :: k in after <==> k.Serial? && 0 <= k.serial < i + 1
  {
  }

  /** The models built so far keep their shapes, and the new one has the
      extracted shape. */
  lemma BuildShapes(m0: Nodes, r0: Ranks, mb: Nodes, rb: Ranks, mc: Nodes, rc: Ranks,
                    m2: Nodes, r2: Ranks, s: Node, src: Node, bio: Node, ids: seq<Id>,
                    ms: seq<Node>, mi: Node)
    requires Building(m0, r0, mb, rb, s, src, bio, ids, ms)
    requires Valid(mc, rc) && Valid(m2, r2) && mi in mc && bio in mc && mc[bio] == mb[bio]
    requires forall k :: k in mb ==> k in mc && mc[k] == mb[k]
    requires Sourced(m0, s, src, ids)
    requires ShapeOf(mc, rc, mi) == Extracted(m0, r0, src, ModelHead(|ms|), ids)
    requires forall x :: x in mc && (x in mc[bio].children || x == mi) ==>
      x in m2 && ShapeOf(m2, r2, x) == ShapeOf(mc, rc, x)
    ensures BuiltModels(m0, r0, m2, r2, s, src, ids, ms + [mi])
  {
    OldChildrenShapes(mb, rb, mc, rc, bio);
    forall j | 0 <= j < |ms| + 1
      ensures (ms + [mi])[j] in m2 && ShapeOf(m2, r2, (ms + [mi])[j]) == Extracted(m0, r0, src, ModelHead(j), ids)
    {
      if j < |ms| {
        assert ms[j] in mb[bio].children;
      }
    }
  }

  /** Once every model is built, `bio` has the assembled shape. */
  lemma BuildShape(m0: Nodes, r0: Ranks, m: Nodes, r: Ranks, s: Node, src: Node,
                   bio: Node, ids: seq<Id>, ms: seq<Node>)
    requires Building(m0, r0, m, r, s, src, bio, ids, ms)
    requires src == SourceModel(m0, s, ids) || ids == []
    ensures |ms| > 0 ==> Sourced(m0, s, SourceModel(m0, s, ids), ids)
    ensures ShapeOf(m, r, bio) == Assembled(m0, r0, s, ids, |ms|)
  {
    ChildRanks(m, r, bio);
    if |ms| > 0 {
      if ids == [] {
        assert Sourced(m0, s, SourceModel(m0, s, ids), ids);
      }
      forall j | 0 <= j < |ms|
        ensures Extracted(m0, r0, src, ModelHead(j), ids) == Extracted(m0, r0, SourceModel(m0, s, ids), ModelHead(j), ids)
      {
      }
    }
    assert ShapeOf(m, r, bio).children == Assembled(m0, r0, s, ids, |ms|).children;
  }

  /** What `transform_structure(structure, chain_ids, transformations)`
      yields, from the entities `m0` before to `m` after: the error of
      `TransformCheck`, or a new, detached Structure shaped as `Assembled`. */
  ghost predicate Transformed(m0: Nodes, r0: Ranks, m: Nodes, rank: Ranks, s: Node,
                              chainIds: seq<string>, n: nat, r: Result<Node>) {
    && Valid(m0, r0) && s in m0 && Valid(m, rank)
    && var ids := ChainKeys(SortAll(chainIds));
       var check := TransformCheck(m0, r0, s, ids, n);
       && (r.Ok? <==> check == Pass)
       && (r.Err? ==> check == Fail(r.error))
       && (r.Ok? ==> r.value in m && r.value !in m0 && m[r.value].parent == None)
       && (r.Ok? && n > 0 ==> Sourced(m0, s, SourceModel(m0, s, ids), ids))
       && (r.Ok? ==> ShapeOf(m, rank, r.value) == Assembled(m0, r0, s, ids, n))
  }

  /** `transform_structure(structure, chain_ids, transformations)`: a new
      Structure with the structure's id; for each transformation `i`, a new
      `Model(i)` with copies of the chains of `structure[0]` named by
      `sorted(chain_ids)`. Model 0 is only looked up when there is a
      transformation and a chain. The structure and everything that existed
      before are left as they were. */
  method TransformStructure(t: Tree, s: Node, chainIds: seq<string>, transformations: seq<Transformation>)
    returns (r: Result<Node>)
    requires t.Inv() && s in t.nodes
    modifies t
    ensures t.Inv()
    ensures forall k :: k in old(t.nodes) ==> k in t.nodes && t.nodes[k] == old(t.nodes)[k]
    ensures var check := TransformCheck(old(t.nodes), old(t.rank), s, ChainKeys(SortAll(chainIds)), |transformations|);
      (r.Ok? <==> check == Pass) && (r.Err? ==> check == Fail(r.error))
    ensures r.Ok? ==> r.value in t.nodes && r.value !in old(t.nodes) && t.nodes[r.value].parent == None
    ensures r.Ok? && |transformations| > 0 ==>
      Sourced(old(t.nodes), s, SourceModel(old(t.nodes), s, ChainKeys(SortAll(chainIds))), ChainKeys(SortAll(chainIds)))
    ensures r.Ok? ==>
      ShapeOf(t.nodes, t.rank, r.value) ==
        Assembled(old(t.nodes), old(t.rank), s, ChainKeys(SortAll(chainIds)), |transformations|)
  {
    ghost var m0, r0 := t.nodes, t.rank;
    var ids := ChainKeys(SortAll(chainIds));
    var n := |transformations|;
    assert NodeOk(m0, s);
    var src := s;
    if ids != [] && Serial(0) in t.nodes[s].dict {
      src := t.nodes[s].dict[Serial(0)];
    }
    if n > 0 && ids != [] && Serial(0) !in t.nodes[s].dict {
      return Err(KeyError);
    }
    ExtractCheckFirst(m0, r0, s, src, ids, n);
    var bio := t.NewEntity(t.nodes[s].id, StructureLevel, None);
    BuildingStart(m0, r0, t.nodes, t.rank, s, src, bio, ids);
    var o, ms := BuildModels(t, s, src, bio, ids, n, m0, r0);
    if o.Fail? {
      assert TransformCheck(m0, r0, s, ids, n) == o;
      return Err(o.error);
    }
    assert TransformCheck(m0, r0, s, ids, n) == Pass;
    BuildShape(m0, r0, t.nodes, t.rank, s, src, bio, ids, ms);
    r := Ok(bio);
  }

  /** The loop of `transform_structure`: one model per transformation hung
      under `bio`, stopping at the first failed chain lookup. */
  method BuildModels(t: Tree, s: Node, src: Node, bio: Node, ids: seq<Id>, n: nat, ghost m0: Nodes, ghost r0: Ranks)
    returns (o: Outcome, ghost ms: seq<Node>)
    requires t.Inv() && Building(m0, r0, t.nodes, t.rank, s, src, bio, ids, [])
    modifies t
    ensures t.Inv()
    ensures forall k :: k in m0 ==> k in t.nodes && t.nodes[k] == m0[k]
    ensures o == if n == 0 then Pass else ExtractCheck(m0[src].dict, ids, 0)
    ensures o == Pass ==> |ms| == n && Building(m0, r0, t.nodes, t.rank, s, src, bio, ids, ms)
  {
    ms := [];
    o := Pass;
    var i := 0;
    while i < n
      invariant 0 <= i <= n && |ms| == i && o == Pass
      invariant t.Inv() && Building(m0, r0, t.nodes, t.rank, s, src, bio, ids, ms)
      invariant i > 0 ==> ExtractCheck(m0[src].dict, ids, 0) == Pass
    {
      var mi;
      o, mi := AddModel(t, s, src, bio, ids, i, ms, m0, r0);
      if o.Fail? {
        return;
      }
      ms := ms + [mi];
      i := i + 1;
    }
  }

  /** One round of `transform_structure`'s loop: `Model(i)`, the chains
      copied into it, and the model added to the bioassembly. On failure
      the copying's error comes back and the bioassembly is left as it was;
      either way nothing that existed before the loop changes. */
  method AddModel(t: Tree, s: Node, src: Node, bio: Node, ids: seq<Id>, i: nat,
                  ghost ms: seq<Node>, ghost m0: Nodes, ghost r0: Ranks)
    returns (o: Outcome, mi: Node)
    requires t.Inv() && Building(m0, r0, t.nodes, t.rank, s, src, bio, ids, ms) && i == |ms|
    modifies t
    ensures t.Inv()
    ensures o == ExtractCheck(m0[src].dict, ids, 0)
    ensures forall k :: k in m0 ==> k in t.nodes && t.nodes[k] == m0[k]
    ensures o == Pass ==> Building(m0, r0, t.nodes, t.rank, s, src, bio, ids, ms + [mi])
  {
    ghost var mb, rb := t.nodes, t.rank;
    mi := NewModel(t, Serial(i), None);
    ghost var m1, r1 := t.nodes, t.rank;
    assert m1[src] == m0[src];
    o := ExtractInto(t, src, mi, ids);
    ghost var mc, rc := t.nodes, t.rank;
    NewOneFrame(mb, m1, mc, mi);
    KeepOld(m0, mb, mc, mc, bio, mi);
    if o.Fail? {
      return;
    }
    ExtractCheckPass(m0[src].dict, ids);
    assert Sourced(m1, s, src, ids);
    AttachReady(t.nodes, t.rank, bio, mi, i);
    var added := t.Add(bio, Some([mi]));
    assert added == Pass;
    BuildStep(m0, r0, mb, rb, m1, r1, mc, rc, t.nodes, t.rank, s, src, bio, ids, ms, mi);
  }

  /** The check of `transform_structure` is the check of copying the chains
      out of the source model. */
  lemma ExtractCheckFirst(m0: Nodes, r0: Ranks, s: Node, src: Node, ids: seq<Id>, n: nat)
    requires Valid(m0, r0) && s in m0 && src == SourceModel(m0, s, ids) && src in m0
    requires n > 0 && ids != [] ==> Serial(0) in m0[s].dict
    ensures n > 0 ==> TransformCheck(m0, r0, s, ids, n) == ExtractCheck(m0[src].dict, ids, 0)
    ensures n > 0 && ExtractCheck(m0[src].dict, ids, 0) == Pass ==> Sourced(m0, s, src, ids)
  {
    ExtractCheckPass(m0[src].dict, ids);
    if ids == [] {
      assert ExtractCheck(m0[src].dict, ids, 0) == Pass;
    }
  }

  /** `generate_bioassembly(sdict, structure, bioassembly_id, ignore_auth_id)`:
      assembly 0 is the structure itself; otherwise the chains and operators
      of the assembly are looked up and the structure is transformed. */
  method GenerateBioassembly(t: Tree, d: Dict, s: Node, assemblyId: int, ignoreAuthId: bool)
    returns (r: Result<Node>)
    requires t.Inv() && s in t.nodes
    modifies t
    ensures t.Inv()
    ensures forall k :: k in old(t.nodes) ==> k in t.nodes && t.nodes[k] == old(t.nodes)[k]
    ensures assemblyId == 0 ==> r == Ok(s) && t.nodes == old(t.nodes)
    ensures assemblyId != 0 && ChainAndTransformationIds(d, assemblyId, ignoreAuthId).Err? ==>
      r == Err(ChainAndTransformationIds(d, assemblyId, ignoreAuthId).error)
    ensures assemblyId != 0 && ChainAndTransformationIds(d, assemblyId, ignoreAuthId).Ok? ==>
      var ids := ChainAndTransformationIds(d, assemblyId, ignoreAuthId).value;
      var ts := GetTransformations(d, ids.1);
      && (ts.Err? ==> r == Err(ts.error))
      && (ts.Ok? ==> Transformed(old(t.nodes), old(t.rank), t.nodes, t.rank, s, ids.0, |ts.value|, r))
  {
    if assemblyId == 0 {
      return Ok(s);
    }
    var ids := ChainAndTransformationIds(d, assemblyId, ignoreAuthId);
    if ids.Err? {
      return Err(ids.error);
    }
    var ts := GetTransformations(d, ids.value.1);
    if ts.Err? {
      return Err(ts.error);
    }
    r := TransformStructure(t, s, ids.value.0, ts.value);
    assert Transformed(old(t.nodes), old(t.rank), t.nodes, t.rank, s, ids.value.0, |ts.value|, r);
  }

  /** An assembly has one model per operator the assembly lists, in order,
      and every model holds the same chains. */
  lemma AssembledModels(m: Nodes, rank: Ranks, s: Node, ids: seq<Id>, n: nat, i: nat, j: nat)
    requires Valid(m, rank) && s in m && Sourced(m, s, SourceModel(m, s, ids), ids)
    requires i < n && j < n
    ensures |Assembled(m, rank, s, ids, n).children| == n
    ensures Assembled(m, rank, s, ids, n).children[i].id == Serial(i)
    ensures Assembled(m, rank, s, ids, n).children[i].children == Assembled(m, rank, s, ids, n).children[j].children
  {
  }
}
