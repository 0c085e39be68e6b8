/** `allequal` of kmbio/PDB/utils.py: the recursive comparison of two
    entity trees. Entities of different classes raise a plain Exception;
    atoms compare with their own equality; containers are equal when they
    hold as many children and the children compare equal position by
    position. Container ids and `xtra` are not compared. */
module Utils {
  import opened Wrappers
  import opened EntityModel

  /** `Atom.__eq__`, which this model takes as a parameter. */
  type AtomEq = (Shape, Shape) -> bool

  /** `allequal(s1, s2)`; the class of an entity is its level. */
  function AllEqual(eq: AtomEq, a: Shape, b: Shape): (r: Result<bool>)
    ensures a.level != b.level ==> r == Err(Unrecognized)
    ensures r.Err? ==> r.error == Unrecognized
    ensures a.level == b.level == AtomLevel ==> r == Ok(eq(a, b))
    ensures a.level == b.level != AtomLevel && |a.children| != |b.children| ==> r == Ok(false)
    decreases a, 1
  {
    if a.level != b.level then Err(Unrecognized)
    else if a.level == AtomLevel then Ok(eq(a, b))
    else if |a.children| != |b.children| then Ok(false)
    else AllPairs(eq, a, b, 0)
  }

  /** `all(allequal(so1, so2) for (so1, so2) in zip(...))` from position
      `i` on: the first pair that raises or is unequal decides, and no later
      pair is compared. */
  function AllPairs(eq: AtomEq, a: Shape, b: Shape, i: nat): (r: Result<bool>)
    requires |a.children| == |b.children| && i <= |a.children|
    ensures r.Err? ==> r.error == Unrecognized
    decreases a, 0, |a.children| - i
  {
    if i == |a.children| then Ok(true)
    else
      var p := AllEqual(eq, a.children[i], b.children[i]);
      if p.Err? then p
      else if !p.value then Ok(false)
      else AllPairs(eq, a, b, i + 1)
  }

  /** Reference definition: same classes all the way down, containers of
      equal sizes, and atoms equal under `eq`. */
  ghost predicate Alike(eq: AtomEq, a: Shape, b: Shape)
    decreases a
  {
    && a.level == b.level
    && (a.level == AtomLevel ==> eq(a, b))
    && (a.level != AtomLevel ==>
          && |a.children| == |b.children|
          && forall i :: 0 <= i < |a.children| ==> Alike(eq, a.children[i], b.children[i]))
  }

  /** `allequal` is true exactly for alike trees. */
  lemma {:induction false} AllEqualAlike(eq: AtomEq, a: Shape, b: Shape)
    ensures AllEqual(eq, a, b) == Ok(true) <==> Alike(eq, a, b)
    decreases a, 1
  {
    if a.level == b.level && a.level != AtomLevel && |a.children| == |b.children| {
      AllPairsAlike(eq, a, b, 0);
    }
  }

  lemma {:induction false} AllPairsAlike(eq: AtomEq, a: Shape, b: Shape, i: nat)
    requires |a.children| == |b.children| && i <= |a.children|
    ensures AllPairs(eq, a, b, i) == Ok(true) <==>
      forall j :: i <= j < |a.children| ==> Alike(eq, a.children[j], b.children[j])
    decreases a, 0, |a.children| - i
  {
    if i < |a.children| {
      AllEqualAlike(eq, a.children[i], b.children[i]);
      AllPairsAlike(eq, a, b, i + 1);
    }
  }

  /** Only trees whose classes differ somewhere a comparison reaches raise:
      trees with the same classes, child counts aside, never do. */
  ghost predicate SameClasses(a: Shape, b: Shape)
    decreases a
  {
    && a.level == b.level
    && (a.level != AtomLevel && |a.children| == |b.children| ==>
          forall i :: 0 <= i < |a.children| ==> SameClasses(a.children[i], b.children[i]))
  }

  lemma {:induction false} AllEqualNoRaise(eq: AtomEq, a: Shape, b: Shape)
    requires SameClasses(a, b)
    ensures AllEqual(eq, a, b).Ok?
    decreases a, 1
  {
    if a.level != AtomLevel && |a.children| == |b.children| {
      AllPairsNoRaise(eq, a, b, 0);
    }
  }

  lemma {:induction false} AllPairsNoRaise(eq: AtomEq, a: Shape, b: Shape, i: nat)
    requires |a.children| == |b.children| && i <= |a.children|
    requires forall j :: 0 <= j < |a.children| ==> SameClasses(a.children[j], b.children[j])
    ensures AllPairs(eq, a, b, i).Ok?
    decreases a, 0, |a.children| - i
  {
    if i < |a.children| {
      AllEqualNoRaise(eq, a.children[i], b.children[i]);
      AllPairsNoRaise(eq, a, b, i + 1);
    }
  }

  /** With a reflexive atom equality every tree is `allequal` to itself. */
  lemma {:induction false} AllEqualReflexive(eq: AtomEq, a: Shape)
    requires forall x :: eq(x, x)
    ensures AllEqual(eq, a, a) == Ok(true)
    decreases a, 1
  {
    if a.level != AtomLevel {
      AllPairsReflexive(eq, a, 0);
    }
  }

  lemma {:induction false} AllPairsReflexive(eq: AtomEq, a: Shape, i: nat)
    requires forall x :: eq(x, x)
    requires i <= |a.children|
    ensures AllPairs(eq, a, a, i) == Ok(true)
    decreases a, 0, |a.children| - i
  {
    if i < |a.children| {
      AllEqualReflexive(eq, a.children[i]);
      AllPairsReflexive(eq, a, i + 1);
    }
  }

  /** With a symmetric atom equality the order of the arguments does not
      matter, raising included: both orders stop at the same pair. */
  lemma {:induction false} AllEqualSymmetric(eq: AtomEq, a: Shape, b: Shape)
    requires forall x, y :: eq(x, y) == eq(y, x)
    ensures AllEqual(eq, a, b) == AllEqual(eq, b, a)
    decreases a, 1
  {
    if a.level == b.level && a.level != AtomLevel && |a.children| == |b.children| {
      AllPairsSymmetric(eq, a, b, 0);
    }
  }

  lemma {:induction false} AllPairsSymmetric(eq: AtomEq, a: Shape, b: Shape, i: nat)
    requires forall x, y :: eq(x, y) == eq(y, x)
    requires |a.children| == |b.children| && i <= |a.children|
    ensures AllPairs(eq, a, b, i) == AllPairs(eq, b, a, i)
    decreases a, 0, |a.children| - i
  {
    if i < |a.children| {
      AllEqualSymmetric(eq, a.children[i], b.children[i]);
      AllPairsSymmetric(eq, a, b, i + 1);
    }
  }
}
