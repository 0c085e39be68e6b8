/** `DisorderedEntityWrapper` of kmbio/PDB/core/entity.py: a group of
    alternative entities (the variants), keyed by a name such as an altloc
    or a residue name, one of which is selected and receives the forwarded
    calls. The variants live in a `Tree`. */
module Disordered {
  import opened Wrappers
  import opened EntityModel
  import opened Entities
  import opened PyStrings

  /** `sorted(keys)` for a list of distinct strings. */
  function SortStrings(s: seq<string>): (r: seq<string>)
    requires Distinct(s)
    ensures Sorted(r) && |r| == |s|
    ensures forall k :: k in r <==> k in s
  {
    if s == [] then []
    else
      var init := s[..|s| - 1];
      assert Distinct(init);
      var last := s[|s| - 1];
      assert last !in init;
      var t := SortStrings(init);
      assert forall k :: k in s <==> k in init || k == last by {
        assert s == init + [last];
      }
      InsertSorted(t, last)
  }

  class Wrapper {
    var id: Id
    /** The keys of `_child_dict`, in insertion order. */
    var order: seq<string>
    /** `_child_dict`: the variants by key. */
    var variants: map<string, Node>
    /** `selected_child`. */
    var selected: Option<Node>
    /** `_parent`. */
    var parent: Option<Node>

    /** The insertion order lists every key once. */
    ghost predicate Valid()
      reads this
    {
      Distinct(order) && forall k :: k in variants <==> k in order
    }

    constructor(id: Id)
      ensures Valid() && this.id == id
      ensures order == [] && variants == map[] && selected == None && parent == None
    {
      this.id := id;
      order, variants, selected, parent := [], map[], None, None;
    }

    /** `self[key] = child`: registers a variant; an existing key keeps its
        place and gets the new child. Nothing is forwarded. */
    method SetItem(key: string, child: Node)
      requires Valid()
      modifies this
      ensures Valid()
      ensures variants == old(variants)[key := child]
      ensures order == if key in old(variants) then old(order) else old(order) + [key]
      ensures id == old(id) && selected == old(selected) && parent == old(parent)
    {
      if key !in variants {
        order := order + [key];
      }
      variants := variants[key := child];
    }

    /** `disordered_has_id(key)` */
    predicate HasId(key: string)
      reads this
      ensures HasId(key) <==> Get(Some(key)).Ok?
    {
      key in variants
    }

    /** `disordered_get(key)`: the selected variant (possibly none) when no
        key is given, otherwise the variant under `key` or KeyError. */
    function Get(key: Option<string>): (r: Result<Option<Node>>)
      reads this
      ensures key.None? ==> r == Ok(selected)
      ensures key.Some? ==> (r.Ok? <==> key.value in variants)
      ensures key.Some? && r.Ok? ==> r.value.Some? && variants[key.value] == r.value.value
      ensures r.Err? ==> r.error == KeyError
    {
      match key
      case None => Ok(selected)
      case Some(k) => if k in variants then Ok(Some(variants[k])) else Err(KeyError)
    }

    /** `disordered_select(key)`: afterwards `disordered_get()` is what
        `disordered_get(key)` was; an unknown key raises KeyError and
        leaves the selection as it was. */
    method Select(key: string) returns (o: Outcome)
      modifies this
      ensures o.Fail? <==> key !in old(variants)
      ensures o.Fail? ==> o.error == KeyError && selected == old(selected)
      ensures o == Pass ==> Get(None) == old(Get(Some(key)))
      ensures id == old(id) && order == old(order) && variants == old(variants) && parent == old(parent)
    {
      if key !in variants {
        return Fail(KeyError);
      }
      selected := Some(variants[key]);
      o := Pass;
    }

    /** `disordered_get_list()`: every variant, in insertion order of the keys. */
    function GetList(): (vs: seq<Node>)
      reads this
      requires Valid()
      ensures |vs| == |order|
      ensures forall c :: c in vs <==> exists k :: k in variants && variants[k] == c
      ensures forall i :: 0 <= i < |order| ==> Get(Some(order[i])) == Ok(Some(vs[i]))
    {
      var ks, vm := order, variants;
      var vs := seq(|ks|, i requires 0 <= i < |ks| => vm[ks[i]]);
      assert forall c :: c in vs <==> exists k :: k in vm && vm[k] == c by {
        forall c | c in vs ensures exists k :: k in vm && vm[k] == c {
          var i :| 0 <= i < |vs| && vs[i] == c;
          assert vm[ks[i]] == c;
        }
        forall c | (exists k :: k in vm && vm[k] == c) ensures c in vs {
          var k :| k in vm && vm[k] == c;
          var i :| 0 <= i < |ks| && ks[i] == k;
          assert vs[i] == c;
        }
      }
      vs
    }

    /** `disordered_get_id_list()`: the keys in ascending order, each once. */
    function GetIdList(): (ids: seq<string>)
      reads this
      requires Valid()
      ensures Sorted(ids) && |ids| == |variants|
      ensures forall k :: k in ids <==> HasId(k)
    {
      var ids := SortStrings(order);
      assert |ids| == |variants| by {
        assert variants.Keys == set k | k in order;
        SetOfDistinct(order);
      }
      ids
    }

    /** The key list is the only sorted list of exactly the keys. */
    lemma GetIdListUnique(ks: seq<string>)
      requires Valid() && Sorted(ks) && forall k :: k in ks <==> HasId(k)
      ensures ks == GetIdList()
    {
      SortedUnique(ks, GetIdList());
    }

    /** The `parent` setter: records `p` and gives every variant the parent
        `p`. The variants are not entered into `p`'s child list. */
    method SetParent(t: Tree, p: Option<Node>)
      requires Valid() && forall k :: k in variants ==> variants[k] in t.nodes
      modifies this, t
      ensures parent == p
      ensures id == old(id) && order == old(order) && variants == old(variants) && selected == old(selected)
      ensures t.nodes == SetParents(old(t.nodes), GetList(), p)
      ensures forall k :: k in variants ==> t.nodes[variants[k]].parent == p
      ensures t.caches == old(t.caches) && t.next == old(t.next) && t.rank == old(t.rank)
    {
      parent := p;
      var vs := GetList();
      t.SetParentsLoop(vs, p);
      forall k | k in variants ensures t.nodes[variants[k]].parent == p {
        assert variants[k] in vs;
      }
    }

    // Forwarding to the selected variant; with nothing selected Python
    // raises TypeError on `None`.

    /** `len(self)` */
    function Len(t: Tree): (r: Result<nat>)
      reads this, t
      requires t.Inv() && (selected.Some? ==> selected.value in t.nodes)
      ensures r.Err? <==> selected.None?
      ensures r.Err? ==> r.error == TypeError
      ensures r.Ok? ==> r.value == |t.Iter(selected.value)|
    {
      match selected
      case None => Err(TypeError)
      case Some(c) => Ok(t.Len(c))
    }

    /** `id in self` */
    function Contains(t: Tree, key: Id): (r: Result<bool>)
      reads this, t
      requires t.Inv() && (selected.Some? ==> selected.value in t.nodes)
      ensures r.Err? <==> selected.None?
      ensures r.Err? ==> r.error == TypeError
      ensures r.Ok? ==> (r.value <==> key in t.Iter(selected.value))
    {
      match selected
      case None => Err(TypeError)
      case Some(c) => Ok(t.Contains(c, key))
    }

    /** `self[id]` */
    function GetItem(t: Tree, key: Id): (r: Result<Node>)
      reads this, t
      requires t.Inv() && (selected.Some? ==> selected.value in t.nodes)
      ensures selected.None? ==> r == Err(TypeError)
      ensures selected.Some? ==> (r.Ok? <==> Contains(t, key) == Ok(true))
      ensures selected.Some? && r.Err? ==> r.error == KeyError
      ensures r.Ok? ==> r.value in t.Values(selected.value) && t.nodes[r.value].id == key
    {
      match selected
      case None => Err(TypeError)
      case Some(c) => t.GetItem(c, key)
    }

    /** `iter(self)`: the ids of the selected variant's children. */
    function Iter(t: Tree): (r: Result<seq<Id>>)
      reads this, t
      requires t.Inv() && (selected.Some? ==> selected.value in t.nodes)
      ensures r.Err? <==> selected.None?
      ensures r.Err? ==> r.error == TypeError
      ensures r.Ok? ==> r.value == t.Iter(selected.value)
      ensures r.Ok? ==> Len(t) == Ok(|r.value|) && Distinct(r.value)
      ensures r.Ok? ==> SetOf(r.value) == t.nodes[selected.value].dict.Keys
      ensures r.Ok? ==> forall i :: 0 <= i < |r.value| ==>
        GetItem(t, r.value[i]) == Ok(t.Values(selected.value)[i]) && Contains(t, r.value[i]) == Ok(true)
    {
      match selected
      case None => Err(TypeError)
      case Some(c) => Ok(t.Iter(c))
    }
  }

  /** A list without repeats has as many members as entries. */
  lemma SetOfDistinct<T>(s: seq<T>)
    requires Distinct(s)
    ensures |set k | k in s| == |s|
  {
    SetOfSize(s);
    assert SetOf(s) == set k | k in s;
  }
}
