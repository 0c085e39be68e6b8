# kmbio entity hierarchy, bioassembly parser and structure loaders

This project models, in Dafny, the core of `kmbio`, a Python library that
represents macromolecular structures as a tree of entities
(Structure → Model → Chain → Residue → Atom) and reads them from PDB, mmCIF
and MMTF files. The modelled parts are:

- the generic `Entity` container (`kmbio/PDB/core/entity.py`): children kept
  both as an ordered list and as an id-keyed map, parent links, the cached
  `full_id`, the `id` setter that re-keys the parent, `add`/`insert`
  validation, `pop`/`clear`/`copy` and the positional indexer `ix`;
- the `DisorderedEntityWrapper`, which forwards to a selected child;
- the level-specific helpers of `Structure` and `Model` (generator walks
  over models, chains, residues and atoms, `extract_models`,
  `extract_chains`, the rich comparisons on ids);
- the bioassembly parser (`kmbio/PDB/parsers/bioassembly.py`): REMARK 350
  lines of a PDB header and the `pdbx_struct_*` categories of an mmCIF
  dictionary, turned into assemblies of chains and symmetry operators;
- the download routes (`kmbio/PDB/io/routes.py`) and the guessing of a PDB id
  and of a file type from a path (`kmbio/PDB/io/loaders.py`);
- `allequal` (`kmbio/PDB/utils.py`), the recursive structural comparison.

Entities live in an arena: a map from handles to records, each record
holding the id, the level, the serial number, `xtra`, the parent handle,
the child list and the child map. `EntityModel.Valid` states the invariant
Python keeps informally (the map and the list agree, every child points
back at its parent, parents sit strictly higher in a rank order, so there
are no cycles), and `EntityModel.ShapeOf` reads a subtree back as a value.
The class `Entities.Tree` holds that arena as fields that its methods update
in place, one method per Python method.

Python's exceptions become `Wrappers.Error` values (`KeyError`,
`ValueError`, `IndexError`, `TypeError`, `AssertionFailed`, …) returned in a
`Result` or an `Outcome`; a method that fails changes nothing, as in the
Python code. Strings are `seq<char>`.

## Model

| member | source | states |
|---|---|---|
| EntityModel.FullIdOf | kmbio/PDB/core/entity.py:220-231 | the full id ends with the entity's own id, the ids of its parent chain coming before it |
| EntityModel.IdMap | kmbio/PDB/core/entity.py:178-179 | the id map of a batch with distinct ids sends each entity's id to that entity and holds nothing else |
| EntityModel.ClampPos | kmbio/PDB/core/entity.py:197 | a slice position lands in `0..len`: kept when already inside, counted from the end when negative |
| EntityModel.RemoveFirst | kmbio/PDB/core/entity.py:148 | `list.remove` drops exactly one occurrence of a present element (multiset minus one) and leaves a list without it unchanged |
| EntityModel.DetachChild | kmbio/PDB/core/entity.py:145-150 | detaching a child touches no other handle (the arena keeps its key set) |
| EntityModel.AttachValid | kmbio/PDB/core/entity.py:159-198 | appending or inserting a validated batch of parentless entities keeps the tree invariant (list and map agree, parent links match, no cycles) |
| EntityModel.DetachValid | kmbio/PDB/core/entity.py:145-150 | removing the child at a position keeps the tree invariant, and the result is the list without that position, the map without that id and the child without a parent |
| EntityModel.ClearValid | kmbio/PDB/core/entity.py:152-157 | `clear` keeps the tree invariant |
| EntityModel.RekeyValid | kmbio/PDB/core/entity.py:121-128 | renaming an entity to an id unused among its siblings keeps the tree invariant (the parent's map is re-keyed) |
| EntityModel.FreshValid | kmbio/PDB/core/entity.py:42-53 | adding a new empty entity keeps the tree invariant |
| EntityModel.FullIdPrefix | kmbio/PDB/core/entity.py:220-231 | the full id of an ancestor is a prefix of the full id of every entity below it |
| EntityModel.DescIff | kmbio/PDB/core/entity.py:91-104 | the entities `_reset_full_id` visits from `a` are exactly those with `a` on their parent chain |
| EntityModel.RekeyFullId | kmbio/PDB/core/entity.py:112-130 | renaming `x` changes the full id of exactly the entities below `x`, and only at `x`'s own position; every other full id is unchanged |
| EntityModel.RekeyRoundTrip | kmbio/PDB/core/entity.py:112-130 | renaming an entity and then renaming it back gives back the same tree |
| EntityModel.ChildIdsDistinct | kmbio/PDB/core/entity.py:57-64 | the children of an entity have pairwise distinct ids |
| EntityModel.AttachDetachRoundTrip | kmbio/PDB/core/entity.py:145-179 | `add([c])` followed by `pop(c.id)` gives back the tree it started from |
| EntityModel.SetXtraValid | kmbio/PDB/core/entity.py:251-256 | setting `xtra` keeps the tree invariant |
| EntityModel.WithoutMembers | kmbio/PDB/core/entity.py:28-33 | after removing a set from the child list, exactly the children outside the set remain |
| EntityModel.WithoutOneMore | kmbio/PDB/core/entity.py:145-150 | `list.remove(c)` on a list without the set `s` gives the list without `s + {c}` |
| EntityModel.WithoutRun | kmbio/PDB/core/entity.py:28-33 | removing the members of a run `lo..hi-1` of a list without repeats leaves the part before it and the part after it |
| EntityModel.DetachSetStep | kmbio/PDB/core/entity.py:28-33 | detaching one more child from a tree with a set already detached gives the tree with the larger set detached |
| Entities.SetOfSize | kmbio/PDB/core/entity.py:172 | a list has as many distinct elements as entries exactly when it has no repeats |
| Entities.DuplicateCheck | kmbio/PDB/core/entity.py:172-174 | the test `len({c.id for c in entities}) < len(entities)` fires exactly when two entities of the batch share an id |
| Entities.CheckBatch | kmbio/PDB/core/entity.py:169-174 | a batch passes exactly when no id is already a child and the ids are distinct; a failure names "defined twice" before "duplicates" |
| Entities.PyIndex | kmbio/PDB/core/entity.py:22-26 | an integer position is valid exactly in `-len..len-1`, negative ones counting from the end |
| Entities.SliceBounds | kmbio/PDB/core/entity.py:22-26 | the bounds of a slice without a step stay within the list, `lo <= hi`; missing bounds mean the ends, a given start is clamped like a list position |
| Entities.ClampBound | kmbio/PDB/core/entity.py:22-26 | `slice.indices` places one bound between `lower` and `upper`: `None` takes the default, a bound already in range is kept, a negative one is counted from the end |
| Entities.SliceIndices | kmbio/PDB/core/entity.py:22-26 | for a positive step both bounds land in `0..len`, for a negative step in `-1..len-1` |
| Entities.Stepped | kmbio/PDB/core/entity.py:22-26 | the positions of `range(from, to, step)`: they start at `from`, each is one step past the previous, all lie before `to` in the direction of the step, and the next step would reach or pass `to` |
| Entities.SteppedAt | kmbio/PDB/core/entity.py:22-26 | position `t` of a stepped range is `from + t * step` |
| Entities.SteppedMonotone | kmbio/PDB/core/entity.py:22-26 | the positions of a stepped range rise with a positive step and fall with a negative one |
| Entities.SteppedDistinct | kmbio/PDB/core/entity.py:22-26 | a stepped range never repeats a position |
| Entities.SlicePositions | kmbio/PDB/core/entity.py:22-26 | `lst[start:stop:step]` raises ValueError exactly for a zero step; otherwise it lists positions of the list, none twice |
| Entities.SlicePositionAt | kmbio/PDB/core/entity.py:22-26 | position `t` of a stepped slice is its first index plus `t` steps |
| Entities.SliceStepOne | kmbio/PDB/core/entity.py:22-26 | without a step, or with step 1, a slice lists the positions `lo..hi-1` of its clamped range in order |
| Entities.SliceReversed | kmbio/PDB/core/entity.py:22-26 | `lst[::-1]` lists every position from the last down to the first |
| Entities.PickAll | kmbio/PDB/core/entity.py:26 | `[vs[p] for p in ps]` has one element per position, the element at that position, and only elements of `vs` |
| Entities.PickDistinct | kmbio/PDB/core/entity.py:26 | distinct positions in a list without repeats pick distinct elements |
| Entities.PickRun | kmbio/PDB/core/entity.py:26 | picking the consecutive positions `lo..hi-1` gives the slice `vs[lo..hi]` |
| Entities.PickReversed | kmbio/PDB/core/entity.py:26 | picking the positions from the last down to the first gives the reversed list |
| Entities.Picking | kmbio/PDB/core/entity.py:26 | a slice that fails passes its error on; otherwise it gives a list with the child at each picked position, without repeats, all of them children |
| Entities.PickingRun | kmbio/PDB/core/entity.py:26 | a slice without a step picks the children of its clamped range `vs[lo..hi]` |
| Entities.PickingSplit | kmbio/PDB/core/entity.py:26 | the slices `[:s]` and `[s:]` both succeed and together give the whole list, in order |
| Entities.Reverse | kmbio/PDB/core/entity.py:229 | `lst.reverse()`: same length, element `i` is element `len-1-i` of the input |
| Entities.Tree.constructor | kmbio/PDB/core/entity.py:42-53 | an empty arena satisfies the invariant |
| Entities.Tree.NewEntity | kmbio/PDB/core/entity.py:42-53 | a new, detached, childless entity with the given id, no cached full id; nothing else changes |
| Entities.Tree.GetItem | kmbio/PDB/core/entity.py:57-59 | `self[id]` finds a child exactly when one has that id, and otherwise raises KeyError |
| Entities.Tree.Contains | kmbio/PDB/core/entity.py:72-74 | `id in self` holds exactly when `self[id]` succeeds |
| Entities.Tree.Len | kmbio/PDB/core/entity.py:81-83 | the length of the child list equals the size of the child map |
| Entities.Tree.Values | kmbio/PDB/core/entity.py:85-87 | the children without repeats, as many as `len`, each pointing back at the parent and found by its own id |
| Entities.Tree.Iter | kmbio/PDB/core/entity.py:76-79 | the child ids in order, without repeats, exactly the keys of the map, each finding the child at the same position |
| Entities.Tree.Attach | kmbio/PDB/core/entity.py:175-179 | the batch is spliced in at the position, each member gets the parent and enters the map; the invariant holds after |
| Entities.Tree.SetParentsLoop | kmbio/PDB/core/entity.py:175-176 | the loop sets the parent of each entity of the batch and of nothing else |
| Entities.Tree.Add | kmbio/PDB/core/entity.py:159-179 | `None` is ignored; "defined twice" and "duplicates" raise and change nothing; otherwise the batch is appended; ranks of unrelated entities are kept |
| Entities.Tree.Insert | kmbio/PDB/core/entity.py:181-198 | as `add`, but `None` raises TypeError and the batch goes in at the clamped position |
| Entities.Tree.SetItem | kmbio/PDB/core/entity.py:61-64 | a key other than the item's id fails the assertion; a used id raises "defined twice"; otherwise the item is appended |
| Entities.Tree.Pop | kmbio/PDB/core/entity.py:145-150 | KeyError and no change exactly when the id is absent; otherwise returns the child with that id, detached from list and map |
| Entities.Tree.Delete | kmbio/PDB/core/entity.py:66-70 | `del self[id]` is `pop` without the result, KeyError when absent |
| Entities.Tree.Clear | kmbio/PDB/core/entity.py:152-157 | every child loses its parent, the list, the map and `xtra` become empty; the invariant holds |
| Entities.Tree.Copy | kmbio/PDB/core/entity.py:251-256 | the copy is a new parentless entity whose subtree has the same shape (ids, levels, serial numbers, `xtra`, child order) as the original, made of new entities with no cached full ids; nothing that existed changes |
| Entities.Tree.AdoptCopies | kmbio/PDB/core/entity.py:254-255 | the finished child copies hung under the new head and its `xtra` set make the head a copy of the original; nothing that existed changes |
| Entities.Tree.SetXtra | kmbio/PDB/core/entity.py:255 | the arena invariant is kept when only `xtra` changes; nothing else changes |
| Entities.Tree.CopyChildren | kmbio/PDB/core/entity.py:254 | the generator of child copies yields one new finished copy per child, in order, attachable under the new parent |
| Entities.Tree.ResetFullId | kmbio/PDB/core/entity.py:91-104 | the cached full ids of the entity and of everything below it are cleared and nothing else changes |
| Entities.Tree.SetId | kmbio/PDB/core/entity.py:112-130 | ValueError and no change exactly when the parent already has the new id (the entity's own included); otherwise the parent's map is re-keyed, the id set and the caches below cleared, and sound caches stay sound |
| Entities.Tree.ParentChainIds | kmbio/PDB/core/entity.py:214-220 | the loop collects the ids up the parent chain, whose reverse is the full id |
| Entities.Tree.FullId | kmbio/PDB/core/entity.py:200-231 | returns the cached value if present, otherwise computes the full id and caches it; with sound caches the answer is always the full id |
| Entities.Tree.IndexGet | kmbio/PDB/core/entity.py:22-26 | `ix[i]` is the child at position `i` (negative from the end) or IndexError exactly outside `-len..len-1`; a key without `start` is AttributeError; a slice, or an object with `start`/`stop` read as a slice without a step, fails with ValueError exactly when its step is zero and otherwise lists the child at each position the slice picks, in the slice's order, without repeats |
| Entities.Tree.IndexSplit | kmbio/PDB/core/entity.py:22-26 | `ix[:s] + ix[s:]` lists every child, in order |
| Entities.Tree.IndexStepOne | kmbio/PDB/core/entity.py:22-26 | `ix[a:b]` is the run of children `lo..hi-1` of the clamped bounds |
| Entities.Tree.IndexReversed | kmbio/PDB/core/entity.py:22-26 | `ix[::-1]` lists every child in reverse order |
| Entities.Tree.IndexDelete | kmbio/PDB/core/entity.py:28-33 | `del ix[k]` fails, with the same error and no change, exactly when `ix[k]` does; a position removes that child from list and map; a slice removes exactly the children it picks, whatever its step, leaving the others in order and the removed ones parentless |
| Entities.Tree.DeleteSpanLeaves | kmbio/PDB/core/entity.py:28-33 | `del ix[a:b]` leaves the children before the clamped start and from the clamped stop on, in order |
| Entities.Tree.DeleteEach | kmbio/PDB/core/entity.py:31-33 | the loop deleting each picked child by id ends with exactly the picked set removed |
| Entities.Tree.DeleteNext | kmbio/PDB/core/entity.py:33 | one turn of that loop, `del self[item.id]`, adds that child to the removed set |
| Disordered.SortStrings | kmbio/PDB/core/entity.py:353-356 | `sorted` of distinct keys: ascending, same length, the same keys |
| Disordered.Wrapper.constructor | kmbio/PDB/core/entity.py:270-275 | a new wrapper has the id, no variants, no selected child and no parent |
| Disordered.Wrapper.SetItem | kmbio/PDB/core/entity.py:293-295 | registers the variant under the key (a known key keeps its place in the order); the selection and the parent are untouched |
| Disordered.Wrapper.HasId | kmbio/PDB/core/entity.py:338-340 | a key is present exactly when `disordered_get(key)` succeeds |
| Disordered.Wrapper.Get | kmbio/PDB/core/entity.py:358-365 | without a key, the selected child (possibly none); with a key, the variant under it, or KeyError exactly when the key is unknown |
| Disordered.Wrapper.Select | kmbio/PDB/core/entity.py:342-347 | KeyError and no change exactly for an unknown key; otherwise `disordered_get()` becomes what `disordered_get(key)` was; only the selection changes |
| Disordered.Wrapper.GetList | kmbio/PDB/core/entity.py:367-369 | every variant, one per key, in the insertion order of the keys |
| Disordered.Wrapper.GetIdList | kmbio/PDB/core/entity.py:353-356 | the keys, ascending, each once |
| Disordered.Wrapper.GetIdListUnique | kmbio/PDB/core/entity.py:353-356 | the id list is the only sorted list of exactly the keys |
| Disordered.Wrapper.SetParent | kmbio/PDB/core/entity.py:331-336 | records the parent and gives every variant that parent, changing nothing else |
| Disordered.Wrapper.Len | kmbio/PDB/core/entity.py:306-308 | the child count of the selected variant; TypeError exactly when none is selected |
| Disordered.Wrapper.Contains | kmbio/PDB/core/entity.py:297-299 | membership among the selected variant's child ids; TypeError exactly when none is selected |
| Disordered.Wrapper.GetItem | kmbio/PDB/core/entity.py:287-289 | the selected variant's child with that id, found exactly when `id in self`, KeyError otherwise; TypeError when none is selected |
| Disordered.Wrapper.Iter | kmbio/PDB/core/entity.py:301-304 | exactly the selected variant's iteration: its child ids in order, without repeats, as many as `len`, exactly its map's keys, and `self[id]` of the `i`-th id is its `i`-th child; TypeError when none is selected |
| Hierarchy.ChildrenOfAll | kmbio/PDB/core/structure.py:44-57 | one nested loop visits exactly the entities whose parent is among the given ones |
| Hierarchy.ChildrenOfAllAppend | kmbio/PDB/core/structure.py:44-57 | the nested loop over a concatenation is the concatenation of the loops |
| Hierarchy.ChildrenOfAllDistinct | kmbio/PDB/core/structure.py:44-57 | without repeated parents no entity is visited twice |
| Hierarchy.Generation | kmbio/PDB/core/structure.py:40-57 | `get_models`, `get_chains`, `get_residues` and `get_atoms` list entities of the tree without repeats |
| Hierarchy.GenerationMembers | kmbio/PDB/Structure.py:38-55 | the `k`-th traversal holds exactly the entities `k` parent links below the Structure |
| Hierarchy.GenerationOne | kmbio/PDB/core/structure.py:40-42 | `get_models()` is the child list itself, in insertion order |
| Hierarchy.GenerationSplit | Bio/PDB/Model.py:59-71 | a Structure's traversal one level deeper is the Model traversals concatenated model by model |
| Hierarchy.ExtractCheckPass | kmbio/PDB/core/structure.py:59-64 | extraction succeeds exactly when every requested id names a child and no id comes twice; otherwise KeyError or "defined twice", the first offending id deciding |
| Hierarchy.ExtractNext | kmbio/PDB/core/structure.py:62-63 | one round `structure.add(self[id].copy())`: KeyError for an unknown id, "defined twice" for a repeated one, otherwise a copy of that child is appended and nothing else changes |
| Hierarchy.CopyInto | kmbio/PDB/core/structure.py:63 | `st.add(x.copy())` appends a copy of the same shape unless the id is taken |
| Hierarchy.ExtractInto | kmbio/PDB/core/structure.py:62-63 | the loop's outcome is the check on the ids; on success the new entity holds copies of the named children, in request order |
| Hierarchy.NewModel | Bio/PDB/Model.py:20-30 | `Model(id, serial_num)` is a new empty Model whose serial number defaults to the id |
| Hierarchy.DefaultSerial | Bio/PDB/Model.py:26-29 | the given serial number, else the id |
| Hierarchy.ExtractModels | kmbio/PDB/core/structure.py:59-64 | a new detached Structure with the same id holding copies of the named models, in request order, or the first error; existing entities unchanged |
| Hierarchy.ExtractChains | Bio/PDB/Model.py:74-78 | a new detached Model with the same id and serial number holding copies of the named chains, in request order, or the first error; existing entities unchanged |
| Hierarchy.ExtractedIds | kmbio/PDB/core/structure.py:59-64 | the extracted entity's children carry the requested ids, in order |
| Hierarchy.ExtractAll | kmbio/PDB/core/structure.py:59-64 | extracting every child id in list order always succeeds and reproduces the children exactly |
| Hierarchy.StructureCompare | kmbio/PDB/core/structure.py:22-38 | comparisons use `id.lower()`; an id that is not a string raises AttributeError exactly then |
| Hierarchy.StructureCompareLaws | kmbio/PDB/Structure.py:20-36 | exactly one of `<`, `==`, `>` holds; `<=` is `<` or `==`; `!=` negates `==`; `>=`/`>` are `<=`/`<` swapped |
| Hierarchy.StructureCompareCaseless | kmbio/PDB/core/structure.py:28-29 | two Structures are equal exactly when their ids agree after lower-casing, and case never changes a comparison |
| Hierarchy.IdLt | Bio/PDB/Model.py:34-35 | `<` on ids of one kind (numbers, strings, residue tuples); TypeError exactly across kinds |
| Hierarchy.ModelCompare | Bio/PDB/Model.py:34-50 | `==`/`!=` compare ids and never fail; orderings raise TypeError exactly across kinds |
| Hierarchy.ModelCompareTotal | Bio/PDB/Model.py:34-50 | between ids of one kind exactly one of `<`, `==`, `>` holds and `<=` is `<` or `==` |
| Hierarchy.ModelLtTransitive | Bio/PDB/Model.py:34-35 | `<` on Models is transitive |
| Mmcif.Select | kmbio/PDB/parsers/bioassembly.py:101 | the entries whose key starts with the category name and a dot, in order, and no others |
| Mmcif.ToMap | kmbio/PDB/parsers/bioassembly.py:101 | the dictionary holds exactly the keys of the entries |
| Mmcif.RowAt | kmbio/PDB/parsers/bioassembly.py:108-109 | row `j` has every column and holds item `j` of each |
| Mmcif.KeyRows | kmbio/PDB/parsers/bioassembly.py:84-113 | no matching key gives no rows; AssertionError exactly when the first value is a list and some selected value has another length; a scalar first value gives the one row of all selected entries |
| Mmcif.ToMapValue | kmbio/PDB/parsers/bioassembly.py:101 | every value of the dictionary is the value of one of its entries |
| Mmcif.KeyRowsColumns | kmbio/PDB/parsers/bioassembly.py:104-110 | for a loop category there is one row per item and each column reads back item by item from the rows |
| Mmcif.KeyRowsPrefix | kmbio/PDB/parsers/bioassembly.py:101-113 | every column of every row carries the category prefix |
| Mmcif.KeysDistinct | kmbio/PDB/parsers/bioassembly.py:64-72 | the operator keys `matrix[k][i]` and `vector[k]` are pairwise different |
| Mmcif.AllKeysDistinct | kmbio/PDB/parsers/bioassembly.py:129-155 | the twelve operator keys are pairwise different |
| Mmcif.GetRotation | kmbio/PDB/parsers/bioassembly.py:116-140 | KeyError exactly when a matrix element is missing; otherwise a 3×3 matrix whose entry `[r][c]` is `matrix[c+1][r+1]` |
| Mmcif.GetTranslation | kmbio/PDB/parsers/bioassembly.py:143-156 | KeyError exactly when a vector element is missing; otherwise `vector[1..3]` in order |
| Mmcif.Transpose | kmbio/PDB/parsers/bioassembly.py:128-140 | the transpose of a 3×3 matrix is 3×3 |
| Mmcif.RotationIsTranspose | kmbio/PDB/parsers/bioassembly.py:128-140 | `get_rotation` is the transpose of the operator as written in the file, and transposing it again gives that operator |
| Mmcif.Cell | kmbio/PDB/parsers/bioassembly.py:168-171 | a cell read as text: KeyError for a missing column, TypeError for a list |
| Mmcif.FindRow | kmbio/PDB/parsers/bioassembly.py:163-164 | the first row from `i` on whose cell is the key, or none exactly when no row has it |
| Mmcif.LocRow | kmbio/PDB/parsers/bioassembly.py:161-166 | `.set_index(col).loc[key]` finds a row exactly when the frame has the column and some row has the key; otherwise KeyError |
| Mmcif.Dedup | kmbio/PDB/parsers/bioassembly.py:178 | `drop_duplicates` keeps exactly the distinct pairs, each once |
| Mmcif.ChainIdPairs | kmbio/PDB/parsers/bioassembly.py:175-178 | one (label, auth) pair per atom row, read from its two columns; KeyError or TypeError otherwise |
| Mmcif.PairMap | kmbio/PDB/parsers/bioassembly.py:179 | `dict(pairs)` has exactly the labels as keys |
| Mmcif.SetSize | kmbio/PDB/parsers/bioassembly.py:180 | a list has as many different elements as entries exactly when none repeats |
| Mmcif.Labels | kmbio/PDB/parsers/bioassembly.py:179 | the labels of the pairs, in order |
| Mmcif.PairMapSize | kmbio/PDB/parsers/bioassembly.py:180 | the map is as large as the pair list exactly when no label repeats |
| Mmcif.MapAll | kmbio/PDB/parsers/bioassembly.py:182 | `{m[c] for c in ids}`: KeyError exactly when an id is not mapped; otherwise exactly the images, each once |
| Mmcif.ChainAndTransformationIds | kmbio/PDB/parsers/bioassembly.py:159-183 | BioassemblyNotFoundError exactly when the assembly has no row; the operator list is never empty |
| Mmcif.AuthIds | kmbio/PDB/parsers/bioassembly.py:174-182 | sorted auth ids without repeats; never BioassemblyNotFoundError |
| Mmcif.PairMapLookup | kmbio/PDB/parsers/bioassembly.py:179 | with unique labels the map sends each label to the auth id of its pair |
| Mmcif.UniqueSize | kmbio/PDB/parsers/bioassembly.py:178-181 | the size check passes exactly when no label id has two different auth ids |
| Mmcif.AuthIdsAmbiguous | kmbio/PDB/parsers/bioassembly.py:180-181 | the plain Exception is raised exactly when a label id has two auth ids |
| Mmcif.AuthIdsMembers | kmbio/PDB/parsers/bioassembly.py:182 | the auth ids found are exactly those paired, in some atom row, with a listed label id |
| Mmcif.AuthChainIds | kmbio/PDB/parsers/bioassembly.py:173-183 | with `ignore_auth_id=False` the operator ids are unchanged and the chain ids are the sorted, repeat-free auth ids exactly paired in some atom row with a listed label id; a failure without auth ids is the same failure with them |
| Mmcif.ChainIdsJoin | kmbio/PDB/parsers/bioassembly.py:167-172 | the chain and operator ids joined back with commas are the two fields of the assembly's row |
| Mmcif.OperatorRows | kmbio/PDB/parsers/bioassembly.py:187-190 | one operator row per id, in the order of the ids, each carrying that id; KeyError otherwise |
| Mmcif.TransformationsOf | kmbio/PDB/parsers/bioassembly.py:191-197 | one (rotation, translation) per row, in order; KeyError exactly when a row is incomplete |
| Mmcif.GetTransformations | kmbio/PDB/parsers/bioassembly.py:186-198 | one transformation per requested id |
| Mmcif.TransformationOrder | kmbio/PDB/parsers/bioassembly.py:186-198 | transformation `j` is read from the operator row whose id is `ids[j]` |
| Remark350.RunEnd | kmbio/PDB/parsers/bioassembly.py:12-15 | a greedy `+` run of a character class ends at the first character outside the class |
| Remark350.Groups | kmbio/PDB/parsers/bioassembly.py:14-15 | the groups of a match: each a non-empty run of its class, as many as the pattern has |
| Remark350.FirstMatch | kmbio/PDB/parsers/bioassembly.py:28-36 | the leftmost position from `i` on where the pattern matches, none exactly when it matches nowhere |
| Remark350.FindFirst | kmbio/PDB/parsers/bioassembly.py:28-36 | `findall(s)[0]`: the groups of the leftmost match, present exactly when the pattern matches somewhere |
| Remark350.Classify | kmbio/PDB/parsers/bioassembly.py:25-39 | AssertionError exactly for a line not starting with "REMARK 350 "; otherwise the first of the BIOMOLECULE, CHAINS and BIOMT patterns that matches decides, with the fields the pattern allows |
| Remark350.MatrixRow | kmbio/PDB/parsers/bioassembly.py:56 | the BIOMT matrix row is 1, 2 or 3 exactly for the ids "1", "2", "3" |
| Remark350.Written | kmbio/PDB/parsers/bioassembly.py:69-72 | a BIOMT line of matrix row `k` adds exactly its three matrix keys and its vector key |
| Remark350.WrittenAt | kmbio/PDB/parsers/bioassembly.py:69-72 | it writes its own cells there and leaves the other matrix rows alone |
| Remark350.Parser.constructor | kmbio/PDB/parsers/bioassembly.py:17-22 | a new parser has no biomolecule, chains or BIOMT rows and no data |
| Remark350.Parser.ProcessBiomolecule | kmbio/PDB/parsers/bioassembly.py:42-48 | the first BIOMOLECULE needs no chains, rows or data, a later one needs chains and rows; AssertionError otherwise; only the biomolecule changes |
| Remark350.Parser.ProcessChains | kmbio/PDB/parsers/bioassembly.py:50-52 | chains may be given once (AssertionError otherwise) and are stored without spaces |
| Remark350.Parser.ProcessBiomt | kmbio/PDB/parsers/bioassembly.py:54-72 | as written: a bad row id fails the assertion; row 1 raises AttributeError while `_biomt` is None; rows 2 and 3 end in AssertionError or TypeError |
| Remark350.Parser.Flush | kmbio/PDB/parsers/bioassembly.py:74-81 | as written: AssertionError for a biomolecule already recorded, TypeError while `_biomt` is None; otherwise records the chains and rows and resets them |
| Remark350.Parser.ProcessLines | kmbio/PDB/parsers/bioassembly.py:24-40 | as written, every run ends in an exception and nothing is recorded |
| Remark350.ContinuationAlwaysFails | kmbio/PDB/parsers/bioassembly.py:63-66 | the as-written check of rows 2 and 3 never passes, since the vector group holds only digits and dots |
| Remark350.NoKeyInNumber | kmbio/PDB/parsers/bioassembly.py:63-66 | a key starting with `_` is never a substring of digits and dots |
| Remark350.FlushFixed | kmbio/PDB/parsers/bioassembly.py:74-81 | the intended flush records the assembly under `str(biomolecule)` with one transformation per row, unless already recorded or a row is incomplete |
| Remark350.RunTextLines | kmbio/PDB/parsers/bioassembly.py:24-40 | reading the text line by line is running the lines it reads as |
| Remark350.OperatorRowTransformation | kmbio/PDB/parsers/bioassembly.py:69-78 | the row built from an operator's three BIOMT lines yields its transposed matrix and its vector |
| Remark350.OperatorRowCells | kmbio/PDB/parsers/bioassembly.py:69-72 | that row holds each matrix element and vector entry under its own key |
| Remark350.OperatorSteps | kmbio/PDB/parsers/bioassembly.py:54-72 | as intended, the three BIOMT lines of an operator append exactly its row |
| Remark350.OperatorsRun | kmbio/PDB/parsers/bioassembly.py:54-72 | the BIOMT lines of all operators append their rows, in order |
| Remark350.RowsTransformations | kmbio/PDB/parsers/bioassembly.py:78 | the rows of the operators yield, in order, what each operator says |
| Remark350.RecordedKeys | kmbio/PDB/parsers/bioassembly.py:74-79 | the recorded keys are exactly the biomolecule ids |
| Remark350.FlushOpen | kmbio/PDB/parsers/bioassembly.py:74-81 | the final flush records the open assembly beside the earlier ones |
| Remark350.AssemblyRun | kmbio/PDB/parsers/bioassembly.py:42-52 | as intended, the lines of one assembly flush the previous one and leave this one open |
| Remark350.AssembliesRun | kmbio/PDB/parsers/bioassembly.py:24-39 | reading the assemblies one after the other records all but the last and leaves the last open |
| Remark350.ProcessIntended | kmbio/PDB/parsers/bioassembly.py:24-81 | text reading as well-formed assemblies with distinct ids yields exactly one entry per assembly: its chains without spaces and one transformation per operator in file order |
| Bioassembly.ChainKeys | kmbio/PDB/parsers/bioassembly.py:206-207 | each chain id becomes the entity id of that name, in order |
| Bioassembly.AttachReady | kmbio/PDB/parsers/bioassembly.py:204-205 | the new `Model(i)` passes `add`'s checks on the bioassembly |
| Bioassembly.BuildStep | kmbio/PDB/parsers/bioassembly.py:203-209 | one round of the loop appends model `i` with the extracted chains and keeps the models built so far |
| Bioassembly.BuildShape | kmbio/PDB/parsers/bioassembly.py:201-210 | once every model is built the bioassembly has the assembled shape |
| Bioassembly.TransformStructure | kmbio/PDB/parsers/bioassembly.py:201-210 | a new detached Structure with the structure's id and, per transformation `i`, a `Model(i)` holding copies of the chains of model 0 named by `sorted(chain_ids)`; KeyError or "defined twice" exactly as the lookups and `add` give; nothing that existed changes |
| Bioassembly.AddModel | kmbio/PDB/parsers/bioassembly.py:204-208 | one round: `Model(i)`, the chains copied into it, the model added; the copying's check decides the outcome |
| Bioassembly.BuildModels | kmbio/PDB/parsers/bioassembly.py:203-209 | the loop over the transformations: on success one model per transformation under the new structure, model `j` with id `j` and the extracted chains; otherwise the outcome of the first failed chain lookup; nothing that existed changes |
| Bioassembly.ExtractCheckFirst | kmbio/PDB/parsers/bioassembly.py:206-208 | the loop's failure is the failure of copying the chains out of model 0 |
| Bioassembly.GenerateBioassembly | kmbio/PDB/parsers/bioassembly.py:213-221 | assembly 0 is the structure itself, unchanged; otherwise the first error of the id lookup or the operator lookup, or the transformed structure |
| Bioassembly.AssembledModels | kmbio/PDB/parsers/bioassembly.py:201-210 | an assembly has one model per operator, model `i` with id `i`, and every model holds the same chains |
| Routes.Serves | kmbio/PDB/io/routes.py:6-35 | every route serves PDB and mmCIF files (RCSB also MMTF) |
| Routes.Slice | kmbio/PDB/io/routes.py:27 | `s[lo:hi]` clamps its bounds to the string |
| Routes.RcsbUrl | kmbio/PDB/io/routes.py:5-12 | an address exactly for "pdb", "cif" and "mmtf"; TypeError otherwise |
| Routes.EbiUrl | kmbio/PDB/io/routes.py:15-23 | an address exactly for "pdb" and "cif"; TypeError otherwise |
| Routes.WwpdbUrl | kmbio/PDB/io/routes.py:26-37 | an address exactly for "pdb" and "cif", in the directory named by id characters 2-3; TypeError otherwise |
| Routes.Url | kmbio/PDB/io/routes.py:40-42 | the route `DEFAULT_ROUTES` names, with the same success and failure |
| Loaders.Basename | kmbio/PDB/io/loaders.py:72 | `op.basename`: the part after the last `/`, holding no `/` |
| Loaders.BasenameAfter | kmbio/PDB/io/loaders.py:72 | the base name of `a/b` is `b` when `b` has no `/` |
| Loaders.CutAt | kmbio/PDB/io/loaders.py:74 | `s.partition(p)[0]`: the prefix before the first occurrence of `p`, or all of `s` |
| Loaders.CutAtSkip | kmbio/PDB/io/loaders.py:74 | a prefix without the first character of `p` is kept whole |
| Loaders.CutAll | kmbio/PDB/io/loaders.py:73-74 | cutting at each extension in turn leaves a prefix of the name |
| Loaders.CutAllStep | kmbio/PDB/io/loaders.py:73-74 | each turn of the loop cuts at the next extension |
| Loaders.CutAllSkip | kmbio/PDB/io/loaders.py:73-74 | a prefix without a dot passes through all the cuts |
| Loaders.ShortStem | kmbio/PDB/io/loaders.py:75-77 | a seven-character stem starting with "ent" or "pdb" loses those three characters, leaving four; any other stem is kept |
| Loaders.PdbIdOf | kmbio/PDB/io/loaders.py:60-80 | the guessed id holds no dot, no `/` and no upper-case letter |
| Loaders.GuessPdbId | kmbio/PDB/io/loaders.py:60-80 | the loop computes exactly `PdbIdOf(path)` |
| Loaders.StemFree | kmbio/PDB/io/loaders.py:72-77 | the stem of a base name holds no `/` |
| Loaders.LowerFree | kmbio/PDB/io/loaders.py:78 | lower-casing leaves no upper-case letter and adds no `/` |
| Loaders.NameId | kmbio/PDB/io/loaders.py:60-80 | the id of `dir/[pdb]id[.pdb|.cif|.ent][.gz]` is `id`, for every four-character lower-case id without separators |
| Loaders.NameStem | kmbio/PDB/io/loaders.py:72-77 | the cuts and the short stem of such a name leave exactly the id |
| Loaders.PdbStem | kmbio/PDB/io/loaders.py:75-76 | `pdb` + a four-character id shortens to the id |
| Loaders.CutAllExtensions | kmbio/PDB/io/loaders.py:73 | the extensions are ".gz", ".pdb", ".ent", ".cif", in that order |
| Loaders.CutAllSuffix | kmbio/PDB/io/loaders.py:73-74 | a suffix `.pdb`, `.cif` or `.ent`, optionally followed by `.gz`, is cut away entirely |
| Loaders.Chunks | kmbio/PDB/io/loaders.py:92 | `re.split('/|\.|:')` gives at least one chunk, none holding a separator |
| Loaders.ChunksFree | kmbio/PDB/io/loaders.py:92 | a string without separators is one chunk |
| Loaders.ChunksSplit | kmbio/PDB/io/loaders.py:92 | the chunks of `a` + separator + `b` are `a` then the chunks of `b` |
| Loaders.ChunksLast | kmbio/PDB/io/loaders.py:92 | the chunks of `a` + separator + `b` are the chunks of `a` then `b` |
| Loaders.SkipDigits | kmbio/PDB/io/loaders.py:93 | the run of digits from `i` ends at the first non-digit |
| Loaders.TrimDigits | kmbio/PDB/io/loaders.py:93 | the run of digits ending at `j` starts after the last non-digit |
| Loaders.StripDigits | kmbio/PDB/io/loaders.py:93 | `strip(string.digits)`: the result neither starts nor ends with a digit |
| Loaders.StripDigitsSlice | kmbio/PDB/io/loaders.py:93 | the stripped chunk is a slice of the chunk with only digits cut from both ends |
| Loaders.KindOf | kmbio/PDB/io/loaders.py:94-99 | a word names "pdb", "cif" or "mmtf" |
| Loaders.ChunkKind | kmbio/PDB/io/loaders.py:93-99 | a chunk, lower-cased and stripped of digits, names one of the three types or none |
| Loaders.Kinds | kmbio/PDB/io/loaders.py:92-99 | the type each chunk names, in order |
| Loaders.FirstSome | kmbio/PDB/io/loaders.py:92-100 | the first chunk that names a type decides; the plain Exception exactly when none does |
| Loaders.GuessPdbType | kmbio/PDB/io/loaders.py:83-100 | the loop returns exactly `TypeFromStart(path)` |
| Loaders.LastSome | kmbio/PDB/io/loaders.py:92-100 | the last chunk that names a type decides; Unrecognized exactly when none does |
| Loaders.TypeFromStart | kmbio/PDB/io/loaders.py:83-100 | `guess_pdb_type` as written answers "pdb", "cif" or "mmtf" |
| Loaders.TypeFromEnd | kmbio/PDB/io/loaders.py:83-100 | the corrected guess, reading the chunks from the end, answers "pdb", "cif" or "mmtf" |
| Loaders.FirstSkip | kmbio/PDB/io/loaders.py:92-99 | a leading chunk naming no type is passed over |
| Loaders.FirstWord | kmbio/PDB/io/loaders.py:94-99 | a leading chunk naming a type decides |
| Loaders.LastSkip | kmbio/PDB/io/loaders.py:92-99 | read from the end, a trailing chunk naming no type is passed over |
| Loaders.LastWord | kmbio/PDB/io/loaders.py:94-99 | read from the end, a trailing chunk naming a type decides |
| Loaders.EndSkip | kmbio/PDB/io/loaders.py:92-99 | the same, for a trailing chunk given by its position |
| Loaders.EndWord | kmbio/PDB/io/loaders.py:94-99 | the same, for a trailing chunk given by its position |
| Loaders.EndsWithType | kmbio/PDB/io/loaders.py:87-90 | a name ending in `.pdb`, `.cif` or `.ent` is read as that type |
| Loaders.EndsWithTypeGz | kmbio/PDB/io/loaders.py:89-90 | a name ending in `.pdb.gz`, `.cif.gz` or `.ent.gz` is read as that type |
| Loaders.RouteId | kmbio/PDB/io/loaders.py:60-80 | the id guessed from every address a route builds is the id it was built for |
| Loaders.RouteType | kmbio/PDB/io/loaders.py:83-100 | the corrected guess reads every route address as the type it was built for |
| Loaders.MmtfType | kmbio/PDB/io/loaders.py:92-99 | the RCSB MMTF address is read as "mmtf" |
| Loaders.WwpdbLayout | kmbio/PDB/io/loaders.py:92 | how the wwPDB mmCIF address splits into chunks |
| Loaders.WwpdbCifReadAsPdb | kmbio/PDB/io/loaders.py:92-99 | `guess_pdb_type` as written reads the wwPDB mmCIF address as "pdb", since the "pdb" directory comes first |
| PyStrings.StrLtIrreflexive | kmbio/PDB/core/structure.py:22-23 | no string is less than itself under Python's code-point order |
| PyStrings.StrLtTransitive | kmbio/PDB/core/structure.py:22-23 | Python's string order is transitive |
| PyStrings.StrLtTotal | kmbio/PDB/core/structure.py:22-38 | of two strings exactly one is less, or they are equal |
| PyStrings.Lower | kmbio/PDB/core/structure.py:23 | `str.lower` maps each character on its own (ASCII letters only) |
| PyStrings.LowerIdempotent | kmbio/PDB/core/structure.py:23 | lower-casing twice is lower-casing once |
| PyStrings.InsertSorted | kmbio/PDB/core/entity.py:356 | inserting a new key into a sorted list keeps it sorted and adds exactly that key |
| PyStrings.SortedUnique | kmbio/PDB/core/entity.py:356 | two sorted lists of the same distinct strings are equal |
| PyStrings.Strip | kmbio/PDB/parsers/bioassembly.py:27 | `str.strip()` cuts only whitespace, and from both ends |
| PyStrings.RemoveChar | kmbio/PDB/parsers/bioassembly.py:52 | `replace(c, '')` removes every `c` and nothing else |
| PyStrings.Split | kmbio/PDB/parsers/bioassembly.py:169 | `split(',')` gives at least one part, none holding a comma |
| PyStrings.SplitJoin | kmbio/PDB/parsers/bioassembly.py:167-172 | joining the parts of a split with the same character gives back the string |
| PyStrings.JoinSplit | kmbio/PDB/parsers/bioassembly.py:167-172 | splitting a join of comma-free parts gives back the parts |
| PyStrings.IntToString | kmbio/PDB/parsers/bioassembly.py:164 | `str(n)`: digits without a leading zero, a minus sign for negatives |
| PyStrings.IntToStringValue | kmbio/PDB/parsers/bioassembly.py:164 | the digits of `str(n)` read back as `n` |
| PyStrings.InsertLe | kmbio/PDB/parsers/bioassembly.py:206 | inserting into a sorted list keeps it sorted and a permutation plus the new element |
| PyStrings.SortAll | kmbio/PDB/parsers/bioassembly.py:206 | `sorted(chain_ids)` is sorted and a permutation of its input |
| Utils.AllEqual | kmbio/PDB/utils.py:4-13 | entities of different classes raise; atoms compare with their own equality; containers of different sizes are unequal |
| Utils.AllPairs | kmbio/PDB/utils.py:11-13 | the first pair of children that raises or is unequal decides, and never anything but the class-mismatch error |
| Utils.AllEqualAlike | kmbio/PDB/utils.py:4-13 | `allequal` is true exactly for trees with the same classes all the way down, containers of equal sizes and equal atoms |
| Utils.AllEqualNoRaise | kmbio/PDB/utils.py:5-6 | trees with the same classes wherever a comparison reaches never raise |
| Utils.AllEqualReflexive | kmbio/PDB/utils.py:4-13 | with a reflexive atom equality every tree is `allequal` to itself |
| Utils.AllEqualSymmetric | kmbio/PDB/utils.py:4-13 | with a symmetric atom equality the argument order does not matter, raising included |

## Left out

- Entities.Tree.Add and Entities.Tree.Insert require the incoming entities to be parentless and not ancestors of the target. Python does not check this. Violating it would break the parent back-links (an entity listed by two parents) or create a cycle, which the arena invariant rules out.
- Entities.Tree.Insert models the `entities` argument as a list or `None`. A single entity, which Python wraps in a list, is the one-element list. A generator is its `list(...)`.
- Entities.Tree.SetItem, Add and Insert do not model the `logger.info` call for `add(None)`.
- Atoms are ordinary entities of the arena at the lowest level. Their own class (coordinates, element, `Atom.__eq__`) is not part of this model. Utils takes atom equality as a parameter (`Utils.AtomEq`).
- `Entity.transform` and `Atom.transform` (kmbio/PDB/core/entity.py:233-249) are left out: floating-point coordinate arithmetic on atoms this model does not hold. For the same reason, Bioassembly.TransformStructure does not apply `model.transform(rotation, translation)`. Only the entity tree of the assembly is built.
- `float()` is not modelled: Mmcif.GetRotation and Mmcif.GetTranslation return the cell values as they are, in the positions the code reads them.
- The `get_rotation` doctest (kmbio/PDB/parsers/bioassembly.py:121-126) shows the operator untransposed. The code returns the transpose, and the model follows the code.
- pandas is not modelled: `pd.DataFrame`, `.set_index`, `.loc`, `.apply`, `.values.tolist()` and `drop_duplicates`. The model keeps the row semantics: a data frame is a list of rows (maps from column name to cell), and `.loc[key]` is the first row with that key (Mmcif.LocRow). So the model does not cover duplicate assembly ids, which pandas would return as several rows. A cell holding a list where text is expected is a TypeError (Mmcif.Cell).
- Entities.Tree.IndexGet: slice bounds and steps are integers or `None`. A bound of another type, which Python rejects with TypeError, is not modelled.
- Mmcif.KeyRows: an empty selection gives no rows. Lookups then fail on the missing column with KeyError, as `set_index` on an empty frame does.
- Mmcif.ChainAndTransformationIds: the plain `Exception` raised on an ambiguous label-to-auth mapping is `Unrecognized` in the model.
- Remark350.Parser.Flush keeps, as written, the rows the unrun generator would read (`Stored.pendingRows`), not the generator object itself.
- Regular expressions are modelled only for the three patterns of `ProcessRemark350`, by character classes and greedy runs (Remark350.FindFirst). `\s` is ASCII whitespace (space, tab, line feed, carriage return, vertical tab, form feed and the separators 0x1C to 0x1F), and `str.strip` and `str.lower` act on ASCII only. Non-ASCII whitespace and case folding are not modelled.
- `DisorderedEntityWrapper.__getattr__` (kmbio/PDB/core/entity.py:279-285) forwards arbitrary attributes by reflection and is not modelled. Nor are `__sub__` (atom distance, floats) and `disordered_add`, which only raises NotImplementedError.
- The first `parent` setter of the wrapper (kmbio/PDB/core/entity.py:321-329) is replaced by the second definition in the class body and never runs. Only the live setter is modelled.
- Disordered.Wrapper.SetParent gives the variants the parent without entering them into the parent's child list, as the source does. It therefore does not claim the arena invariant for the variants.
- Utils.AllEqual takes the class of an entity to be its level. Disordered wrappers, whose Python class differs from their variants', are not among the modelled arguments.
- `Structure.select`, `to_dataframe` and `from_dataframe` (kmbio/PDB/core/structure.py:66-92) only raise NotImplementedError. They have no state or result to model.
- Bio/PDB/Model.py derives from Biopython's `Entity`, which is not part of this model. Its `for c in self` iterates children there (the kmbio `Entity` iterates ids). The traversals below a Model are modelled on the child lists (Hierarchy.GenerationSplit). Model's `**kwargs` are not modelled.
- Hierarchy.ExtractModels and Hierarchy.ExtractChains state their result as a shape (ids, levels, serial numbers, `xtra`, children in order). The handles of the copies are fresh and otherwise unconstrained.
- `load`, `_get_parser` and the viewer (kmbio/PDB/io/loaders.py:16-57,103-123) are left out. They do file and network I/O and `inspect`-based routing. How `load` picks a route by prefix is not modelled; Routes.DefaultRoutes records the table it uses.
- `warnings.warn` in `generate_bioassembly` is left out (I/O).
- Loaders.RouteType requires that the id itself names no file type (for example not "1cif"). Otherwise the id chunk decides, as it would in Python too.
- Loaders.RouteId and Loaders.RouteType require a four-character lower-case id without `/`, `.` or `:`, the form PDB ids take.
- The MMCIF tokenizer, the PDB/mmCIF/MMTF structure builders and `Atom` are not part of this model; their source is not among the files modelled.

## Findings

| source | as written | input that shows it | evidently intended | confidence | as-written member | corrected member |
|---|---|---|---|---|---|---|
| kmbio/PDB/parsers/bioassembly.py:20 | `_biomt` starts as None and is never made a list, so row 1 of a BIOMT record fails on `append`, and `_flush` fails on iterating None | any REMARK 350 block, for example a single line "REMARK 350 BIOMOLECULE: 1" (the flush fails) | `_biomt` is a list that collects one row per operator | not executed | Remark350.Parser.ProcessLines | Remark350.ProcessIntended |
| kmbio/PDB/parsers/bioassembly.py:61-68 | rows 2 and 3 take `biomt[-1]`, the vector string of the current line, instead of the last stored row. The check tests columns 1-2 only, as substrings of that string. The second `all` tests non-empty strings and always passes | "REMARK 350   BIOMT2   1  0.0 1.0 0.0 0.0" as the first BIOMT line of a block (AssertionError, since the vector never contains a key; after a BIOMT1 line the append at line 59 would fail first) | extend the last stored row after checking all three columns and the vector of each earlier matrix row | not executed | Remark350.ContinuationAlwaysFails | Remark350.OperatorSteps |
| kmbio/PDB/parsers/bioassembly.py:46-48 | a second BIOMOLECULE line replaces the biomolecule without flushing the first. Once `_biomt` is a list (the line-20 row), the first assembly's chains and rows are then lost and the next CHAINS line fails the assertion at line 51. As written, the BIOMT lines fail at line 59 before this point, and without BIOMT lines the assertion at line 47 fails | with `_biomt` starting as a list: two assemblies, each with BIOMOLECULE, CHAINS and BIOMT lines | flush the previous assembly before starting the next | not executed | Remark350.Parser.ProcessBiomolecule | Remark350.AssemblyRun |
| kmbio/PDB/parsers/bioassembly.py:78 | the transformations stored are a one-item list holding a generator | any flush | a list of (rotation, translation) pairs, one per row | not executed | Remark350.Parser.Flush | Remark350.FlushFixed |
| kmbio/PDB/io/loaders.py:92-99 | the first chunk naming a type wins, so the "pdb" directory of a wwPDB mmCIF address decides | `ftp://ftp.wwpdb.org/pub/pdb/data/structures/divided/mmCIF/dk/4dkl.cif.gz` gives "pdb" (tests/test_pdb_io.py:31-35 expects "cif") | the file name, the last chunk naming a type, decides | not executed | Loaders.WwpdbCifReadAsPdb | Loaders.RouteType |
