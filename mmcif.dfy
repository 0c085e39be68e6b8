/** The mmCIF side of kmbio/PDB/parsers/bioassembly.py: turning the columns
    of one category of the mmCIF dictionary into rows, reading a rotation
    and a translation out of an operator row, and finding the chains and
    operators of a biological assembly. Numbers stay text: `float()` is not
    modelled. */
module Mmcif {
  import opened Wrappers
  import opened EntityModel
  import opened PyStrings
  import opened Disordered

  /** A value of the mmCIF dictionary: one string, or a list of strings (a
      loop column). */
  datatype Value = Scalar(s: string) | Column(items: seq<string>)

  /** The mmCIF dictionary as (key, value) entries in insertion order. */
  type Dict = seq<(string, Value)>

  /** One row of a data frame: column name to cell. */
  type Row = map<string, Value>

  /** `{k: v for k, v in sdict.items() if k.startswith(key + '.')}`, in order. */
  function Select(d: Dict, key: string): (r: Dict)
    ensures |r| <= |d|
    ensures forall e :: e in r <==> e in d && StartsWith(e.0, key + ".")
  {
    if d == [] then []
    else
      var rest := Select(d[1..], key);
      assert forall e :: e in d <==> e == d[0] || e in d[1..] by {
        assert d == [d[0]] + d[1..];
      }
      if StartsWith(d[0].0, key + ".") then [d[0]] + rest else rest
  }

  /** The entries as a dictionary; a later entry wins, as in `dict(...)`. */
  function ToMap(d: Dict): (m: Row)
    ensures forall k :: k in m <==> exists i :: 0 <= i < |d| && d[i].0 == k
  {
    if d == [] then map[]
    else
      var m := ToMap(d[..|d| - 1])[d[|d| - 1].0 := d[|d| - 1].1];
      assert forall i :: 0 <= i < |d| - 1 ==> d[..|d| - 1][i] == d[i];
      m
  }

  /** Python's `len(v)`: the number of items of a list, or of characters of a string. */
  function Len(v: Value): nat {
    match v
    case Scalar(s) => |s|
    case Column(items) => |items|
  }

  /** The `j`-th item `zip` takes from `v`: a list item, or one character
      of a string. */
  function Elem(v: Value, j: nat): Value
    requires j < Len(v)
  {
    match v
    case Scalar(s) => Scalar([s[j]])
    case Column(items) => Scalar(items[j])
  }

  /** Row `j` of the zipped columns. */
  function RowAt(m: Row, j: nat): (row: Row)
    requires forall k :: k in m ==> j < Len(m[k])
    ensures row.Keys == m.Keys
    ensures forall k :: k in m ==> row[k] == Elem(m[k], j)
  {
    map k | k in m :: Elem(m[k], j)
  }

  /** The rows `mmcif_key_to_dataframe(sdict, key)` builds its data frame
      from. No matching key gives no rows. When the first matching value is
      a list, every value must have its length (else AssertionError) and row
      `j` holds item `j` of every column; otherwise the matching entries
      form a single row. */
  function KeyRows(d: Dict, key: string): (r: Result<seq<Row>>)
    ensures Select(d, key) == [] ==> r == Ok([])
    ensures r.Err? ==> r.error == AssertionFailed
    ensures var sel := Select(d, key);
      r.Err? <==> sel != [] && sel[0].1.Column? && exists i :: 0 <= i < |sel| && Len(sel[i].1) != |sel[0].1.items|
    ensures var sel := Select(d, key);
      sel != [] && sel[0].1.Scalar? ==> r == Ok([ToMap(sel)])
  {
    var sel := Select(d, key);
    if sel == [] then Ok([])
    else
      var m := ToMap(sel);
      match sel[0].1
      case Column(items) =>
        if exists i :: 0 <= i < |sel| && Len(sel[i].1) != |items| then Err(AssertionFailed)
        else
          assert forall k :: k in m ==> Len(m[k]) == |items| by {
            forall k | k in m ensures Len(m[k]) == |items| {
              ToMapValue(sel, k);
            }
          }
          Ok(seq(|items|, j requires 0 <= j < |items| => RowAt(m, j)))
      case Scalar(_) => Ok([m])
  }

  /** Every value of the dictionary is the value of one of its entries. */
  lemma {:induction false} ToMapValue(d: Dict, k: string)
    requires k in ToMap(d)
    ensures exists i :: 0 <= i < |d| && d[i] == (k, ToMap(d)[k])
  {
    if d[|d| - 1].0 != k {
      ToMapValue(d[..|d| - 1], k);
      var i :| 0 <= i < |d| - 1 && d[..|d| - 1][i] == (k, ToMap(d[..|d| - 1])[k]);
      assert d[i] == (k, ToMap(d)[k]);
    }
  }

  /** The rows agree with the columns: for a loop category every column is
      read back item by item from the rows, and each row has exactly the
      selected keys. */
  lemma KeyRowsColumns(d: Dict, key: string, k: string)
    requires KeyRows(d, key).Ok? && Select(d, key) != [] && Select(d, key)[0].1.Column?
    requires k in ToMap(Select(d, key))
    ensures var rows, m := KeyRows(d, key).value, ToMap(Select(d, key));
      && |rows| == |Select(d, key)[0].1.items|
      && forall j :: 0 <= j < |rows| ==>
           rows[j].Keys == m.Keys && j < Len(m[k]) && rows[j][k] == Elem(m[k], j)
  {
    var sel := Select(d, key);
    ToMapValue(sel, k);
  }

  /** Every column of every row carries the category prefix. */
  lemma KeyRowsPrefix(d: Dict, key: string)
    requires KeyRows(d, key).Ok?
    ensures forall row, k :: row in KeyRows(d, key).value && k in row ==> StartsWith(k, key + ".")
  {
    var sel := Select(d, key);
    forall row, k | row in KeyRows(d, key).value && k in row ensures StartsWith(k, key + ".") {
      var i :| 0 <= i < |sel| && sel[i].0 == k;
      assert sel[i] in sel;
    }
  }

  // ---------------------------------------------------------------------
  // Operator rows

  /** '1', '2' or '3'. */
  function Digit(k: nat): (c: char)
    requires 1 <= k <= 3
  {
    ('0' as int + k) as char
  }

  /** `'_pdbx_struct_oper_list.matrix[{k}][{i}]'` */
  function MatrixKey(k: nat, i: nat): string
    requires 1 <= k <= 3 && 1 <= i <= 3
  {
    "_pdbx_struct_oper_list.matrix[" + [Digit(k)] + "][" + [Digit(i)] + "]"
  }

  /** `'_pdbx_struct_oper_list.vector[{k}]'` */
  function VectorKey(k: nat): string
    requires 1 <= k <= 3
  {
    "_pdbx_struct_oper_list.vector[" + [Digit(k)] + "]"
  }

  /** The twelve operator keys are pairwise different. */
  lemma KeysDistinct(k: nat, i: nat, k2: nat, i2: nat)
    requires 1 <= k <= 3 && 1 <= i <= 3 && 1 <= k2 <= 3 && 1 <= i2 <= 3
    ensures MatrixKey(k, i) == MatrixKey(k2, i2) ==> k == k2 && i == i2
    ensures VectorKey(k) == VectorKey(k2) ==> k == k2
    ensures MatrixKey(k, i) != VectorKey(k2)
  {
    assert |MatrixKey(k, i)| == 35 && |VectorKey(k2)| == 32;
    assert MatrixKey(k, i)[30] == Digit(k) && MatrixKey(k, i)[33] == Digit(i);
    assert MatrixKey(k2, i2)[30] == Digit(k2) && MatrixKey(k2, i2)[33] == Digit(i2);
    assert VectorKey(k)[30] == Digit(k) && VectorKey(k2)[30] == Digit(k2);
  }

  /** The same, for all twelve keys at once. */
  lemma AllKeysDistinct()
    ensures forall k, i, k2, i2 :: 1 <= k <= 3 && 1 <= i <= 3 && 1 <= k2 <= 3 && 1 <= i2 <= 3 ==>
      (MatrixKey(k, i) == MatrixKey(k2, i2) ==> k == k2 && i == i2) && MatrixKey(k, i) != VectorKey(k2)
    ensures forall k, k2 :: 1 <= k <= 3 && 1 <= k2 <= 3 && VectorKey(k) == VectorKey(k2) ==> k == k2
  {
    forall k, i, k2, i2 | 1 <= k <= 3 && 1 <= i <= 3 && 1 <= k2 <= 3 && 1 <= i2 <= 3
      ensures (MatrixKey(k, i) == MatrixKey(k2, i2) ==> k == k2 && i == i2) && MatrixKey(k, i) != VectorKey(k2)
    {
      KeysDistinct(k, i, k2, i2);
    }
    forall k, k2 | 1 <= k <= 3 && 1 <= k2 <= 3 && VectorKey(k) == VectorKey(k2) ensures k == k2 {
      KeysDistinct(k, 1, k2, 1);
    }
  }

  /** `get_rotation(row)`: the TRANSPOSE of the operator matrix — entry
      `[r][c]` is `matrix[c+1][r+1]` — or KeyError when a matrix element is
      missing. */
  function GetRotation<V>(row: map<string, V>): (r: Result<seq<seq<V>>>)
    ensures r.Ok? <==> forall k, i :: 1 <= k <= 3 && 1 <= i <= 3 ==> MatrixKey(k, i) in row
    ensures r.Err? ==> r.error == KeyError
    ensures r.Ok? ==> |r.value| == 3 && forall a :: 0 <= a < 3 ==> |r.value[a]| == 3
    ensures r.Ok? ==> forall a, b :: 0 <= a < 3 && 0 <= b < 3 ==> r.value[a][b] == row[MatrixKey(b + 1, a + 1)]
  {
    if forall k, i :: 1 <= k <= 3 && 1 <= i <= 3 ==> MatrixKey(k, i) in row then
      Ok(seq(3, a requires 0 <= a < 3 =>
        seq(3, b requires 0 <= b < 3 => row[MatrixKey(b + 1, a + 1)])))
    else Err(KeyError)
  }

  /** `get_translation(row)`: `vector[1..3]` in order, or KeyError. */
  function GetTranslation<V>(row: map<string, V>): (r: Result<seq<V>>)
    ensures r.Ok? <==> forall k :: 1 <= k <= 3 ==> VectorKey(k) in row
    ensures r.Err? ==> r.error == KeyError
    ensures r.Ok? ==> |r.value| == 3 && forall a :: 0 <= a < 3 ==> r.value[a] == row[VectorKey(a + 1)]
  {
    if forall k :: 1 <= k <= 3 ==> VectorKey(k) in row then
      Ok(seq(3, a requires 0 <= a < 3 => row[VectorKey(a + 1)]))
    else Err(KeyError)
  }

  /** The operator a row describes: `matrix[k][i]` is row `k`, column `i`. */
  function OperatorOf<V>(row: map<string, V>): seq<seq<V>>
    requires forall k, i :: 1 <= k <= 3 && 1 <= i <= 3 ==> MatrixKey(k, i) in row
  {
    seq(3, k requires 0 <= k < 3 => seq(3, i requires 0 <= i < 3 => row[MatrixKey(k + 1, i + 1)]))
  }

  function Transpose<V>(a: seq<seq<V>>): (t: seq<seq<V>>)
    requires |a| == 3 && forall k :: 0 <= k < 3 ==> |a[k]| == 3
    ensures |t| == 3 && forall k :: 0 <= k < 3 ==> |t[k]| == 3
  {
    seq(3, r requires 0 <= r < 3 => seq(3, c requires 0 <= c < 3 => a[c][r]))
  }

  /** `get_rotation` hands back the transposed operator, the form that
      multiplies coordinate row vectors from the right; transposing it again
      gives the operator as written in the file. */
  lemma RotationIsTranspose<V>(row: map<string, V>)
    requires GetRotation(row).Ok?
    ensures GetRotation(row).value == Transpose(OperatorOf(row))
    ensures Transpose(GetRotation(row).value) == OperatorOf(row)
  {
    var r, op := GetRotation(row).value, OperatorOf(row);
    assert forall a :: 0 <= a < 3 ==> r[a] == Transpose(op)[a];
    assert forall a :: 0 <= a < 3 ==> Transpose(r)[a] == op[a];
  }

  // ---------------------------------------------------------------------
  // Looking rows up by an index column

  /** A cell read as text: KeyError when the column is missing, TypeError
      when it holds a list. */
  function Cell(row: Row, col: string): (r: Result<string>)
    ensures r.Ok? <==> col in row && row[col].Scalar?
    ensures r.Ok? ==> row[col] == Scalar(r.value)
    ensures r.Err? ==> r.error == (if col in row then TypeError else KeyError)
  {
    if col !in row then Err(KeyError)
    else match row[col]
      case Scalar(s) => Ok(s)
      case Column(_) => Err(TypeError)
  }

  /** The first row from `i` on whose `col` cell is `key`. */
  function FindRow(rows: seq<Row>, col: string, key: string, i: nat): (r: Option<nat>)
    requires i <= |rows|
    ensures r.None? <==> forall j :: i <= j < |rows| ==> Cell(rows[j], col) != Ok(key)
    ensures r.Some? ==> i <= r.value < |rows| && Cell(rows[r.value], col) == Ok(key)
    ensures r.Some? ==> forall j :: i <= j < r.value ==> Cell(rows[j], col) != Ok(key)
    decreases |rows| - i
  {
    if i == |rows| then None
    else if Cell(rows[i], col) == Ok(key) then Some(i)
    else FindRow(rows, col, key, i + 1)
  }

  /** `.set_index(col).loc[key]`: KeyError when the frame has no such
      column or no row has that key; the row with that key otherwise. */
  function LocRow(rows: seq<Row>, col: string, key: string): (r: Result<Row>)
    ensures r.Ok? <==> rows != [] && col in rows[0] && exists j :: 0 <= j < |rows| && Cell(rows[j], col) == Ok(key)
    ensures r.Ok? ==> r.value in rows && Cell(r.value, col) == Ok(key)
    ensures r.Err? ==> r.error == KeyError
  {
    if rows == [] || col !in rows[0] then Err(KeyError)
    else match FindRow(rows, col, key, 0)
      case None => Err(KeyError)
      case Some(j) => Ok(rows[j])
  }

  // ---------------------------------------------------------------------
  // Chains and operators of an assembly

  const AssemblyGen := "_pdbx_struct_assembly_gen"
  const OperList := "_pdbx_struct_oper_list"
  const AtomSite := "_atom_site"

  /** `drop_duplicates()` on a list of pairs: first occurrences, in order. */
  function Dedup<T(==,!new)>(s: seq<T>): (r: seq<T>)
    ensures Distinct(r) && forall x :: x in r <==> x in s
  {
    if s == [] then []
    else
      var r := Dedup(s[..|s| - 1]);
      assert forall x :: x in s <==> x in s[..|s| - 1] || x == s[|s| - 1] by {
        assert s == s[..|s| - 1] + [s[|s| - 1]];
      }
      if s[|s| - 1] in r then r else r + [s[|s| - 1]]
  }

  /** The (label_asym_id, auth_asym_id) pairs of the atom rows. */
  function ChainIdPairs(rows: seq<Row>): (r: Result<seq<(string, string)>>)
    ensures r.Err? ==> r.error == KeyError || r.error == TypeError
    ensures r.Ok? ==> |r.value| == |rows|
    ensures r.Ok? ==> forall j :: 0 <= j < |rows| ==>
      Cell(rows[j], "_atom_site.label_asym_id") == Ok(r.value[j].0) &&
      Cell(rows[j], "_atom_site.auth_asym_id") == Ok(r.value[j].1)
  {
    if rows == [] then Ok([])
    else
      var row := rows[|rows| - 1];
      var init := ChainIdPairs(rows[..|rows| - 1]);
      var labelCell := Cell(row, "_atom_site.label_asym_id");
      var authCell := Cell(row, "_atom_site.auth_asym_id");
      if init.Err? then init
      else if labelCell.Err? then Err(labelCell.error)
      else if authCell.Err? then Err(authCell.error)
      else Ok(init.value + [(labelCell.value, authCell.value)])
  }

  /** `dict(pairs)`: for each label, the auth id of its last pair. */
  function PairMap(pairs: seq<(string, string)>): (m: map<string, string>)
    ensures m.Keys == set p | p in pairs :: p.0
  {
    if pairs == [] then map[]
    else
      var last := pairs[|pairs| - 1];
      var init := pairs[..|pairs| - 1];
      assert forall p :: p in pairs <==> p in init || p == last by {
        assert pairs == init + [last];
      }
      PairMap(init)[last.0 := last.1]
  }

  /** A list has as many different elements as entries exactly when no
      element repeats. */
  lemma {:induction false} SetSize<T>(s: seq<T>)
    ensures |set x | x in s| <= |s|
    ensures |set x | x in s| == |s| <==> Distinct(s)
  {
    if s != [] {
      var init, last := s[..|s| - 1], s[|s| - 1];
      SetSize(init);
      assert s == init + [last];
      assert (set x | x in s) == (set x | x in init) + {last};
      if last in init {
        var i :| 0 <= i < |init| && init[i] == last;
        assert s[i] == s[|s| - 1];
      } else {
        if Distinct(init) {
          forall i, j | 0 <= i < j < |s| ensures s[i] != s[j] {
            if j < |s| - 1 {
              assert s[i] == init[i] && s[j] == init[j];
            } else {
              assert s[i] in init;
            }
          }
        } else {
          var i, j :| 0 <= i < j < |init| && init[i] == init[j];
          assert s[i] == s[j];
        }
      }
    }
  }

  /** The labels of the pairs, in order. */
  function Labels(pairs: seq<(string, string)>): (r: seq<string>)
    ensures |r| == |pairs| && forall i :: 0 <= i < |pairs| ==> r[i] == pairs[i].0
  {
    seq(|pairs|, i requires 0 <= i < |pairs| => pairs[i].0)
  }

  /** The label -> auth map is as large as the list of pairs exactly when no
      label id comes with two different pairs; after `drop_duplicates`, when
      no label id comes with two different auth ids. */
  lemma PairMapSize(pairs: seq<(string, string)>)
    ensures |PairMap(pairs)| <= |pairs|
    ensures |PairMap(pairs)| == |pairs| <==> forall i, j :: 0 <= i < j < |pairs| ==> pairs[i].0 != pairs[j].0
  {
    var labels := Labels(pairs);
    assert PairMap(pairs).Keys == set x | x in labels by {
      forall x | x in labels ensures x in PairMap(pairs).Keys {
        var i :| 0 <= i < |labels| && labels[i] == x;
        assert pairs[i] in pairs;
      }
    }
    SetSize(labels);
  }

  /** `{m[c] for c in ids}` listed without repeats, or KeyError at the first
      id the map lacks. */
  function MapAll(m: map<string, string>, ids: seq<string>): (r: Result<seq<string>>)
    ensures r.Ok? <==> forall c :: c in ids ==> c in m
    ensures r.Err? ==> r.error == KeyError
    ensures r.Ok? ==> Distinct(r.value) && forall x :: x in r.value <==> exists c :: c in ids && c in m && m[c] == x
  {
    if forall c :: c in ids ==> c in m then
      var mapped := seq(|ids|, i requires 0 <= i < |ids| => m[ids[i]]);
      var r := Dedup(mapped);
      assert forall x :: x in mapped <==> exists c :: c in ids && c in m && m[c] == x by {
        forall x | (exists c :: c in ids && c in m && m[c] == x) ensures x in mapped {
          var c :| c in ids && c in m && m[c] == x;
          var i :| 0 <= i < |ids| && ids[i] == c;
          assert mapped[i] == x;
        }
      }
      Ok(r)
    else Err(KeyError)
  }

  /** `get_chain_and_transformation_ids(sdict, bioassembly_id, ignore_auth_id)`:
      the comma-separated chain and operator fields of the assembly's row of
      `_pdbx_struct_assembly_gen`. An assembly absent from the data (or data
      without that category) raises BioassemblyNotFoundError. Unless
      `ignore_auth_id`, the label chain ids are replaced by their auth ids,
      without repeats and sorted; a label id with two auth ids raises. */
  function ChainAndTransformationIds(d: Dict, assemblyId: int, ignoreAuthId: bool): (r: Result<(seq<string>, seq<string>)>)
    ensures r.Ok? ==> |r.value.1| >= 1
    ensures r == Err(BioassemblyNotFound) <==> KeyRows(d, AssemblyGen).Ok? && Missing(KeyRows(d, AssemblyGen).value, assemblyId)
  {
    var gen := KeyRows(d, AssemblyGen);
    if gen.Err? then Err(gen.error)
    else
      var row := LocRow(gen.value, AssemblyGen + ".assembly_id", IntToString(assemblyId));
      if row.Err? then Err(BioassemblyNotFound)
      else
        var asym := Cell(row.value, AssemblyGen + ".asym_id_list");
        var oper := Cell(row.value, AssemblyGen + ".oper_expression");
        if asym.Err? then Err(asym.error)
        else if oper.Err? then Err(oper.error)
        else
          var chainIds, operIds := Split(asym.value, ','), Split(oper.value, ',');
          if ignoreAuthId then Ok((chainIds, operIds))
          else
            var atoms := KeyRows(d, AtomSite);
            if atoms.Err? then Err(atoms.error)
            else if atoms.value == [] then Err(KeyError)
            else
              var authIds := AuthIds(atoms.value, chainIds);
              if authIds.Err? then Err(authIds.error)
              else Ok((authIds.value, operIds))
  }

  /** The auth chain ids of `chainIds` by the atom rows, sorted and without
      repeats; Unrecognized when a label id has two auth ids, KeyError when a
      listed label id has no atom. */
  function AuthIds(atoms: seq<Row>, chainIds: seq<string>): (r: Result<seq<string>>)
    ensures r.Err? ==> r.error != BioassemblyNotFound
    ensures r.Ok? ==> Sorted(r.value) && Distinct(r.value)
  {
    var pairs := ChainIdPairs(atoms);
    if pairs.Err? then Err(pairs.error)
    else
      var unique := Dedup(pairs.value);
      var m := PairMap(unique);
      if |m| != |unique| then Err(Unrecognized)
      else
        var authIds := MapAll(m, chainIds);
        if authIds.Err? then Err(authIds.error)
        else
          var sorted := SortStrings(authIds.value);
          assert Distinct(sorted) by {
            forall i, j | 0 <= i < j < |sorted| ensures sorted[i] != sorted[j] {
              StrLtIrreflexive(sorted[i]);
            }
          }
          Ok(sorted)
  }

  /** With unique labels, the map sends each label to the auth id of its pair. */
  lemma {:induction false} PairMapLookup(pairs: seq<(string, string)>, p: (string, string))
    requires p in pairs
    requires forall i, j :: 0 <= i < j < |pairs| ==> pairs[i].0 != pairs[j].0
    ensures p.0 in PairMap(pairs) && PairMap(pairs)[p.0] == p.1
  {
    var init, last := pairs[..|pairs| - 1], pairs[|pairs| - 1];
    assert pairs == init + [last];
    if p != last {
      assert p in init;
      var i :| 0 <= i < |init| && init[i] == p;
      assert pairs[i] == p;
      PairMapLookup(init, p);
    }
  }

  /** Some label id comes with two different auth ids. */
  ghost predicate Ambiguous(pairs: seq<(string, string)>) {
    exists i, j :: 0 <= i < |pairs| && 0 <= j < |pairs| && pairs[i].0 == pairs[j].0 && pairs[i].1 != pairs[j].1
  }

  /** The map keeps one pair per label exactly when no label is ambiguous. */
  lemma UniqueSize(pairs: seq<(string, string)>)
    ensures |PairMap(Dedup(pairs))| == |Dedup(pairs)| <==> !Ambiguous(pairs)
  {
    var unique := Dedup(pairs);
    var m := PairMap(unique);
    PairMapSize(unique);
    if |m| != |unique| {
      var i, j :| 0 <= i < j < |unique| && unique[i].0 == unique[j].0;
      assert unique[i] in pairs && unique[j] in pairs;
      var a :| 0 <= a < |pairs| && pairs[a] == unique[i];
      var b :| 0 <= b < |pairs| && pairs[b] == unique[j];
      assert pairs[a].1 != pairs[b].1;
    } else {
      forall i, j | 0 <= i < |pairs| && 0 <= j < |pairs| && pairs[i].0 == pairs[j].0
        ensures pairs[i].1 == pairs[j].1
      {
        assert pairs[i] in unique && pairs[j] in unique;
        PairMapLookup(unique, pairs[i]);
        PairMapLookup(unique, pairs[j]);
      }
    }
  }

  /** Unrecognized is raised exactly when a label id of the atoms has two
      auth ids. */
  lemma AuthIdsAmbiguous(atoms: seq<Row>, chainIds: seq<string>)
    requires ChainIdPairs(atoms).Ok?
    ensures AuthIds(atoms, chainIds) == Err(Unrecognized) <==> Ambiguous(ChainIdPairs(atoms).value)
  {
    UniqueSize(ChainIdPairs(atoms).value);
  }

  /** The auth ids found are exactly those paired, in some atom row, with a
      listed label id. */
  lemma AuthIdsMembers(atoms: seq<Row>, chainIds: seq<string>)
    requires AuthIds(atoms, chainIds).Ok?
    ensures forall x :: x in AuthIds(atoms, chainIds).value <==>
      exists c :: c in chainIds && (c, x) in ChainIdPairs(atoms).value
  {
    var pairs := ChainIdPairs(atoms).value;
    var unique := Dedup(pairs);
    var m := PairMap(unique);
    PairMapSize(unique);
    var r := MapAll(m, chainIds);
    var sorted := AuthIds(atoms, chainIds).value;
    assert forall x :: x in sorted <==> x in r.value;
    forall x ensures x in sorted <==> exists c :: c in chainIds && (c, x) in pairs {
      if x in sorted {
        var c :| c in chainIds && c in m && m[c] == x;
        var p :| p in unique && p.0 == c;
        PairMapLookup(unique, p);
      }
      if exists c :: c in chainIds && (c, x) in pairs {
        var c :| c in chainIds && (c, x) in pairs;
        assert (c, x) in unique;
        PairMapLookup(unique, (c, x));
      }
    }
  }

  /** No row of `_pdbx_struct_assembly_gen` is the assembly's: the
      category or its `assembly_id` column is absent, or no row carries it. */
  ghost predicate Missing(gen: seq<Row>, assemblyId: int) {
    || gen == []
    || AssemblyGen + ".assembly_id" !in gen[0]
    || forall row :: row in gen ==> Cell(row, AssemblyGen + ".assembly_id") != Ok(IntToString(assemblyId))
  }

  /** When the assembly's row is found and auth ids are ignored, the chain
      and operator ids joined back with commas are the two fields. */
  lemma ChainIdsJoin(d: Dict, assemblyId: int)
    requires ChainAndTransformationIds(d, assemblyId, true).Ok?
    ensures var gen := KeyRows(d, AssemblyGen).value;
      var row := LocRow(gen, AssemblyGen + ".assembly_id", IntToString(assemblyId)).value;
      var ids := ChainAndTransformationIds(d, assemblyId, true).value;
      && Cell(row, AssemblyGen + ".asym_id_list") == Ok(Join(ids.0, ','))
      && Cell(row, AssemblyGen + ".oper_expression") == Ok(Join(ids.1, ','))
  {
    var gen := KeyRows(d, AssemblyGen).value;
    var row := LocRow(gen, AssemblyGen + ".assembly_id", IntToString(assemblyId)).value;
    SplitJoin(Cell(row, AssemblyGen + ".asym_id_list").value, ',');
    SplitJoin(Cell(row, AssemblyGen + ".oper_expression").value, ',');
  }

  /** With auth ids (`ignore_auth_id=False`) the operator ids are the same
      and the chain ids are the auth ids of the label ids: sorted, without
      repeats, and exactly those an atom row pairs with a listed label id.
      A failure without auth ids is the same failure with them. */
  lemma AuthChainIds(d: Dict, assemblyId: int)
    ensures ChainAndTransformationIds(d, assemblyId, true).Err? ==>
      ChainAndTransformationIds(d, assemblyId, false) == ChainAndTransformationIds(d, assemblyId, true)
    ensures ChainAndTransformationIds(d, assemblyId, false).Ok? ==>
      var plain, auth := ChainAndTransformationIds(d, assemblyId, true), ChainAndTransformationIds(d, assemblyId, false).value;
      var atoms := KeyRows(d, AtomSite);
      && plain.Ok? && atoms.Ok? && ChainIdPairs(atoms.value).Ok?
      && auth.1 == plain.value.1
      && AuthIds(atoms.value, plain.value.0) == Ok(auth.0)
      && Sorted(auth.0) && Distinct(auth.0)
      && forall x :: x in auth.0 <==> exists c :: c in plain.value.0 && (c, x) in ChainIdPairs(atoms.value).value
  {
    if ChainAndTransformationIds(d, assemblyId, false).Ok? {
      var plain := ChainAndTransformationIds(d, assemblyId, true).value;
      AuthIdsMembers(KeyRows(d, AtomSite).value, plain.0);
    }
  }

  /** One operator: the rotation (transposed, see `GetRotation`) and the
      translation. */
  datatype Transformation = Transformation(rotation: seq<seq<Value>>, translation: seq<Value>)

  /** The operator rows for `ids`, in the order of `ids`. */
  function OperatorRows(rows: seq<Row>, ids: seq<string>): (r: Result<seq<Row>>)
    ensures r.Ok? ==> |r.value| == |ids|
    ensures r.Ok? ==> forall j :: 0 <= j < |ids| ==>
      (r.value[j] in rows && Cell(r.value[j], OperList + ".id") == Ok(ids[j]))
    ensures r.Err? ==> r.error == KeyError
  {
    if ids == [] then Ok([])
    else
      var init := OperatorRows(rows, ids[..|ids| - 1]);
      var row := LocRow(rows, OperList + ".id", ids[|ids| - 1]);
      if init.Err? then init
      else if row.Err? then Err(row.error)
      else Ok(init.value + [row.value])
  }

  /** The transformation of each row, in order; KeyError at the first
      incomplete row. */
  function TransformationsOf(rows: seq<Row>): (r: Result<seq<Transformation>>)
    ensures r.Ok? <==> forall j :: 0 <= j < |rows| ==> GetRotation(rows[j]).Ok? && GetTranslation(rows[j]).Ok?
    ensures r.Ok? ==> |r.value| == |rows| && forall j :: 0 <= j < |rows| ==>
      r.value[j] == Transformation(GetRotation(rows[j]).value, GetTranslation(rows[j]).value)
    ensures r.Err? ==> r.error == KeyError
  {
    if rows == [] then Ok([])
    else
      var init := TransformationsOf(rows[..|rows| - 1]);
      var row := rows[|rows| - 1];
      var rot, tr := GetRotation(row), GetTranslation(row);
      if init.Err? then init
      else if rot.Err? then Err(rot.error)
      else if tr.Err? then Err(tr.error)
      else
        assert forall j :: 0 <= j < |rows| - 1 ==> rows[..|rows| - 1][j] == rows[j];
        Ok(init.value + [Transformation(rot.value, tr.value)])
  }

  /** `get_transformations(sdict, transformation_ids)`: one transformation
      per id, in the order of the ids (repeats repeat it); an unknown id or
      an incomplete operator raises KeyError. */
  function GetTransformations(d: Dict, ids: seq<string>): (r: Result<seq<Transformation>>)
    ensures r.Ok? ==> |r.value| == |ids|
  {
    var rows := KeyRows(d, OperList);
    if rows.Err? then Err(rows.error)
    else if rows.value == [] || OperList + ".id" !in rows.value[0] then Err(KeyError)
    else
      var picked := OperatorRows(rows.value, ids);
      if picked.Err? then Err(picked.error)
      else TransformationsOf(picked.value)
  }

  /** Transformation `j` is read from the operator row whose id is `ids[j]`. */
  lemma TransformationOrder(d: Dict, ids: seq<string>, j: nat)
    requires GetTransformations(d, ids).Ok? && j < |ids|
    ensures exists row :: (row in KeyRows(d, OperList).value && Cell(row, OperList + ".id") == Ok(ids[j]) &&
      GetRotation(row).Ok? && GetTranslation(row).Ok? &&
      GetTransformations(d, ids).value[j] == Transformation(GetRotation(row).value, GetTranslation(row).value))
  {
    var rows := KeyRows(d, OperList).value;
    var picked := OperatorRows(rows, ids).value;
    assert picked[j] in rows;
  }
}
