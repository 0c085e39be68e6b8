/** `ProcessRemark350` of kmbio/PDB/parsers/bioassembly.py: reading the
    biological assemblies out of the REMARK 350 lines of a PDB file.

    The class below follows the code as it stands. Its `_biomt` field is
    never made a list, so no run of `process_lines` ends normally (see
    `Parser.ProcessLines`). The functions after it state the evident intent
    (`ProcessFixed`) and prove what it records. */
module Remark350 {
  import opened Wrappers
  import opened PyStrings
  import opened Mmcif

  // ---------------------------------------------------------------------
  // The three regular expressions

  /** The character classes the patterns use: `[0-9]`, `[0-9\.]` and
      `[a-zA-Z0-9, ]`. */
  datatype CharClass = Digits | Decimal | ChainChars

  predicate InClass(c: char, k: CharClass) {
    match k
    case Digits => IsDigit(c)
    case Decimal => IsDigit(c) || c == '.'
    case ChainChars => ('a' <= c <= 'z') || ('A' <= c <= 'Z') || IsDigit(c) || c == ',' || c == ' '
  }

  /** Where the run of class `k` starting at `i` ends (greedy `+`). */
  function RunEnd(s: string, i: nat, k: CharClass): (e: nat)
    requires i <= |s|
    ensures i <= e <= |s| && (e == |s| || !InClass(s[e], k))
    ensures forall j :: i <= j < e ==> InClass(s[j], k)
    decreases |s| - i
  {
    if i == |s| || !InClass(s[i], k) then i else RunEnd(s, i + 1, k)
  }

  /** The groups matched from `j` on: each group a non-empty greedy run of
      its class, every group but the first preceded by a non-empty run of
      whitespace (`\s+`). Whitespace belongs to none of the classes that
      meet a `\s+` in these patterns, so backtracking never finds a match
      the greedy runs miss. */
  function Groups(s: string, j: nat, ks: seq<CharClass>, first: bool): (r: Option<seq<string>>)
    requires j <= |s|
    ensures r.Some? ==> |r.value| == |ks|
    ensures r.Some? ==> forall n :: 0 <= n < |ks| ==> r.value[n] != [] && forall c :: c in r.value[n] ==> InClass(c, ks[n])
    decreases |ks|
  {
    if ks == [] then Some([])
    else
      var g := if first then j else SkipSpaces(s, j);
      if !first && g == j then None
      else
        var e := RunEnd(s, g, ks[0]);
        if e == g then None
        else match Groups(s, e, ks[1..], false)
          case None => None
          case Some(rest) =>
            assert forall c :: c in s[g..e] ==> InClass(c, ks[0]) by {
              forall c | c in s[g..e] ensures InClass(c, ks[0]) {
                var x :| 0 <= x < e - g && s[g..e][x] == c;
                assert s[g + x] == c;
              }
            }
            Some([s[g..e]] + rest)
  }

  /** The groups of a match of `lit` followed by the groups, at position `i`. */
  function MatchAt(s: string, i: nat, lit: string, ks: seq<CharClass>): Option<seq<string>>
    requires i <= |s|
  {
    if StartsWith(s[i..], lit) then Groups(s, i + |lit|, ks, true) else None
  }

  /** The leftmost position from `i` on where the pattern matches. */
  function FirstMatch(s: string, lit: string, ks: seq<CharClass>, i: nat): (r: Option<nat>)
    requires i <= |s|
    ensures r.None? <==> forall j :: i <= j <= |s| ==> MatchAt(s, j, lit, ks).None?
    ensures r.Some? ==> i <= r.value <= |s| && MatchAt(s, r.value, lit, ks).Some?
    ensures r.Some? ==> forall j :: i <= j < r.value ==> MatchAt(s, j, lit, ks).None?
    decreases |s| - i
  {
    if MatchAt(s, i, lit, ks).Some? then Some(i)
    else if i == |s| then None
    else FirstMatch(s, lit, ks, i + 1)
  }

  /** `pattern.findall(s)[0]` when `findall` finds anything: the groups of
      the leftmost match. */
  function FindFirst(s: string, lit: string, ks: seq<CharClass>): (r: Option<seq<string>>)
    ensures r.None? <==> forall j :: 0 <= j <= |s| ==> MatchAt(s, j, lit, ks).None?
    ensures r.Some? ==> exists i :: (0 <= i <= |s| && MatchAt(s, i, lit, ks) == r &&
      forall j :: 0 <= j < i ==> MatchAt(s, j, lit, ks).None?)
    ensures r.Some? ==> |r.value| == |ks|
  {
    match FirstMatch(s, lit, ks, 0)
    case None => None
    case Some(i) => MatchAt(s, i, lit, ks)
  }

  const BiomoleculeLit := "BIOMOLECULE: "
  const ChainsLit := "APPLY THE FOLLOWING TO CHAINS: "
  const BiomtLit := "BIOMT"
  const BiomtClasses := [Digits, Digits, Decimal, Decimal, Decimal, Decimal]

  /** The six groups of a BIOMT line. */
  datatype BiomtFields = BiomtFields(matrixId: string, transformationId: string,
                                     m1: string, m2: string, m3: string, vector: string)

  /** What a REMARK 350 line says, as `process_lines` tells it apart. */
  datatype Line =
    | BiomoleculeLine(biomolecule: string)
    | ChainsLine(chains: string)
    | BiomtLine(fields: BiomtFields)
    | OtherLine

  /** The first part of a line that `process_lines` looks at: the text after
      the eleven characters of "REMARK 350 ", stripped. */
  function Body(line: string): string
    requires StartsWith(line, "REMARK 350 ")
  {
    Strip(line[11..])
  }

  /** How `process_lines` reads one line: AssertionError unless it starts
      with "REMARK 350 "; then the first of the three patterns that finds a
      match in the body decides. */
  function Classify(line: string): (r: Result<Line>)
    ensures r.Err? <==> !StartsWith(line, "REMARK 350 ")
    ensures r.Err? ==> r.error == AssertionFailed
    ensures r.Ok? && r.value.BiomoleculeLine? ==>
      r.value.biomolecule != [] && forall c :: c in r.value.biomolecule ==> IsDigit(c)
    ensures r.Ok? && !r.value.BiomoleculeLine? ==> FindFirst(Body(line), BiomoleculeLit, [Digits]).None?
    ensures r.Ok? && r.value.BiomtLine? ==> FindFirst(Body(line), ChainsLit, [ChainChars]).None?
    ensures r.Ok? && r.value.BiomtLine? ==>
      var f := r.value.fields;
      (forall c :: c in f.matrixId ==> IsDigit(c)) && f.vector != [] &&
      forall c :: c in f.vector ==> InClass(c, Decimal)
    ensures r == Ok(OtherLine) ==>
      FindFirst(Body(line), ChainsLit, [ChainChars]).None? && FindFirst(Body(line), BiomtLit, BiomtClasses).None?
  {
    if !StartsWith(line, "REMARK 350 ") then Err(AssertionFailed)
    else
      var body := Body(line);
      match FindFirst(body, BiomoleculeLit, [Digits])
      case Some(g) => Ok(BiomoleculeLine(g[0]))
      case None =>
        match FindFirst(body, ChainsLit, [ChainChars])
        case Some(g) => Ok(ChainsLine(g[0]))
        case None =>
          match FindFirst(body, BiomtLit, BiomtClasses)
          case Some(g) => Ok(BiomtLine(BiomtFields(g[0], g[1], g[2], g[3], g[4], g[5])))
          case None => Ok(OtherLine)
  }

  // ---------------------------------------------------------------------
  // Helpers shared by both readings

  /** Python truthiness of an optional string: present and non-empty. */
  predicate Truthy(s: Option<string>) {
    s.Some? && s.value != []
  }

  /** `str(x)` of an optional string: "None" when absent. */
  function Str(s: Option<string>): string {
    match s
    case None => "None"
    case Some(v) => v
  }

  /** The matrix row number a BIOMT line names: 1, 2 or 3 when the id is
      "1", "2" or "3". */
  function MatrixRow(id: string): (r: Option<nat>)
    ensures r.Some? ==> 1 <= r.value <= 3 && id == [Digit(r.value)]
    ensures r.None? <==> id != "1" && id != "2" && id != "3"
  {
    if id == "1" then Some(1) else if id == "2" then Some(2) else if id == "3" then Some(3) else None
  }

  /** The four keys a BIOMT line of matrix row `k` writes into `row`. */
  function Written(row: Row, k: nat, f: BiomtFields): (r: Row)
    requires 1 <= k <= 3
    ensures r.Keys == row.Keys + {MatrixKey(k, 1), MatrixKey(k, 2), MatrixKey(k, 3), VectorKey(k)}
  {
    row[MatrixKey(k, 1) := Scalar(f.m1)][MatrixKey(k, 2) := Scalar(f.m2)]
       [MatrixKey(k, 3) := Scalar(f.m3)][VectorKey(k) := Scalar(f.vector)]
  }

  // ---------------------------------------------------------------------
  // The code as written

  /** The check `_process_biomt` makes for matrix rows 2 and 3 as written:
      the keys of the earlier rows, columns 1 and 2 only, must occur as
      substrings of the vector string of the current line. */
  predicate KeysInVector(k: nat, vector: string) {
    forall kk, i :: 1 <= kk < k && 1 <= i < 3 && kk <= 3 ==> IsSubstring(MatrixKey(kk, i), vector)
  }

  /** What the as-written flush would store: the chains and, in a one-item
      list, a generator over the rows that nothing ever runs. */
  datatype Stored = Stored(chains: Option<string>, pendingRows: seq<Row>)

  class Parser {
    var biomolecule: Option<string>
    var chains: Option<string>
    var biomt: Option<seq<Row>>
    var data: map<string, Stored>

    constructor ()
      ensures biomolecule == None && chains == None && biomt == None && data == map[]
    {
      biomolecule, chains, biomt, data := None, None, None, map[];
    }

    /** What every parser keeps: `_biomt` is None, and nothing is recorded. */
    ghost predicate Valid()
      reads this
    {
      biomt == None && data == map[]
    }

    /** `_process_biomolecule`: the first BIOMOLECULE line needs no chains,
        BIOMT rows or data yet; a later one needs chains and rows, which
        `_biomt` never holds. */
    method ProcessBiomolecule(b: string) returns (o: Outcome)
      modifies this
      ensures o == (if old(biomolecule).None?
        then (if Truthy(old(chains)) || (old(biomt).Some? && old(biomt).value != []) || old(data) != map[]
              then Fail(AssertionFailed) else Pass)
        else (if Truthy(old(chains)) && old(biomt).Some? && old(biomt).value != []
              then Pass else Fail(AssertionFailed)))
      ensures biomolecule == (if o.Pass? then Some(b) else old(biomolecule))
      ensures chains == old(chains) && biomt == old(biomt) && data == old(data)
    {
      if biomolecule.None? {
        if Truthy(chains) || (biomt.Some? && biomt.value != []) || data != map[] {
          return Fail(AssertionFailed);
        }
        biomolecule := Some(b);
      } else {
        if !(Truthy(chains) && biomt.Some? && biomt.value != []) {
          return Fail(AssertionFailed);
        }
        biomolecule := Some(b);
      }
      o := Pass;
    }

    /** `_process_chains`: chains may be given once; spaces are dropped. */
    method ProcessChains(c: string) returns (o: Outcome)
      modifies this
      ensures o == (if Truthy(old(chains)) then Fail(AssertionFailed) else Pass)
      ensures chains == (if o.Pass? then Some(RemoveChar(c, ' ')) else old(chains))
      ensures biomolecule == old(biomolecule) && biomt == old(biomt) && data == old(data)
    {
      if Truthy(chains) {
        return Fail(AssertionFailed);
      }
      chains := Some(RemoveChar(c, ' '));
      o := Pass;
    }

    /** `_process_biomt` as written. Row 1 appends a new row to `_biomt`
        (AttributeError while it is None). Rows 2 and 3 take the vector
        STRING of the line for the row: the sanity check tests substrings
        of it, and writing into it would raise TypeError. */
    method ProcessBiomt(f: BiomtFields) returns (o: Outcome)
      modifies this
      ensures MatrixRow(f.matrixId).None? ==> o == Fail(AssertionFailed)
      ensures MatrixRow(f.matrixId) == Some(1) ==>
        o == (if old(biomt).None? then Fail(AttributeError) else Pass)
      ensures MatrixRow(f.matrixId).Some? && MatrixRow(f.matrixId).value > 1 ==>
        o == (if KeysInVector(MatrixRow(f.matrixId).value, f.vector) then Fail(TypeError) else Fail(AssertionFailed))
      ensures biomt == (if o.Pass? then Some(old(biomt).value + [Written(map[], 1, f)]) else old(biomt))
      ensures biomolecule == old(biomolecule) && chains == old(chains) && data == old(data)
    {
      var k := MatrixRow(f.matrixId);
      if k.None? {
        return Fail(AssertionFailed);
      }
      if k.value == 1 {
        if biomt.None? {
          return Fail(AttributeError);
        }
        biomt := Some(biomt.value + [Written(map[], 1, f)]);
        return Pass;
      }
      if !KeysInVector(k.value, f.vector) {
        return Fail(AssertionFailed);
      }
      o := Fail(TypeError);
    }

    /** `_flush`: the key is `str(_biomolecule)`; building the entry
        iterates `_biomt`, a TypeError while it is None. */
    method Flush() returns (o: Outcome)
      modifies this
      ensures o == (if Str(old(biomolecule)) in old(data) then Fail(AssertionFailed)
                    else if old(biomt).None? then Fail(TypeError) else Pass)
      ensures data == (if o.Pass? then old(data)[Str(old(biomolecule)) := Stored(old(chains), old(biomt).value)] else old(data))
      ensures chains == (if o.Pass? then None else old(chains))
      ensures biomt == (if o.Pass? then None else old(biomt))
      ensures biomolecule == old(biomolecule)
    {
      var key := Str(biomolecule);
      if key in data {
        return Fail(AssertionFailed);
      }
      if biomt.None? {
        return Fail(TypeError);
      }
      data := data[key := Stored(chains, biomt.value)];
      chains, biomt := None, None;
      o := Pass;
    }

    /** `process_lines` as written: every run ends in an exception — at the
        latest the flush, which iterates a `_biomt` that is still None — and
        nothing is ever recorded. */
    method ProcessLines(lines: seq<string>) returns (o: Outcome)
      requires Valid()
      modifies this
      ensures o.Fail? && Valid()
    {
      var i := 0;
      while i < |lines|
        invariant 0 <= i <= |lines|
        invariant Valid()
      {
        var l := Classify(lines[i]);
        if l.Err? {
          return Fail(l.error);
        }
        var step := Pass;
        match l.value {
          case BiomoleculeLine(b) => step := ProcessBiomolecule(b);
          case ChainsLine(c) => step := ProcessChains(c);
          case BiomtLine(f) => step := ProcessBiomt(f);
          case OtherLine =>
        }
        if step.Fail? {
          return step;
        }
        i := i + 1;
      }
      o := Flush();
    }
  }

  /** The vector group of a BIOMT line is digits and dots, so it never holds
      a key: the as-written check of rows 2 and 3 always fails. */
  lemma ContinuationAlwaysFails(k: nat, vector: string)
    requires 2 <= k <= 3
    requires forall c :: c in vector ==> InClass(c, Decimal)
    ensures !KeysInVector(k, vector)
  {
    NoKeyInNumber(MatrixKey(1, 1), vector);
  }

  /** A key that starts with '_' is not a substring of digits and dots. */
  lemma NoKeyInNumber(key: string, vector: string)
    requires key != [] && key[0] == '_'
    requires forall c :: c in vector ==> InClass(c, Decimal)
    ensures !IsSubstring(key, vector)
  {
    forall i | 0 <= i <= |vector| ensures !StartsWith(vector[i..], key) {
      if i < |vector| {
        assert vector[i] in vector;
      }
    }
  }

  // ---------------------------------------------------------------------
  // The evident intent

  /** One assembly: its chains and its transformations. */
  datatype Entry = Entry(chains: Option<string>, transformations: seq<Transformation>)

  /** The state of the corrected parser. */
  datatype Parse = Parse(biomolecule: Option<string>, chains: Option<string>,
                         biomt: seq<Row>, data: map<string, Entry>)

  const Start := Parse(None, None, [], map[])

  /** The matrix rows `1..n` and their vector entries are all in `row`. */
  predicate Complete(row: Row, n: nat) {
    (forall k, i :: 1 <= k <= n && k <= 3 && 1 <= i <= 3 ==> MatrixKey(k, i) in row) &&
    (forall k :: 1 <= k <= n && k <= 3 ==> VectorKey(k) in row)
  }

  /** The flush as intended: record the assembly under `str(biomolecule)`
      with one transformation per BIOMT row; KeyError when a row misses a
      matrix row. */
  function FlushFixed(p: Parse): (r: Result<Parse>)
    ensures r.Ok? <==> Str(p.biomolecule) !in p.data && TransformationsOf(p.biomt).Ok?
    ensures r.Ok? ==> r.value == Parse(p.biomolecule, None, [],
      p.data[Str(p.biomolecule) := Entry(p.chains, TransformationsOf(p.biomt).value)])
  {
    if Str(p.biomolecule) in p.data then Err(AssertionFailed)
    else match TransformationsOf(p.biomt)
      case Err(e) => Err(e)
      case Ok(ts) => Ok(Parse(p.biomolecule, None, [], p.data[Str(p.biomolecule) := Entry(p.chains, ts)]))
  }

  /** One line as intended: a second BIOMOLECULE flushes the first; a BIOMT
      row 1 starts a new row of `_biomt`; rows 2 and 3 extend the last row
      after checking that all three columns and the vector of every earlier
      matrix row are there. */
  function StepFixed(p: Parse, l: Line): (r: Result<Parse>)
  {
    match l
    case OtherLine => Ok(p)
    case BiomoleculeLine(b) =>
      if p.biomolecule.None? then
        if Truthy(p.chains) || p.biomt != [] || p.data != map[] then Err(AssertionFailed)
        else Ok(p.(biomolecule := Some(b)))
      else if !Truthy(p.chains) || p.biomt == [] then Err(AssertionFailed)
      else
        (match FlushFixed(p)
         case Err(e) => Err(e)
         case Ok(q) => Ok(q.(biomolecule := Some(b))))
    case ChainsLine(c) =>
      if Truthy(p.chains) then Err(AssertionFailed)
      else Ok(p.(chains := Some(RemoveChar(c, ' '))))
    case BiomtLine(f) =>
      match MatrixRow(f.matrixId)
      case None => Err(AssertionFailed)
      case Some(k) =>
        if k == 1 then Ok(p.(biomt := p.biomt + [Written(map[], 1, f)]))
        else if p.biomt == [] then Err(IndexError)
        else
          var last := p.biomt[|p.biomt| - 1];
          if !Complete(last, k - 1) then Err(AssertionFailed)
          else Ok(p.(biomt := p.biomt[..|p.biomt| - 1] + [Written(last, k, f)]))
  }

  /** The lines in order, from state `p`; the first failure stops the run. */
  function RunLines(p: Parse, ls: seq<Line>): (r: Result<Parse>)
    decreases |ls|
  {
    if ls == [] then Ok(p)
    else match StepFixed(p, ls[0])
      case Err(e) => Err(e)
      case Ok(q) => RunLines(q, ls[1..])
  }

  /** The text lines in order: each is read, then processed, before the
      next is read. */
  function RunText(p: Parse, lines: seq<string>): (r: Result<Parse>)
    decreases |lines|
  {
    if lines == [] then Ok(p)
    else match Classify(lines[0])
      case Err(e) => Err(e)
      case Ok(l) =>
        match StepFixed(p, l)
        case Err(e) => Err(e)
        case Ok(q) => RunText(q, lines[1..])
  }

  /** `ls` are the lines the text lines read as. */
  ghost predicate ReadAs(lines: seq<string>, ls: seq<Line>) {
    |lines| == |ls| && forall i :: 0 <= i < |lines| ==> Classify(lines[i]) == Ok(ls[i])
  }

  lemma ReadAsTail(lines: seq<string>, ls: seq<Line>)
    requires ReadAs(lines, ls) && lines != []
    ensures Classify(lines[0]) == Ok(ls[0]) && ReadAs(lines[1..], ls[1..])
  {
    forall i | 0 <= i < |lines| - 1 ensures Classify(lines[1..][i]) == Ok(ls[1..][i]) {
      assert lines[1..][i] == lines[i + 1] && ls[1..][i] == ls[i + 1];
    }
  }

  /** Reading the text line by line is running the lines it reads. */
  lemma {:induction false} RunTextLines(p: Parse, lines: seq<string>, ls: seq<Line>)
    requires ReadAs(lines, ls)
    ensures RunText(p, lines) == RunLines(p, ls)
    decreases |lines|
  {
    if lines != [] {
      ReadAsTail(lines, ls);
      var q := StepFixed(p, ls[0]);
      if q.Ok? {
        RunTextLines(q.value, lines[1..], ls[1..]);
      }
    }
  }

  /** `process_lines` as intended: the assemblies recorded once every line
      is processed and the last assembly flushed. */
  function ProcessFixed(lines: seq<string>): (r: Result<map<string, Entry>>)
  {
    match RunText(Start, lines)
    case Err(e) => Err(e)
    case Ok(p) =>
      match FlushFixed(p)
      case Err(e) => Err(e)
      case Ok(q) => Ok(q.data)
  }

  // ---------------------------------------------------------------------
  // What the intended reading records

  /** One BIOMT operator as the file gives it: an id, a 3x3 matrix and a
      vector, all as text. */
  datatype Operator = Operator(id: string, matrix: seq<seq<string>>, vector: seq<string>)

  predicate WellShaped(op: Operator) {
    |op.matrix| == 3 && |op.vector| == 3 && forall k :: 0 <= k < 3 ==> |op.matrix[k]| == 3
  }

  /** The BIOMT line of matrix row `k` of `op`. */
  function OperatorLine(op: Operator, k: nat): Line
    requires WellShaped(op) && 1 <= k <= 3
  {
    BiomtLine(BiomtFields([Digit(k)], op.id, op.matrix[k - 1][0], op.matrix[k - 1][1],
                          op.matrix[k - 1][2], op.vector[k - 1]))
  }

  /** The three BIOMT lines of every operator, in order. */
  function OperatorLines(ops: seq<Operator>): (ls: seq<Line>)
    requires forall j :: 0 <= j < |ops| ==> WellShaped(ops[j])
    ensures |ls| == 3 * |ops|
  {
    if ops == [] then []
    else
      var op := ops[|ops| - 1];
      OperatorLines(ops[..|ops| - 1]) + [OperatorLine(op, 1), OperatorLine(op, 2), OperatorLine(op, 3)]
  }

  /** The row the three lines of `op` build. */
  function OperatorRow(op: Operator): Row
    requires WellShaped(op)
  {
    var f1, f2, f3 := OperatorLine(op, 1).fields, OperatorLine(op, 2).fields, OperatorLine(op, 3).fields;
    Written(Written(Written(map[], 1, f1), 2, f2), 3, f3)
  }

  /** The operator as text cells, and what the intended flush records for it. */
  function Cells(op: Operator): (t: Transformation)
    requires WellShaped(op)
  {
    Transformation(
      seq(3, r requires 0 <= r < 3 => seq(3, c requires 0 <= c < 3 => Scalar(op.matrix[c][r]))),
      seq(3, r requires 0 <= r < 3 => Scalar(op.vector[r])))
  }

  /** The row of an operator holds its matrix and vector under the operator
      keys, so it yields the transposed matrix and the vector. */
  lemma OperatorRowTransformation(op: Operator)
    requires WellShaped(op)
    ensures GetRotation(OperatorRow(op)).Ok? && GetTranslation(OperatorRow(op)).Ok?
    ensures Transformation(GetRotation(OperatorRow(op)).value, GetTranslation(OperatorRow(op)).value) == Cells(op)
  {
    OperatorRowCells(op);
    var row := OperatorRow(op);
    var rot, tr := GetRotation(row).value, GetTranslation(row).value;
    assert rot == Cells(op).rotation by {
      assert forall a :: 0 <= a < 3 ==> rot[a] == Cells(op).rotation[a];
    }
    assert tr == Cells(op).translation;
  }

  /** The row of an operator holds each matrix element and vector entry
      under its own key. */
  lemma OperatorRowCells(op: Operator)
    requires WellShaped(op)
    ensures forall k, i :: 1 <= k <= 3 && 1 <= i <= 3 ==>
      MatrixKey(k, i) in OperatorRow(op) && OperatorRow(op)[MatrixKey(k, i)] == Scalar(op.matrix[k - 1][i - 1])
    ensures forall k :: 1 <= k <= 3 ==>
      VectorKey(k) in OperatorRow(op) && OperatorRow(op)[VectorKey(k)] == Scalar(op.vector[k - 1])
  {
    OperatorRowMatrix(op);
    OperatorRowVector(op);
  }

  /** The nine matrix elements of an operator's row. */
  lemma OperatorRowMatrix(op: Operator)
    requires WellShaped(op)
    ensures forall k, i :: 1 <= k <= 3 && 1 <= i <= 3 ==>
      MatrixKey(k, i) in OperatorRow(op) && OperatorRow(op)[MatrixKey(k, i)] == Scalar(op.matrix[k - 1][i - 1])
  {
    var f1, f2, f3 := OperatorLine(op, 1).fields, OperatorLine(op, 2).fields, OperatorLine(op, 3).fields;
    var r1 := Written(map[], 1, f1);
    var r2 := Written(r1, 2, f2);
    WrittenAt(map[], 1, f1);
    WrittenAt(r1, 2, f2);
    WrittenAt(r2, 3, f3);
  }

  /** The three vector entries of an operator's row. */
  lemma OperatorRowVector(op: Operator)
    requires WellShaped(op)
    ensures forall k :: 1 <= k <= 3 ==>
      VectorKey(k) in OperatorRow(op) && OperatorRow(op)[VectorKey(k)] == Scalar(op.vector[k - 1])
  {
    var f1, f2, f3 := OperatorLine(op, 1).fields, OperatorLine(op, 2).fields, OperatorLine(op, 3).fields;
    var r1 := Written(map[], 1, f1);
    var r2 := Written(r1, 2, f2);
    WrittenAt(map[], 1, f1);
    WrittenAt(r1, 2, f2);
    WrittenAt(r2, 3, f3);
  }

  /** Writing matrix row `k` sets its four keys and leaves every other key. */
  lemma WrittenAt(row: Row, k: nat, f: BiomtFields)
    requires 1 <= k <= 3
    ensures var r := Written(row, k, f);
      && r[MatrixKey(k, 1)] == Scalar(f.m1) && r[MatrixKey(k, 2)] == Scalar(f.m2)
      && r[MatrixKey(k, 3)] == Scalar(f.m3) && r[VectorKey(k)] == Scalar(f.vector)
    ensures forall k2, i :: 1 <= k2 <= 3 && 1 <= i <= 3 && k2 != k && MatrixKey(k2, i) in row ==>
      Written(row, k, f)[MatrixKey(k2, i)] == row[MatrixKey(k2, i)]
    ensures forall k2 :: 1 <= k2 <= 3 && k2 != k && VectorKey(k2) in row ==>
      Written(row, k, f)[VectorKey(k2)] == row[VectorKey(k2)]
  {
    AllKeysDistinct();
  }

  predicate AllShaped(ops: seq<Operator>) {
    forall j :: 0 <= j < |ops| ==> WellShaped(ops[j])
  }

  /** The rows the operators build, in order. */
  function Rows(ops: seq<Operator>): (rows: seq<Row>)
    requires AllShaped(ops)
    ensures |rows| == |ops| && forall j :: 0 <= j < |ops| ==> rows[j] == OperatorRow(ops[j])
  {
    if ops == [] then [] else Rows(ops[..|ops| - 1]) + [OperatorRow(ops[|ops| - 1])]
  }

  /** What the intended flush records for the operators, in order. */
  function CellsOf(ops: seq<Operator>): (ts: seq<Transformation>)
    requires AllShaped(ops)
    ensures |ts| == |ops| && forall j :: 0 <= j < |ops| ==> ts[j] == Cells(ops[j])
  {
    if ops == [] then [] else CellsOf(ops[..|ops| - 1]) + [Cells(ops[|ops| - 1])]
  }

  /** Running `a + b` runs `a`, then `b` from where `a` left off. */
  lemma {:induction false} RunLinesAppend(p: Parse, a: seq<Line>, b: seq<Line>)
    ensures RunLines(p, a + b) == (match RunLines(p, a) case Err(e) => Err(e) case Ok(q) => RunLines(q, b))
    decreases |a|
  {
    if a != [] {
      assert (a + b)[0] == a[0] && (a + b)[1..] == a[1..] + b;
      match StepFixed(p, a[0])
      case Err(e) =>
      case Ok(q) => RunLinesAppend(q, a[1..], b);
    } else {
      assert a + b == b;
    }
  }

  lemma AppendAssoc<T>(a: seq<T>, b: seq<T>, c: seq<T>)
    ensures a + b + c == a + (b + c)
  {
  }

  lemma RunThen(p: Parse, a: seq<Line>, b: seq<Line>, q: Parse)
    requires RunLines(p, a) == Ok(q)
    ensures RunLines(p, a + b) == RunLines(q, b)
  {
    RunLinesAppend(p, a, b);
  }

  /** The three BIOMT lines of an operator add its row to `_biomt`. */
  lemma OperatorSteps(p: Parse, op: Operator)
    requires WellShaped(op)
    ensures RunLines(p, [OperatorLine(op, 1), OperatorLine(op, 2), OperatorLine(op, 3)]) ==
      Ok(p.(biomt := p.biomt + [OperatorRow(op)]))
  {
    var ls := [OperatorLine(op, 1), OperatorLine(op, 2), OperatorLine(op, 3)];
    var w1 := Written(map[], 1, ls[0].fields);
    var w2 := Written(w1, 2, ls[1].fields);
    var q1 := p.(biomt := p.biomt + [w1]);
    var q2 := p.(biomt := p.biomt + [w2]);
    var q3 := p.(biomt := p.biomt + [OperatorRow(op)]);
    OperatorLineSteps(p, op);
    assert ls[1..] == [ls[1], ls[2]] && ls[1..][1..] == [ls[2]] && ls[1..][1..][1..] == [];
    assert RunLines(q2, ls[1..][1..]) == RunLines(q3, []) == Ok(q3);
    assert RunLines(q1, ls[1..]) == RunLines(q2, ls[1..][1..]);
    assert RunLines(p, ls) == RunLines(q1, ls[1..]);
  }

  /** Each of the three BIOMT lines of an operator, one step at a time. */
  lemma OperatorLineSteps(p: Parse, op: Operator)
    requires WellShaped(op)
    ensures var w1 := Written(map[], 1, OperatorLine(op, 1).fields);
      var w2 := Written(w1, 2, OperatorLine(op, 2).fields);
      && StepFixed(p, OperatorLine(op, 1)) == Ok(p.(biomt := p.biomt + [w1]))
      && StepFixed(p.(biomt := p.biomt + [w1]), OperatorLine(op, 2)) == Ok(p.(biomt := p.biomt + [w2]))
      && StepFixed(p.(biomt := p.biomt + [w2]), OperatorLine(op, 3)) == Ok(p.(biomt := p.biomt + [OperatorRow(op)]))
  {
    StepLine1(p, op);
    StepLine2(p, op);
    StepLine3(p, op);
  }

  /** The first BIOMT line opens a new row with matrix row 1. */
  lemma StepLine1(p: Parse, op: Operator)
    requires WellShaped(op)
    ensures StepFixed(p, OperatorLine(op, 1)) == Ok(p.(biomt := p.biomt + [Written(map[], 1, OperatorLine(op, 1).fields)]))
  {
    assert [Digit(1)] == "1";
  }

  /** The second BIOMT line, after a complete first row, adds matrix row 2 to the open row. */
  lemma StepLine2(p: Parse, op: Operator)
    requires WellShaped(op)
    ensures var w1 := Written(map[], 1, OperatorLine(op, 1).fields);
      var w2 := Written(w1, 2, OperatorLine(op, 2).fields);
      StepFixed(p.(biomt := p.biomt + [w1]), OperatorLine(op, 2)) == Ok(p.(biomt := p.biomt + [w2]))
  {
    assert [Digit(2)] == "2";
    var w1 := Written(map[], 1, OperatorLine(op, 1).fields);
    var q1 := p.(biomt := p.biomt + [w1]);
    assert Complete(w1, 1);
    assert q1.biomt[..|q1.biomt| - 1] == p.biomt;
  }

  /** The third BIOMT line completes the open row into the operator's row. */
  lemma StepLine3(p: Parse, op: Operator)
    requires WellShaped(op)
    ensures var w1 := Written(map[], 1, OperatorLine(op, 1).fields);
      var w2 := Written(w1, 2, OperatorLine(op, 2).fields);
      StepFixed(p.(biomt := p.biomt + [w2]), OperatorLine(op, 3)) == Ok(p.(biomt := p.biomt + [OperatorRow(op)]))
  {
    assert [Digit(3)] == "3";
    var w1 := Written(map[], 1, OperatorLine(op, 1).fields);
    var w2 := Written(w1, 2, OperatorLine(op, 2).fields);
    var q2 := p.(biomt := p.biomt + [w2]);
    assert Complete(w2, 2);
    assert q2.biomt[..|q2.biomt| - 1] == p.biomt;
  }

  /** The BIOMT lines of all operators add their rows to `_biomt`, in order. */
  lemma {:induction false} OperatorsRun(p: Parse, ops: seq<Operator>)
    requires AllShaped(ops)
    ensures RunLines(p, OperatorLines(ops)) == Ok(p.(biomt := p.biomt + Rows(ops)))
  {
    if ops == [] {
      assert p.biomt + [] == p.biomt;
    } else {
      var init, op := ops[..|ops| - 1], ops[|ops| - 1];
      var ls := [OperatorLine(op, 1), OperatorLine(op, 2), OperatorLine(op, 3)];
      assert AllShaped(init);
      assert OperatorLines(ops) == OperatorLines(init) + ls;
      OperatorsRun(p, init);
      var q := p.(biomt := p.biomt + Rows(init));
      RunThen(p, OperatorLines(init), ls, q);
      OperatorSteps(q, op);
      assert Rows(ops) == Rows(init) + [OperatorRow(op)];
      AppendAssoc(p.biomt, Rows(init), [OperatorRow(op)]);
    }
  }

  /** The rows of the operators yield, in order, what each operator says. */
  lemma RowsTransformations(ops: seq<Operator>)
    requires AllShaped(ops)
    ensures TransformationsOf(Rows(ops)) == Ok(CellsOf(ops))
  {
    forall j | 0 <= j < |ops| ensures GetRotation(Rows(ops)[j]).Ok? && GetTranslation(Rows(ops)[j]).Ok? &&
      Transformation(GetRotation(Rows(ops)[j]).value, GetTranslation(Rows(ops)[j]).value) == CellsOf(ops)[j]
    {
      OperatorRowTransformation(ops[j]);
    }
    assert TransformationsOf(Rows(ops)).value == CellsOf(ops);
  }

  /** One assembly of a well-formed REMARK 350 block. */
  datatype Assembly = Assembly(biomolecule: string, chains: string, ops: seq<Operator>)

  /** Its lines: BIOMOLECULE, the chains, then three BIOMT lines per operator. */
  function AssemblyLines(a: Assembly): seq<Line>
    requires AllShaped(a.ops)
  {
    [BiomoleculeLine(a.biomolecule), ChainsLine(a.chains)] + OperatorLines(a.ops)
  }

  /** An assembly another can follow: it has chains and operators. */
  predicate WellFormed(a: Assembly) {
    AllShaped(a.ops) && a.ops != [] && RemoveChar(a.chains, ' ') != []
  }

  predicate AllWellFormed(s: seq<Assembly>) {
    forall j :: 0 <= j < |s| ==> WellFormed(s[j])
  }

  /** All lines of all assemblies, in order. */
  function AllLines(s: seq<Assembly>): seq<Line>
    requires AllWellFormed(s)
  {
    if s == [] then [] else AllLines(s[..|s| - 1]) + AssemblyLines(s[|s| - 1])
  }

  /** The entry the intended parser records for an assembly. */
  function EntryOf(a: Assembly): Entry
    requires AllShaped(a.ops)
  {
    Entry(Some(RemoveChar(a.chains, ' ')), CellsOf(a.ops))
  }

  /** The assemblies recorded, keyed by biomolecule. */
  function Recorded(s: seq<Assembly>): map<string, Entry>
    requires AllWellFormed(s)
  {
    if s == [] then map[] else Recorded(s[..|s| - 1])[s[|s| - 1].biomolecule := EntryOf(s[|s| - 1])]
  }

  predicate DistinctBiomolecules(s: seq<Assembly>) {
    forall i, j :: 0 <= i < j < |s| ==> s[i].biomolecule != s[j].biomolecule
  }

  lemma {:induction false} RecordedKeys(s: seq<Assembly>)
    requires AllWellFormed(s)
    ensures Recorded(s).Keys == set a | a in s :: a.biomolecule
  {
    if s != [] {
      assert AllWellFormed(s[..|s| - 1]);
      RecordedKeys(s[..|s| - 1]);
      assert s == s[..|s| - 1] + [s[|s| - 1]];
    }
  }

  /** The state once all assemblies are read: the last one is still open. */
  function Open(s: seq<Assembly>): Parse
    requires AllWellFormed(s) && s != []
  {
    var a := s[|s| - 1];
    Parse(Some(a.biomolecule), Some(RemoveChar(a.chains, ' ')), Rows(a.ops), Recorded(s[..|s| - 1]))
  }

  /** The flush of an open assembly records it beside the earlier ones. */
  lemma {:induction false} FlushOpen(s: seq<Assembly>)
    requires AllWellFormed(s) && DistinctBiomolecules(s) && s != []
    ensures FlushFixed(Open(s)) == Ok(Parse(Some(s[|s| - 1].biomolecule), None, [], Recorded(s)))
  {
    var init, a := s[..|s| - 1], s[|s| - 1];
    assert AllWellFormed(init);
    var p := Open(s);
    assert p == Parse(Some(a.biomolecule), Some(RemoveChar(a.chains, ' ')), Rows(a.ops), Recorded(init));
    NotYetRecorded(s);
    var e := Entry(p.chains, CellsOf(a.ops));
    assert e == EntryOf(a);
    assert Recorded(s) == Recorded(init)[a.biomolecule := e];
    FlushRecords(p, a.biomolecule, a.ops);
  }

  /** Flushing rows built by well-shaped operators records their cells. */
  lemma FlushRecords(p: Parse, b: string, ops: seq<Operator>)
    requires p.biomolecule == Some(b) && b !in p.data && AllShaped(ops) && p.biomt == Rows(ops)
    ensures FlushFixed(p) == Ok(Parse(p.biomolecule, None, [], p.data[b := Entry(p.chains, CellsOf(ops))]))
  {
    RowsTransformations(ops);
  }

  /** The biomolecule of the last assembly is none of the earlier ones'. */
  lemma NotYetRecorded(s: seq<Assembly>)
    requires AllWellFormed(s) && DistinctBiomolecules(s) && s != []
    ensures s[|s| - 1].biomolecule !in Recorded(s[..|s| - 1])
  {
    var init := s[..|s| - 1];
    assert AllWellFormed(init);
    RecordedKeys(init);
  }

  /** The lines of one assembly, read after the previous one (or at the
      start), flush the previous one and leave this one open. */
  lemma AssemblyRun(p: Parse, a: Assembly, rec: map<string, Entry>)
    requires WellFormed(a)
    requires (p == Start && rec == map[]) ||
      (p.biomolecule.Some? && Truthy(p.chains) && p.biomt != [] &&
       FlushFixed(p) == Ok(Parse(p.biomolecule, None, [], rec)))
    ensures RunLines(p, AssemblyLines(a)) ==
      Ok(Parse(Some(a.biomolecule), Some(RemoveChar(a.chains, ' ')), Rows(a.ops), rec))
  {
    var al := AssemblyLines(a);
    assert al[0] == BiomoleculeLine(a.biomolecule) && al[1] == ChainsLine(a.chains);
    assert al[1..][1..] == OperatorLines(a.ops);
    var p1 := Parse(Some(a.biomolecule), None, [], rec);
    assert StepFixed(p, al[0]) == Ok(p1);
    var p2 := p1.(chains := Some(RemoveChar(a.chains, ' ')));
    assert StepFixed(p1, al[1]) == Ok(p2);
    OperatorsRun(p2, a.ops);
    assert [] + Rows(a.ops) == Rows(a.ops);
    assert RunLines(p1, al[1..]) == RunLines(p2, al[1..][1..]);
    assert RunLines(p, al) == RunLines(p1, al[1..]);
  }

  /** Reading the assemblies one after the other leaves every assembly but
      the last recorded and the last one open. */
  lemma {:induction false} AssembliesRun(s: seq<Assembly>)
    requires AllWellFormed(s) && DistinctBiomolecules(s) && s != []
    ensures RunLines(Start, AllLines(s)) == Ok(Open(s))
  {
    var init, a := s[..|s| - 1], s[|s| - 1];
    assert AllWellFormed(init);
    RunLinesAppend(Start, AllLines(init), AssemblyLines(a));
    if init == [] {
      assert AllLines(s) == AssemblyLines(a);
      AssemblyRun(Start, a, map[]);
    } else {
      assert DistinctBiomolecules(init);
      AssembliesRun(init);
      FlushOpen(init);
      AssemblyRun(Open(init), a, Recorded(init));
    }
  }

  /** The evident intent of `process_lines`: text whose REMARK 350 lines
      read as a sequence of well-formed assemblies with different
      biomolecule ids yields exactly one entry per assembly — its chains
      without spaces, and one transformation per operator in file order,
      rotation transposed. */
  lemma ProcessIntended(text: seq<string>, s: seq<Assembly>)
    requires AllWellFormed(s) && DistinctBiomolecules(s) && s != []
    requires ReadAs(text, AllLines(s))
    ensures ProcessFixed(text) == Ok(Recorded(s))
  {
    RunTextLines(Start, text, AllLines(s));
    AssembliesRun(s);
    FlushOpen(s);
  }
}
