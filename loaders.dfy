/** The file-name heuristics of kmbio/PDB/io/loaders.py: `guess_pdb_id`
    recovers a PDB id from a path or address, `guess_pdb_type` the file
    format. Both are checked against the addresses the download routes
    build. */
module Loaders {
  import opened Wrappers
  import opened PyStrings
  import opened Routes

  // ---------------------------------------------------------------------
  // Paths

  /** `os.path.basename(path)`: what follows the last '/'. */
  function Basename(path: string): (r: string)
    ensures '/' !in r && |r| <= |path|
    ensures r == path[|path| - |r|..]
    ensures |r| < |path| ==> path[|path| - |r| - 1] == '/'
  {
    if path == [] || path[|path| - 1] == '/' then []
    else
      var r := Basename(path[..|path| - 1]);
      assert path[|path| - |r| - 1..] == path[..|path| - 1][|path| - 1 - |r|..] + [path[|path| - 1]];
      r + [path[|path| - 1]]
  }

  /** The base name of `a/b` is `b` when `b` holds no '/'. */
  lemma {:induction false} BasenameAfter(a: string, b: string)
    requires '/' !in b
    ensures Basename(a + "/" + b) == b
    decreases |b|
  {
    if b != [] {
      var b' := b[..|b| - 1];
      assert (a + "/" + b)[..|a + "/" + b| - 1] == a + "/" + b';
      BasenameAfter(a, b');
      assert b' + [b[|b| - 1]] == b;
    }
  }

  /** `s.partition(p)[0]`: `s` up to the first occurrence of `p`, or all of
      `s` when `p` does not occur. */
  function CutAt(s: string, p: string): (r: string)
    ensures r <= s
    ensures r == s || StartsWith(s[|r|..], p)
    ensures forall i :: 0 <= i < |r| ==> !StartsWith(s[i..], p)
  {
    if StartsWith(s, p) then []
    else if s == [] then []
    else
      var r := CutAt(s[1..], p);
      assert forall i :: 1 <= i <= |s| ==> s[i..] == s[1..][i - 1..];
      [s[0]] + r
  }

  /** A prefix holding no first character of `p` is kept whole. */
  lemma {:induction false} CutAtSkip(x: string, y: string, p: string)
    requires p != [] && p[0] !in x
    ensures CutAt(x + y, p) == x + CutAt(y, p)
  {
    if x != [] {
      assert (x + y)[1..] == x[1..] + y;
      assert !StartsWith(x + y, p) by {
        assert (x + y)[0] == x[0];
      }
      CutAtSkip(x[1..], y, p);
      assert [x[0]] + x[1..] == x;
    } else {
      assert x + y == y;
    }
  }

  /** `p` occurs at the start of `p + z`. */
  lemma CutAtOwn(p: string, z: string)
    ensures CutAt(p + z, p) == []
  {
    assert (p + z)[..|p|] == p;
  }

  /** An extension `p` does not occur at a '.' followed by a word that
      does not start as `p` goes on. */
  lemma CutAtWord(w: string, y: string, p: string)
    requires '.' !in w && w != [] && |p| >= 2 && p[0] == '.' && w[0] != p[1]
    ensures CutAt("." + w + y, p) == "." + w + CutAt(y, p)
  {
    var s := "." + w + y;
    assert s[1] == w[0];
    assert !StartsWith(s, p);
    assert s[1..] == w + y;
    CutAtSkip(w, y, p);
  }

  /** The extensions `guess_pdb_id` cuts off, in its order. */
  const Extensions: seq<string> := [".gz", ".pdb", ".ent", ".cif"]

  /** Cutting at each extension of `exts` in turn. */
  function CutAll(s: string, exts: seq<string>): (r: string)
    ensures r <= s
  {
    if exts == [] then s
    else CutAt(CutAll(s, exts[..|exts| - 1]), exts[|exts| - 1])
  }

  /** One more extension cut. */
  lemma CutAllStep(s: string, exts: seq<string>, i: nat)
    requires i < |exts|
    ensures CutAll(s, exts[..i + 1]) == CutAt(CutAll(s, exts[..i]), exts[i])
  {
    assert exts[..i + 1][..i] == exts[..i];
  }

  /** Extensions all start with '.', so a stem without a '.' survives them. */
  lemma {:induction false} CutAllSkip(x: string, y: string, exts: seq<string>)
    requires '.' !in x
    requires forall j :: 0 <= j < |exts| ==> exts[j] != [] && exts[j][0] == '.'
    ensures CutAll(x + y, exts) == x + CutAll(y, exts)
  {
    if exts != [] {
      CutAllSkip(x, y, exts[..|exts| - 1]);
      CutAtSkip(x, CutAll(y, exts[..|exts| - 1]), exts[|exts| - 1]);
    }
  }

  /** A seven-character name starting with "ent" or "pdb" is a PDB file name
      of the form `pdbXXXX`; the id is the last four characters. */
  function ShortStem(stem: string): (r: string)
    ensures |stem| == 7 && (StartsWith(stem, "ent") || StartsWith(stem, "pdb")) ==> |r| == 4 && r == stem[3..]
    ensures !(|stem| == 7 && (StartsWith(stem, "ent") || StartsWith(stem, "pdb"))) ==> r == stem
  {
    if |stem| == 7 && (StartsWith(stem, "ent") || StartsWith(stem, "pdb")) then stem[3..] else stem
  }

  /** The id `guess_pdb_id` makes of a path: lower case and free of '.'. */
  function PdbIdOf(path: string): (r: string)
    ensures '.' !in r && '/' !in r
    ensures forall x :: x in r ==> !('A' <= x <= 'Z')
  {
    var stem := ShortStem(CutAll(Basename(path), Extensions));
    StemFree(Basename(path), Extensions);
    var low := Lower(stem);
    LowerFree(stem);
    RemoveChar(low, '.')
  }

  /** The stem is a slice of the base name, so holds no '/'. */
  lemma StemFree(base: string, exts: seq<string>)
    requires '/' !in base
    ensures '/' !in ShortStem(CutAll(base, exts))
  {
    var cut := CutAll(base, exts);
    assert forall i :: 0 <= i < |cut| ==> cut[i] == base[i];
    assert '/' !in cut;
  }

  /** Lower-casing leaves no capital, and adds no '/'. */
  lemma LowerFree(s: string)
    requires '/' !in s
    ensures forall x :: x in Lower(s) ==> !('A' <= x <= 'Z') && x != '/'
  {
    var low := Lower(s);
    forall x | x in low ensures !('A' <= x <= 'Z') && x != '/' {
      var i :| 0 <= i < |low| && low[i] == x;
      assert s[i] in s;
    }
  }

  lemma TakeAll<T>(s: seq<T>)
    ensures s[..|s|] == s
  {
  }

  /** `guess_pdb_id(pdb_file)`: the base name, cut before each extension in
      turn, stripped of a `pdb`/`ent` prefix when it then has seven
      characters, lower-cased and without any '.'. */
  method GuessPdbId(path: string) returns (id: string)
    ensures id == PdbIdOf(path)
  {
    var base := Basename(path);
    var pdbId := base;
    var extensions := Extensions;
    for i := 0 to |extensions|
      invariant pdbId == CutAll(base, extensions[..i])
    {
      CutAllStep(base, extensions, i);
      pdbId := CutAt(pdbId, extensions[i]);
    }
    TakeAll(extensions);
    ghost var cut := pdbId;
    if |pdbId| == 7 && (StartsWith(pdbId, "ent") || StartsWith(pdbId, "pdb")) {
      pdbId := pdbId[3..];
      assert |pdbId| == 4;
    }
    assert pdbId == ShortStem(cut);
    pdbId := Lower(pdbId);
    id := RemoveChar(pdbId, '.');
  }

  // ---------------------------------------------------------------------
  // File types

  /** The separators of the pattern `/|\.|:`. */
  predicate IsSep(c: char) {
    c == '/' || c == '.' || c == ':'
  }

  predicate SepFree(s: string) {
    forall x :: x in s ==> !IsSep(x)
  }

  /** `re.split('/|\.|:', s)`: the pieces between separators, empty ones
      included. */
  function Chunks(s: string): (cs: seq<string>)
    ensures |cs| >= 1
    ensures forall i :: 0 <= i < |cs| ==> SepFree(cs[i])
  {
    if s == [] then [[]]
    else
      var rest := Chunks(s[1..]);
      if IsSep(s[0]) then [[]] + rest
      else
        assert SepFree(rest[0]);
        [[s[0]] + rest[0]] + rest[1..]
  }

  /** A text without separators is one chunk. */
  lemma {:induction false} ChunksFree(a: string)
    requires SepFree(a)
    ensures Chunks(a) == [a]
  {
    if a != [] {
      ChunksFree(a[1..]);
      assert [a[0]] + a[1..] == a;
    }
  }

  /** The first chunk ends at the first separator. */
  lemma {:induction false} ChunksSplit(a: string, c: char, b: string)
    requires SepFree(a) && IsSep(c)
    ensures Chunks(a + [c] + b) == [a] + Chunks(b)
  {
    if a == [] {
      assert a + [c] + b == [c] + b;
      assert ([c] + b)[1..] == b;
    } else {
      assert (a + [c] + b)[1..] == a[1..] + [c] + b;
      ChunksSplit(a[1..], c, b);
      assert [a[0]] + a[1..] == a;
    }
  }

  /** The last chunk starts after the last separator. */
  lemma {:induction false} ChunksLast(a: string, c: char, b: string)
    requires SepFree(b) && IsSep(c)
    ensures Chunks(a + [c] + b) == Chunks(a) + [b]
  {
    if a == [] {
      assert a + [c] + b == [c] + b;
      assert ([c] + b)[1..] == b;
      ChunksFree(b);
    } else {
      assert (a + [c] + b)[1..] == a[1..] + [c] + b;
      ChunksLast(a[1..], c, b);
    }
  }

  /** Where the leading digits of `s[i..]` end. */
  function SkipDigits(s: string, i: nat): (j: nat)
    requires i <= |s|
    ensures i <= j <= |s| && (j == |s| || !IsDigit(s[j]))
    ensures forall k :: i <= k < j ==> IsDigit(s[k])
    decreases |s| - i
  {
    if i == |s| || !IsDigit(s[i]) then i else SkipDigits(s, i + 1)
  }

  /** Where the trailing digits of `s[lo..j]` start. */
  function TrimDigits(s: string, lo: nat, j: nat): (k: nat)
    requires lo <= j <= |s|
    ensures lo <= k <= j && (k == lo || !IsDigit(s[k - 1]))
    ensures forall x :: k <= x < j ==> IsDigit(s[x])
  {
    if j == lo || !IsDigit(s[j - 1]) then j else TrimDigits(s, lo, j - 1)
  }

  /** `s.strip(string.digits)`: `s` without its leading and trailing
      digits. */
  function StripDigits(s: string): (r: string)
    ensures |r| <= |s|
    ensures r == [] || (!IsDigit(r[0]) && !IsDigit(r[|r| - 1]))
  {
    var i := SkipDigits(s, 0);
    var j := TrimDigits(s, i, |s|);
    s[i..j]
  }

  /** Stripping digits cuts a slice out of `s` with only digits on either
      side of it. */
  lemma StripDigitsSlice(s: string)
    ensures exists i, j :: (0 <= i <= j <= |s| && StripDigits(s) == s[i..j] &&
      (forall k :: 0 <= k < i ==> IsDigit(s[k])) && (forall k :: j <= k < |s| ==> IsDigit(s[k])))
  {
    var i := SkipDigits(s, 0);
    var j := TrimDigits(s, i, |s|);
    assert StripDigits(s) == s[i..j];
  }

  /** The format a word names: "pdb" and "ent" name PDB files, "cif" and
      "mmcif" mmCIF files, "mmtf" MMTF files. */
  function KindOf(c: string): (k: Option<string>)
    ensures k.Some? ==> k.value in {"pdb", "cif", "mmtf"}
  {
    if c == "pdb" || c == "ent" then Some("pdb")
    else if c == "cif" || c == "mmcif" then Some("cif")
    else if c == "mmtf" then Some("mmtf")
    else None
  }

  /** The format a chunk names once lower-cased and stripped of digits. */
  function ChunkKind(chunk: string): (k: Option<string>)
    ensures k.Some? ==> k.value in {"pdb", "cif", "mmtf"}
  {
    KindOf(StripDigits(Lower(chunk)))
  }

  /** The format each chunk names, if any. */
  function Kinds(cs: seq<string>): (ks: seq<Option<string>>)
    ensures |ks| == |cs| && forall i :: 0 <= i < |cs| ==> ks[i] == ChunkKind(cs[i])
  {
    seq(|cs|, i requires 0 <= i < |cs| => ChunkKind(cs[i]))
  }

  /** The first format named; an Exception when none is. */
  function FirstSome(ks: seq<Option<string>>): (r: Result<string>)
    ensures r.Err? <==> forall i :: 0 <= i < |ks| ==> ks[i].None?
    ensures r.Err? ==> r.error == Unrecognized
    ensures r.Ok? ==> exists i :: (0 <= i < |ks| && ks[i] == Some(r.value) &&
      forall j :: 0 <= j < i ==> ks[j].None?)
  {
    if ks == [] then Err(Unrecognized)
    else if ks[0].Some? then Ok(ks[0].value)
    else
      var r := FirstSome(ks[1..]);
      if r.Ok? then
        var i :| 0 <= i < |ks[1..]| && ks[1..][i] == Some(r.value) &&
          forall j :: 0 <= j < i ==> ks[1..][j].None?;
        assert ks[i + 1] == Some(r.value);
        r
      else r
  }

  /** `guess_pdb_type(pdb_file)`: the format named by the first chunk of the
      name, splitting at '/', '.' and ':'. */
  method GuessPdbType(path: string) returns (r: Result<string>)
    ensures r == TypeFromStart(path)
  {
    var chunks := Chunks(path);
    ghost var ks := Kinds(chunks);
    for i := 0 to |chunks|
      invariant FirstSome(ks) == FirstSome(ks[i..])
    {
      var kind := ChunkKind(chunks[i]);
      if kind.Some? {
        return Ok(kind.value);
      }
      assert ks[i..][1..] == ks[i + 1..];
    }
    r := Err(Unrecognized);
  }

  /** The last format named: the reading of a file name in which its
      extension decides. */
  function LastSome(ks: seq<Option<string>>): (r: Result<string>)
    ensures r.Err? <==> forall i :: 0 <= i < |ks| ==> ks[i].None?
    ensures r.Err? ==> r.error == Unrecognized
    ensures r.Ok? ==> exists i :: (0 <= i < |ks| && ks[i] == Some(r.value) &&
      forall j :: i < j < |ks| ==> ks[j].None?)
  {
    if ks == [] then Err(Unrecognized)
    else if ks[|ks| - 1].Some? then Ok(ks[|ks| - 1].value)
    else
      var init := ks[..|ks| - 1];
      var r := LastSome(init);
      if r.Ok? then
        var i :| 0 <= i < |init| && init[i] == Some(r.value) &&
          forall j :: i < j < |init| ==> init[j].None?;
        assert ks[i] == Some(r.value);
        assert forall j :: i < j < |ks| ==> ks[j].None? by {
          forall j | i < j < |ks| ensures ks[j].None? {
            if j < |init| {
              assert ks[j] == init[j];
            }
          }
        }
        r
      else r
  }

  /** The file type `guess_pdb_type` reads in a name: the format the first
      chunk naming one names. */
  function TypeFromStart(path: string): (r: Result<string>)
    ensures r.Ok? ==> r.value in {"pdb", "cif", "mmtf"}
  {
    FirstSome(Kinds(Chunks(path)))
  }

  /** The file type read from the end of a name: the format the last chunk
      naming one names, so that the extension decides. */
  function TypeFromEnd(path: string): (r: Result<string>)
    ensures r.Ok? ==> r.value in {"pdb", "cif", "mmtf"}
  {
    LastSome(Kinds(Chunks(path)))
  }

  // ---------------------------------------------------------------------
  // Route addresses

  /** A PDB id as the routes are given one: four characters, lower case,
      no separators. */
  ghost predicate IsPdbId(id: string) {
    |id| == 4 && SepFree(id) && Lower(id) == id
  }

  /** The id of every address a route builds is the id it was built for. */
  lemma RouteId(route: Route, id: string, t: string)
    requires IsPdbId(id) && t in Serves(route)
    ensures PdbIdOf(Url(route, id, t).value) == id
  {
    match route
    case Rcsb => RcsbId(id, t);
    case Ebi => EbiId(id, t);
    case Wwpdb => WwpdbId(id, t);
  }

  lemma RcsbId(id: string, t: string)
    requires IsPdbId(id) && t in Serves(Rcsb)
    ensures PdbIdOf(RcsbUrl(id, t).value) == id
  {
    var url := RcsbUrl(id, t).value;
    if t == "mmtf" {
      assert url == "http://mmtf.rcsb.org/v1.0/full" + "/" + id;
      NameId("http://mmtf.rcsb.org/v1.0/full", id, "", "", false, id);
    } else {
      assert url == "http://files.rcsb.org/download" + "/" + (id + ("." + t + ".gz"));
      NameId("http://files.rcsb.org/download", id, "", t, true, id + ("." + t + ".gz"));
    }
  }

  lemma EbiId(id: string, t: string)
    requires IsPdbId(id) && t in Serves(Ebi)
    ensures PdbIdOf(EbiUrl(id, t).value) == id
  {
    var url := EbiUrl(id, t).value;
    var dir := "http://www.ebi.ac.uk/pdbe/entry-files/download";
    if t == "pdb" {
      assert url == dir + "/" + ("pdb" + id + (".ent" + ""));
      NameId(dir, id, "pdb", "ent", false, "pdb" + id + (".ent" + ""));
    } else {
      assert url == dir + "/" + (id + (".cif" + ""));
      NameId(dir, id, "", "cif", false, id + (".cif" + ""));
    }
  }

  lemma WwpdbId(id: string, t: string)
    requires IsPdbId(id) && t in Serves(Wwpdb)
    ensures PdbIdOf(WwpdbUrl(id, t).value) == id
  {
    var url := WwpdbUrl(id, t).value;
    var dir := "ftp://ftp.wwpdb.org/pub/pdb/data/structures/divided/";
    if t == "pdb" {
      assert url == dir + "pdb" + "/" + id[1..3] + "/" + ("pdb" + id + ".ent.gz");
      NameId(dir + "pdb" + "/" + id[1..3], id, "pdb", "ent", true, "pdb" + id + ".ent.gz");
    } else {
      assert url == dir + "mmCIF" + "/" + id[1..3] + "/" + (id + ".cif.gz");
      NameId(dir + "mmCIF" + "/" + id[1..3], id, "", "cif", true, id + ".cif.gz");
    }
  }

  /** The file `dir/name` with `name` the id, maybe after "pdb", maybe
      followed by `.w` and `.gz`: its id is the id. */
  lemma NameId(dir: string, id: string, prefix: string, w: string, gz: bool, name: string)
    requires IsPdbId(id) && prefix in {"", "pdb"} && (w == "" ==> !gz)
    requires w in {"", "pdb", "cif", "ent"}
    requires name == prefix + id + (if w == "" then "" else "." + w + (if gz then ".gz" else ""))
    ensures PdbIdOf(dir + "/" + name) == id
  {
    assert '/' !in name by {
      assert '/' !in id;
    }
    BasenameAfter(dir, name);
    NameStem(id, prefix, w, gz, name);
    assert '.' !in id;
  }

  /** The stem of such a name, after the extensions and the "pdb" are cut
      off, is the id. */
  lemma NameStem(id: string, prefix: string, w: string, gz: bool, name: string)
    requires IsPdbId(id) && prefix in {"", "pdb"} && (w == "" ==> !gz)
    requires w in {"", "pdb", "cif", "ent"}
    requires name == prefix + id + (if w == "" then "" else "." + w + (if gz then ".gz" else ""))
    ensures ShortStem(CutAll(name, Extensions)) == id
  {
    assert '.' !in prefix + id by {
      assert '.' !in id;
    }
    var ext := if w == "" then "" else "." + w + (if gz then ".gz" else "");
    assert forall j :: 0 <= j < |Extensions| ==> Extensions[j] != [] && Extensions[j][0] == '.';
    CutAllSkip(prefix + id, ext, Extensions);
    if w == "" {
      CutAllExtensions([]);
    } else {
      CutAllSuffix(w, gz);
    }
    assert CutAll(name, Extensions) == prefix + id + [];
    if prefix == "pdb" {
      PdbStem(id);
    } else {
      assert prefix + id + [] == id;
    }
  }

  /** `pdbXXXX` loses its "pdb". */
  lemma PdbStem(id: string)
    requires |id| == 4
    ensures ShortStem("pdb" + id) == id
  {
    var stem := "pdb" + id;
    assert stem[..3] == "pdb";
    assert stem[3..] == id;
  }

  /** `CutAll` over `Extensions`, written out. */
  lemma CutAllExtensions(s: string)
    ensures CutAll(s, Extensions) == CutAt(CutAt(CutAt(CutAt(s, ".gz"), ".pdb"), ".ent"), ".cif")
  {
    var e := Extensions;
    assert e[..1][..0] == [] && e[..1][0] == ".gz";
    assert CutAll(s, e[..1]) == CutAt(s, ".gz");
    assert e[..2][..1] == e[..1] && e[..2][1] == ".pdb";
    assert CutAll(s, e[..2]) == CutAt(CutAll(s, e[..1]), ".pdb");
    assert e[..3][..2] == e[..2] && e[..3][2] == ".ent";
    assert CutAll(s, e[..3]) == CutAt(CutAll(s, e[..2]), ".ent");
    assert e[..3] == e[..|e| - 1];
  }

  /** The extensions a route appends, `.w` or `.w.gz`, are cut off
      entirely. */
  lemma CutAllSuffix(w: string, gz: bool)
    requires w in {"pdb", "cif", "ent"}
    ensures CutAll("." + w + (if gz then ".gz" else ""), Extensions) == []
  {
    var s := "." + w + (if gz then ".gz" else "");
    CutAllExtensions(s);
    CutOne(w);
    if gz {
      CutGz(s, w);
    } else {
      assert s == "." + w;
    }
  }

  /** `.w.gz` loses its `.gz`. */
  lemma CutGz(s: string, w: string)
    requires w in {"pdb", "cif", "ent"} && s == "." + w + ".gz"
    ensures CutAt(s, ".gz") == "." + w
  {
    CutAtWord(w, ".gz", ".gz");
    CutAtOwn(".gz", []);
    assert ".gz" + [] == ".gz";
  }

  /** `.w` for one of the extensions is cut down to nothing by the rest of
      the extensions, and is left alone by ".gz". */
  lemma CutOne(w: string)
    requires w in {"pdb", "cif", "ent"}
    ensures CutAt(CutAt(CutAt(CutAt("." + w, ".gz"), ".pdb"), ".ent"), ".cif") == []
    ensures CutAt(CutAt(CutAt("." + w, ".pdb"), ".ent"), ".cif") == []
  {
    CutNoGz(w);
    CutRest(w);
  }

  lemma CutNoGz(w: string)
    requires w in {"pdb", "cif", "ent"}
    ensures CutAt("." + w, ".gz") == "." + w
  {
    CutAtWord(w, [], ".gz");
    assert "." + w + [] == "." + w;
    assert CutAt([], ".gz") == [];
  }

  lemma CutRest(w: string)
    requires w in {"pdb", "cif", "ent"}
    ensures CutAt(CutAt(CutAt("." + w, ".pdb"), ".ent"), ".cif") == []
  {
    var s := "." + w;
    CutAtOwn(s, []);
    assert s + [] == s;
    CutEmpty();
    if w == "pdb" {
      assert CutAt(s, ".pdb") == [];
    } else {
      CutAtWord(w, [], ".pdb");
      assert CutAt(s, ".pdb") == s;
      if w == "ent" {
        assert CutAt(s, ".ent") == [];
      } else {
        CutAtWord(w, [], ".ent");
        assert CutAt(s, ".ent") == s;
      }
    }
  }

  lemma CutEmpty()
    ensures CutAt([], ".pdb") == [] && CutAt([], ".ent") == [] && CutAt([], ".cif") == []
  {
  }

  // ---------------------------------------------------------------------
  // What the file type of a route's address is read as

  /** A word `strip(string.digits)` and `lower()` leave alone. */
  ghost predicate Plain(w: string) {
    && (forall x :: x in w ==> !('A' <= x <= 'Z'))
    && (w == [] || (!IsDigit(w[0]) && !IsDigit(w[|w| - 1])))
  }

  /** A word without capitals is its own lower case. */
  lemma LowerPlain(w: string)
    requires forall x :: x in w ==> !('A' <= x <= 'Z')
    ensures Lower(w) == w
  {
    forall i | 0 <= i < |w| ensures Lower(w)[i] == w[i] {
      assert w[i] in w;
    }
  }

  /** A word neither starting nor ending with a digit loses nothing to
      `strip(string.digits)`. */
  lemma StripPlain(w: string)
    requires w == [] || (!IsDigit(w[0]) && !IsDigit(w[|w| - 1]))
    ensures StripDigits(w) == w
  {
  }

  /** A plain word names the format `KindOf` gives it. */
  lemma PlainKind(w: string)
    requires Plain(w)
    ensures ChunkKind(w) == KindOf(w)
  {
    LowerPlain(w);
    StripPlain(w);
  }

  /** A chunk shorter than every format name names none, whatever its
      characters. */
  lemma ShortKind(w: string)
    requires |w| < 3
    ensures ChunkKind(w).None?
  {
    assert |StripDigits(Lower(w))| < 3;
  }

  /** A chunk that names no format: short, or plain and not a name. */
  ghost predicate Unnamed(w: string) {
    SepFree(w) && (|w| < 3 || (Plain(w) && KindOf(w).None?))
  }

  /** A plain chunk that is a format name. */
  ghost predicate Named(w: string) {
    SepFree(w) && Plain(w) && KindOf(w).Some?
  }

  lemma UnnamedKind(w: string)
    requires Unnamed(w)
    ensures ChunkKind(w).None?
  {
    if |w| < 3 {
      ShortKind(w);
    } else {
      PlainKind(w);
    }
  }


  lemma KindsLast(cs: seq<string>, x: string)
    ensures Kinds(cs + [x]) == Kinds(cs) + [ChunkKind(x)]
  {
  }

  lemma KindsFirst(x: string, cs: seq<string>)
    ensures Kinds([x] + cs) == [ChunkKind(x)] + Kinds(cs)
  {
  }

  lemma LastSomeNone(ks: seq<Option<string>>)
    ensures LastSome(ks + [None]) == LastSome(ks)
  {
    assert (ks + [None])[..|ks|] == ks;
  }

  lemma FirstSomeNone(ks: seq<Option<string>>)
    ensures FirstSome([None] + ks) == FirstSome(ks)
  {
    assert ([None] + ks)[1..] == ks;
  }

  /** A last chunk that names no format does not change the reading from
      the end. */
  lemma LastSkip(b: string, c: char, x: string)
    requires IsSep(c) && SepFree(x) && ChunkKind(x).None?
    ensures TypeFromEnd(b + [c] + x) == TypeFromEnd(b)
  {
    ChunksLast(b, c, x);
    KindsLast(Chunks(b), x);
    LastSomeNone(Kinds(Chunks(b)));
  }

  /** A last chunk that names a format decides the reading from the end. */
  lemma LastWord(b: string, c: char, x: string)
    requires IsSep(c) && SepFree(x) && ChunkKind(x).Some?
    ensures TypeFromEnd(b + [c] + x) == Ok(ChunkKind(x).value)
  {
    ChunksLast(b, c, x);
  }

  /** A first chunk that names no format does not change the reading from
      the start. */
  lemma FirstSkip(x: string, c: char, b: string)
    requires IsSep(c) && SepFree(x) && ChunkKind(x).None?
    ensures TypeFromStart(x + [c] + b) == TypeFromStart(b)
  {
    ChunksSplit(x, c, b);
    KindsFirst(x, Chunks(b));
    FirstSomeNone(Kinds(Chunks(b)));
  }

  /** A first chunk that names a format decides the reading from the
      start. */
  lemma FirstWord(x: string, c: char, b: string)
    requires IsSep(c) && SepFree(x) && ChunkKind(x).Some?
    ensures TypeFromStart(x + [c] + b) == Ok(ChunkKind(x).value)
  {
    ChunksSplit(x, c, b);
  }

  /** The reading from the end of a name whose last chunk `w` names no
      format is that of the name without `w` and the separator before it. */
  lemma EndSkip(s: string, i: nat, w: string)
    requires 0 < i <= |s| && s[i..] == w && IsSep(s[i - 1])
    requires SepFree(w) && ChunkKind(w).None?
    ensures TypeFromEnd(s) == TypeFromEnd(s[..i - 1])
  {
    assert s == s[..i - 1] + [s[i - 1]] + w;
    LastSkip(s[..i - 1], s[i - 1], w);
  }

  /** A name whose last chunk `w` names a format is read from the end as
      that format. */
  lemma EndWord(s: string, i: nat, w: string)
    requires 0 < i <= |s| && s[i..] == w && IsSep(s[i - 1])
    requires SepFree(w) && ChunkKind(w).Some?
    ensures TypeFromEnd(s) == Ok(ChunkKind(w).value)
  {
    assert s == s[..i - 1] + [s[i - 1]] + w;
    LastWord(s[..i - 1], s[i - 1], w);
  }

  /** An address ending in `.w`, for an extension `w`, is read from the end
      as the format `w` names. */
  lemma EndsWithType(a: string, w: string)
    requires w in {"pdb", "cif", "ent"}
    ensures TypeFromEnd(a + "." + w) == Ok(KindOf(w).value)
  {
    assert Plain(w) && SepFree(w);
    PlainKind(w);
    var s := a + "." + w;
    assert s[|a| + 1..] == w;
    EndWord(s, |a| + 1, w);
  }

  /** So is one ending in `.w.gz`. */
  lemma EndsWithTypeGz(a: string, w: string)
    requires w in {"pdb", "cif", "ent"}
    ensures TypeFromEnd(a + "." + w + ".gz") == Ok(KindOf(w).value)
  {
    assert Plain("gz") && SepFree("gz");
    PlainKind("gz");
    var s := a + "." + w + ".gz";
    assert s[|s| - 2..] == "gz";
    EndSkip(s, |s| - 2, "gz");
    assert s[..|s| - 3] == a + "." + w;
    EndsWithType(a, w);
  }

  /** Reading the name from the end recovers the file type every route was
      asked for. */
  lemma RouteType(route: Route, id: string, t: string)
    requires IsPdbId(id) && t in Serves(route) && ChunkKind(id).None?
    ensures TypeFromEnd(Url(route, id, t).value) == Ok(t)
  {
    match route
    case Rcsb =>
      if t == "mmtf" {
        MmtfType(id);
      } else {
        RcsbType(id, t);
      }
    case Ebi =>
      EbiType(id, t);
    case Wwpdb =>
      WwpdbType(id, t);
  }

  lemma RcsbType(id: string, t: string)
    requires t in {"pdb", "cif"}
    ensures TypeFromEnd(RcsbUrl(id, t).value) == Ok(t)
  {
    var a := "http://files.rcsb.org/download/" + id;
    assert RcsbUrl(id, t).value == a + "." + t + ".gz";
    EndsWithTypeGz(a, t);
  }

  lemma EbiType(id: string, t: string)
    requires t in {"pdb", "cif"}
    ensures TypeFromEnd(EbiUrl(id, t).value) == Ok(t)
  {
    var dir := "http://www.ebi.ac.uk/pdbe/entry-files/download/";
    if t == "pdb" {
      assert EbiUrl(id, t).value == (dir + "pdb" + id) + "." + "ent";
      EndsWithType(dir + "pdb" + id, "ent");
    } else {
      assert EbiUrl(id, t).value == (dir + id) + "." + "cif";
      EndsWithType(dir + id, "cif");
    }
  }

  lemma WwpdbType(id: string, t: string)
    requires |id| == 4 && t in {"pdb", "cif"}
    ensures TypeFromEnd(WwpdbUrl(id, t).value) == Ok(t)
  {
    var dir := "ftp://ftp.wwpdb.org/pub/pdb/data/structures/divided/";
    if t == "pdb" {
      var a := dir + "pdb" + "/" + id[1..3] + "/pdb" + id;
      assert WwpdbUrl(id, t).value == a + "." + "ent" + ".gz";
      EndsWithTypeGz(a, "ent");
    } else {
      var a := dir + "mmCIF" + "/" + id[1..3] + "/" + id;
      assert WwpdbUrl(id, t).value == a + "." + "cif" + ".gz";
      EndsWithTypeGz(a, "cif");
    }
  }

  /** Words `ws` each joined to what precedes it by the separator in `cs`
      at the same position: `cs[0] + ws[0] + cs[1] + ws[1] + ...`. */
  function Tail(cs: seq<char>, ws: seq<string>): (r: string)
    requires |cs| == |ws|
    ensures |ws| > 0 ==> r == Tail(cs[..|ws| - 1], ws[..|ws| - 1]) + [cs[|ws| - 1]] + ws[|ws| - 1]
  {
    if ws == [] then []
    else
      var n := |ws| - 1;
      Tail(cs[..n], ws[..n]) + [cs[n]] + ws[n]
  }

  /** Words `ws` each followed by the separator in `cs` at the same
      position: `ws[0] + cs[0] + ws[1] + cs[1] + ...`. */
  function Lead(ws: seq<string>, cs: seq<char>): (r: string)
    requires |cs| == |ws|
    ensures |ws| > 0 ==> r == ws[0] + [cs[0]] + Lead(ws[1..], cs[1..])
  {
    if ws == [] then []
    else ws[0] + [cs[0]] + Lead(ws[1..], cs[1..])
  }

  lemma Regroup(a: string, b: string, c: string, d: string)
    ensures a + (b + c + d) == (a + b) + c + d
  {
  }

  /** The last of the chunks `ws` names no format. */
  lemma TailStep(a: string, cs: seq<char>, ws: seq<string>)
    requires |cs| == |ws| > 0
    requires IsSep(cs[|ws| - 1]) && Unnamed(ws[|ws| - 1])
    ensures TypeFromEnd(a + Tail(cs, ws)) == TypeFromEnd(a + Tail(cs[..|ws| - 1], ws[..|ws| - 1]))
  {
    var n := |ws| - 1;
    var t, c, w := Tail(cs[..n], ws[..n]), cs[n], ws[n];
    assert Tail(cs, ws) == t + [c] + w;
    Regroup(a, t, [c], w);
    UnnamedKind(w);
    LastSkip(a + t, c, w);
  }

  /** Chunks that name no format, at the end of a name, do not change its
      reading from the end. */
  lemma {:induction false} EndSkipTail(a: string, cs: seq<char>, ws: seq<string>)
    requires |cs| == |ws|
    requires forall k :: 0 <= k < |cs| ==> IsSep(cs[k]) && Unnamed(ws[k])
    ensures TypeFromEnd(a + Tail(cs, ws)) == TypeFromEnd(a)
  {
    if ws != [] {
      var n := |ws| - 1;
      TailStep(a, cs, ws);
      EndSkipTail(a, cs[..n], ws[..n]);
    } else {
      assert a + Tail(cs, ws) == a;
    }
  }

  /** Chunks that name no format, at the start of a name, do not change its
      reading from the start. */
  lemma {:induction false} StartSkipLead(ws: seq<string>, cs: seq<char>, b: string)
    requires |cs| == |ws|
    requires forall k :: 0 <= k < |cs| ==> IsSep(cs[k]) && Unnamed(ws[k])
    ensures TypeFromStart(Lead(ws, cs) + b) == TypeFromStart(b)
  {
    if ws != [] {
      var rest := Lead(ws[1..], cs[1..]) + b;
      assert Lead(ws, cs) + b == ws[0] + [cs[0]] + rest;
      UnnamedKind(ws[0]);
      FirstSkip(ws[0], cs[0], rest);
      StartSkipLead(ws[1..], cs[1..], b);
    } else {
      assert Lead(ws, cs) + b == b;
    }
  }

  /** A name made of `a`, a chunk `w` naming a format, chunks naming none,
      and a last chunk `x` naming none, is read from the end as `w`'s
      format. */
  lemma EndNamedTail(a: string, c: char, w: string, cs: seq<char>, ws: seq<string>, d: char, x: string)
    requires IsSep(c) && Named(w) && IsSep(d) && SepFree(x) && ChunkKind(x).None?
    requires |cs| == |ws|
    requires forall k :: 0 <= k < |cs| ==> IsSep(cs[k]) && Unnamed(ws[k])
    ensures TypeFromEnd(a + [c] + w + Tail(cs, ws) + [d] + x) == Ok(KindOf(w).value)
  {
    var b := a + [c] + w;
    LastSkip(b + Tail(cs, ws), d, x);
    EndSkipTail(b, cs, ws);
    PlainKind(w);
    LastWord(a, c, w);
  }

  /** A name made of chunks naming no format, a chunk `w` naming one, and
      anything after it, is read from the start as `w`'s format. */
  lemma StartLeadNamed(ws: seq<string>, cs: seq<char>, w: string, c: char, b: string)
    requires |cs| == |ws|
    requires forall k :: 0 <= k < |cs| ==> IsSep(cs[k]) && Unnamed(ws[k])
    requires Named(w) && IsSep(c)
    ensures TypeFromStart(Lead(ws, cs) + w + [c] + b) == Ok(KindOf(w).value)
  {
    Regroup(Lead(ws, cs), w, [c], b);
    StartSkipLead(ws, cs, w + [c] + b);
    PlainKind(w);
    FirstWord(w, c, b);
  }

  /** The chunks after "mmtf" in the MMTF address of RCSB, and the
      separators before them. */
  const MmtfSeps: seq<char> := ['.', '.', '/', '.', '/']
  const MmtfWords: seq<string> := ["rcsb", "org", "v1", "0", "full"]

  /** None of those chunks names a format. */
  lemma MmtfUnnamed()
    ensures |MmtfSeps| == |MmtfWords|
    ensures forall k :: 0 <= k < |MmtfSeps| ==> IsSep(MmtfSeps[k]) && Unnamed(MmtfWords[k])
    ensures Named("mmtf")
  {
    assert Unnamed("rcsb") && Unnamed("org") && Unnamed("v1") && Unnamed("0") && Unnamed("full");
  }

  /** Those chunks spell ".rcsb.org/v1.0/full". */
  lemma MmtfSpelled()
    ensures Tail(MmtfSeps, MmtfWords) == ".rcsb.org/v1.0/full"
  {
    var cs, ws := MmtfSeps, MmtfWords;
    assert cs[..4][..3] == cs[..3] && ws[..4][..3] == ws[..3];
    assert cs[..3][..2] == cs[..2] && ws[..3][..2] == ws[..2];
    assert cs[..2][..1] == cs[..1] && ws[..2][..1] == ws[..1];
    assert cs[..1][..0] == [] && ws[..1][..0] == [];
    assert Tail(cs[..1], ws[..1]) == ".rcsb";
    assert Tail(cs[..2], ws[..2]) == ".rcsb.org";
    assert Tail(cs[..3], ws[..3]) == ".rcsb.org/v1";
    assert Tail(cs[..4], ws[..4]) == ".rcsb.org/v1.0";
    assert cs[..5] == cs && ws[..5] == ws;
  }

  /** The MMTF address of RCSB spelled out chunk by chunk. */
  lemma MmtfLayout(id: string)
    ensures RcsbUrl(id, "mmtf").value == "http:/" + ['/'] + "mmtf" + Tail(MmtfSeps, MmtfWords) + ['/'] + id
  {
    MmtfSpelled();
  }

  /** The MMTF address of RCSB ends in "mmtf.rcsb.org/v1.0/full" and the
      id: only "mmtf" names a format. */
  lemma MmtfType(id: string)
    requires IsPdbId(id) && ChunkKind(id).None?
    ensures TypeFromEnd(RcsbUrl(id, "mmtf").value) == Ok("mmtf")
  {
    MmtfUnnamed();
    MmtfLayout(id);
    EndNamedTail("http:/", '/', "mmtf", MmtfSeps, MmtfWords, '/', id);
  }

  /** The chunks before "pdb" in the wwPDB addresses, and the separators
      after them: the scheme, then the host and "pub". */
  const SchemeWords: seq<string> := ["ftp", "", ""]
  const SchemeSeps: seq<char> := [':', '/', '/']
  const WwpdbWords: seq<string> := ["ftp", "wwpdb", "org", "pub"]
  const WwpdbSeps: seq<char> := ['.', '.', '/', '/']

  /** None of those chunks names a format. */
  lemma WwpdbUnnamed()
    ensures |SchemeSeps| == |SchemeWords| && |WwpdbSeps| == |WwpdbWords|
    ensures forall k :: 0 <= k < |SchemeSeps| ==> IsSep(SchemeSeps[k]) && Unnamed(SchemeWords[k])
    ensures forall k :: 0 <= k < |WwpdbSeps| ==> IsSep(WwpdbSeps[k]) && Unnamed(WwpdbWords[k])
    ensures Named("pdb")
  {
    assert Unnamed("ftp") && Unnamed("") && Unnamed("wwpdb") && Unnamed("org") && Unnamed("pub");
  }

  /** They spell "ftp://" and "ftp.wwpdb.org/pub/". */
  lemma WwpdbSpelled()
    ensures Lead(SchemeWords, SchemeSeps) == "ftp://"
    ensures Lead(WwpdbWords, WwpdbSeps) == "ftp.wwpdb.org/pub/"
  {
    var ws, cs := WwpdbWords, WwpdbSeps;
    assert Lead(ws[4..], cs[4..]) == "";
    assert ws[3..][1..] == ws[4..] && cs[3..][1..] == cs[4..];
    assert Lead(ws[3..], cs[3..]) == "pub/";
    assert ws[2..][1..] == ws[3..] && cs[2..][1..] == cs[3..];
    assert Lead(ws[2..], cs[2..]) == "org/pub/";
    assert ws[1..][1..] == ws[2..] && cs[1..][1..] == cs[2..];
    var vs, ds := SchemeWords, SchemeSeps;
    assert Lead(vs[3..], ds[3..]) == "";
    assert vs[2..][1..] == vs[3..] && ds[2..][1..] == ds[3..];
    assert vs[1..][1..] == vs[2..] && ds[1..][1..] == ds[2..];
  }

  /** The wwPDB address of an mmCIF file spelled out chunk by chunk. */
  lemma WwpdbLayout(id: string)
    requires |id| == 4
    ensures WwpdbUrl(id, "cif").value
      == Lead(SchemeWords, SchemeSeps) + (Lead(WwpdbWords, WwpdbSeps) + "pdb" + ['/'] + WwpdbCifPath(id))
  {
    WwpdbSpelled();
    WwpdbCifUrl(id);
    WwpdbDir();
    var x, y, path := "ftp://", "ftp.wwpdb.org/pub/", WwpdbCifPath(id);
    assert x + y + "pdb" + ['/'] + path == x + (y + "pdb" + ['/'] + path);
  }

  lemma WwpdbDir()
    ensures "ftp://ftp.wwpdb.org/pub/pdb/" == "ftp://" + "ftp.wwpdb.org/pub/" + "pdb" + ['/']
  {
  }

  lemma WwpdbCifUrl(id: string)
    requires |id| == 4
    ensures WwpdbUrl(id, "cif").value == "ftp://ftp.wwpdb.org/pub/pdb/" + WwpdbCifPath(id)
  {
    var file := Slice(id, 1, 3) + "/" + id + ".cif.gz";
    assert Slice(id, 1, 3) == id[1..3];
    assert WwpdbUrl(id, "cif").value == "ftp://ftp.wwpdb.org/pub/pdb/data/structures/divided/" + "mmCIF" + "/" + file;
    MmcifDir();
  }

  lemma MmcifDir()
    ensures "ftp://ftp.wwpdb.org/pub/pdb/data/structures/divided/" + "mmCIF" + "/"
      == "ftp://ftp.wwpdb.org/pub/pdb/" + "data/structures/divided/mmCIF/"
  {
  }

  /** Where an mmCIF file lies below "pub/pdb". */
  function WwpdbCifPath(id: string): string
    requires |id| == 4
  {
    "data/structures/divided/mmCIF/" + id[1..3] + "/" + id + ".cif.gz"
  }

  /** The wwPDB address of an mmCIF file lies in the directory "pub/pdb",
      so the first chunk naming a format is "pdb": `guess_pdb_type` reads
      the mmCIF file as a PDB file. */
  lemma WwpdbCifReadAsPdb(id: string)
    requires |id| == 4
    ensures TypeFromStart(WwpdbUrl(id, "cif").value) == Ok("pdb")
  {
    WwpdbUnnamed();
    WwpdbLayout(id);
    var rest := Lead(WwpdbWords, WwpdbSeps) + "pdb" + ['/'] + WwpdbCifPath(id);
    StartSkipLead(SchemeWords, SchemeSeps, rest);
    StartLeadNamed(WwpdbWords, WwpdbSeps, "pdb", '/', WwpdbCifPath(id));
  }
}
