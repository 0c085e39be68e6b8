/** The download routes of kmbio/PDB/io/routes.py: for a PDB id and a file
    type, the address of the file at RCSB, at the EBI or on the wwPDB FTP
    mirror. A route that does not serve the type raises TypeError. */
module Routes {
  import opened Wrappers

  /** The three routes, in the order `DEFAULT_ROUTES` lists them. */
  datatype Route = Rcsb | Ebi | Wwpdb

  /** `DEFAULT_ROUTES`: the prefix `load` recognises, and its route. */
  const DefaultRoutes: seq<(string, Route)> := [("rcsb", Rcsb), ("ebi", Ebi), ("wwpdb", Wwpdb)]

  /** The file types each route serves. */
  function Serves(route: Route): (ts: set<string>)
    ensures "pdb" in ts && "cif" in ts
  {
    match route
    case Rcsb => {"pdb", "cif", "mmtf"}
    case Ebi => {"pdb", "cif"}
    case Wwpdb => {"pdb", "cif"}
  }

  /** `s[lo:hi]` for `0 <= lo <= hi`: the bounds are clamped to the string. */
  function Slice(s: string, lo: nat, hi: nat): (r: string)
    requires lo <= hi
    ensures |r| == (if hi <= |s| then hi else |s|) - (if lo <= |s| then lo else |s|)
    ensures hi <= |s| ==> r == s[lo..hi]
  {
    var j := if hi <= |s| then hi else |s|;
    var i := if lo <= |s| then lo else |s|;
    s[i..j]
  }

  /** `get_rcsb_url(pdb_id, pdb_type)` */
  function RcsbUrl(id: string, t: string): (r: Result<string>)
    ensures r.Ok? <==> t in Serves(Rcsb)
    ensures r.Err? ==> r.error == TypeError
  {
    if t == "pdb" || t == "cif" then Ok("http://files.rcsb.org/download/" + id + "." + t + ".gz")
    else if t == "mmtf" then Ok("http://mmtf.rcsb.org/v1.0/full/" + id)
    else Err(TypeError)
  }

  /** `get_ebi_url(pdb_id, pdb_type)` */
  function EbiUrl(id: string, t: string): (r: Result<string>)
    ensures r.Ok? <==> t in Serves(Ebi)
    ensures r.Err? ==> r.error == TypeError
  {
    var file :=
      if t == "pdb" then Ok("pdb" + id + ".ent")
      else if t == "cif" then Ok(id + ".cif")
      else Err(TypeError);
    if file.Err? then Err(file.error)
    else Ok("http://www.ebi.ac.uk/pdbe/entry-files/download/" + file.value)
  }

  /** `get_wwpdb_url(pdb_id, pdb_type)`: the files are divided into
      directories named by the second and third characters of the id. */
  function WwpdbUrl(id: string, t: string): (r: Result<string>)
    ensures r.Ok? <==> t in Serves(Wwpdb)
    ensures r.Err? ==> r.error == TypeError
  {
    var middle := Slice(id, 1, 3);
    var file :=
      if t == "pdb" then Ok((middle + "/pdb" + id + ".ent.gz", "pdb"))
      else if t == "cif" then Ok((middle + "/" + id + ".cif.gz", "mmCIF"))
      else Err(TypeError);
    if file.Err? then Err(file.error)
    else Ok("ftp://ftp.wwpdb.org/pub/pdb/data/structures/divided/" + file.value.1 + "/" + file.value.0)
  }

  /** The function `DEFAULT_ROUTES` maps a route's prefix to. */
  function Url(route: Route, id: string, t: string): (r: Result<string>)
    ensures r.Ok? <==> t in Serves(route)
    ensures r.Err? ==> r.error == TypeError
  {
    match route
    case Rcsb => RcsbUrl(id, t)
    case Ebi => EbiUrl(id, t)
    case Wwpdb => WwpdbUrl(id, t)
  }
}
