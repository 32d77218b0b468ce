/** The shard-building step of the dataset build (`generate_msgpack`): each
    cleaned postcode's position is encoded and put into the file its first
    character selects. Reading the CSV sources is not part of this model. */
module Build {
  import opened Codec
  import opened Database

  /** One row of the source data: a cleaned postcode and its position. */
  datatype Record = Record(postcode: string, coord: Coord)

  /** `pc[0]` is evaluated for every row, so every postcode must be non-empty. */
  predicate Keyed(records: seq<Record>) {
    forall i :: 0 <= i < |records| ==> records[i].postcode != ""
  }

  /** The map written to file `f` after the rows in `records`; a later row for
      the same postcode overwrites an earlier one. */
  function ShardMap(records: seq<Record>, f: DataFile): (m: map<string, string>)
    requires Keyed(records)
    ensures forall pc :: pc in m ==> pc != "" && ShardOf(pc) == f
  {
    if records == [] then map[]
    else
      var r := records[|records| - 1];
      var m := ShardMap(records[..|records| - 1], f);
      if ShardOf(r.postcode) == f then m[r.postcode := Encode(r.coord)] else m
  }

  /** The build's row loop: fill `pcs1` and `pcs2` row by row. */
  method BuildShards(records: seq<Record>) returns (files: ShardFiles)
    requires Keyed(records)
    ensures files == ShardFiles(ShardMap(records, File1), ShardMap(records, File2))
  {
    var pcs1: map<string, string> := map[];
    var pcs2: map<string, string> := map[];
    for i := 0 to |records|
      invariant pcs1 == ShardMap(records[..i], File1)
      invariant pcs2 == ShardMap(records[..i], File2)
    {
      var r := records[i];
      assert records[..i + 1][..i] == records[..i];
      if r.postcode[0] in File1Prefixes {
        pcs1 := pcs1[r.postcode := Encode(r.coord)];
      } else {
        pcs2 := pcs2[r.postcode := Encode(r.coord)];
      }
    }
    assert records[..|records|] == records;
    files := ShardFiles(pcs1, pcs2);
  }

  /** File `f` holds exactly the postcodes of the rows whose first character
      selects `f`. */
  lemma {:induction false} ShardMapKeys(records: seq<Record>, f: DataFile, pc: string)
    requires Keyed(records)
    ensures pc in ShardMap(records, f) <==>
      pc != "" && ShardOf(pc) == f && exists i :: 0 <= i < |records| && records[i].postcode == pc
  {
    if records != [] {
      ShardMapKeys(records[..|records| - 1], f, pc);
      RowsSnoc(records, pc);
    }
  }

  /** A postcode has a row exactly when it has one before the last row or
      is the last row's. */
  lemma RowsSnoc(records: seq<Record>, pc: string)
    requires records != []
    ensures var before := records[..|records| - 1];
      (exists i :: 0 <= i < |records| && records[i].postcode == pc) <==>
      (exists i :: 0 <= i < |before| && before[i].postcode == pc) || records[|records| - 1].postcode == pc
  {
    var before := records[..|records| - 1];
    if exists i :: 0 <= i < |before| && before[i].postcode == pc {
      var i :| 0 <= i < |before| && before[i].postcode == pc;
      assert records[i].postcode == pc;
    }
    if exists i :: 0 <= i < |records| && records[i].postcode == pc {
      var i :| 0 <= i < |records| && records[i].postcode == pc;
      if i < |before| {
        assert before[i].postcode == pc;
      }
    }
  }

  /** The two files never share a postcode. */
  lemma ShardMapsDisjoint(records: seq<Record>, pc: string)
    requires Keyed(records)
    ensures !(pc in ShardMap(records, File1) && pc in ShardMap(records, File2))
  {
    ShardMapKeys(records, File1, pc);
    ShardMapKeys(records, File2, pc);
  }

  /** The stored string of a postcode encodes the position on its last row. */
  lemma {:induction false} ShardMapLatest(records: seq<Record>, i: nat)
    requires Keyed(records)
    requires i < |records|
    requires forall j :: i < j < |records| ==> records[j].postcode != records[i].postcode
    ensures var pc := records[i].postcode;
      && pc in ShardMap(records, ShardOf(pc))
      && ShardMap(records, ShardOf(pc))[pc] == Encode(records[i].coord)
  {
    var pc := records[i].postcode;
    if i < |records| - 1 {
      var before := records[..|records| - 1];
      ShardMapLatest(before, i);
    }
  }
}
