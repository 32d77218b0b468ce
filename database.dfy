/** `PostcodeDatabase`: the two-shard postcode store. The postcode list is split
    into two files, and at most one of them is held in memory at a time; the
    store reloads only when a lookup needs the other file. */
module Database {
  import opened Results

  /** `PC_FILE1` (postcodes_1.mp) and `PC_FILE2` (postcodes_2.mp). */
  datatype DataFile = File1 | File2

  /** `FILE_1_PREF`: postcodes starting with one of these go to file 1. */
  const File1Prefixes: set<char> := {'a', 'b', 'c', 'd', 'e', 'f', 'g', 'h', 'i', 'j', 'k', 'l'}

  /** The file that holds a (non-empty) cleaned postcode: file 1 when its
      first character is in `FILE_1_PREF`, file 2 otherwise. That set is
      exactly the letters 'a' to 'l'. */
  function ShardOf(cleanPc: string): (f: DataFile)
    requires |cleanPc| > 0
    ensures f == File1 <==> 'a' <= cleanPc[0] <= 'l'
  {
    if cleanPc[0] in File1Prefixes then File1 else File2
  }

  /** The contents of the two files on disk: each maps a cleaned postcode to
      its encoded coordinate string. */
  datatype ShardFiles = ShardFiles(file1: map<string, string>, file2: map<string, string>) {
    function Contents(f: DataFile): map<string, string> {
      match f
      case File1 => file1
      case File2 => file2
    }
  }

  class PostcodeDatabase {
    /** What the two files hold; they are only ever read. */
    const files: ShardFiles
    /** `_data_file`: which file is loaded, or None. */
    var dataFile: Option<DataFile>
    /** `_data`: the loaded file's map, or None. */
    var data: Option<map<string, string>>
    /** How many times a file has been read from disk. */
    ghost var loads: nat

    /** The loaded map is the whole of the loaded file, and nothing is
        loaded when no file is recorded. */
    ghost predicate Valid()
      reads this
    {
      match dataFile
      case None => data == None
      case Some(f) => data == Some(files.Contents(f))
    }

    constructor (files: ShardFiles)
      ensures Valid()
      ensures this.files == files
      ensures dataFile == None && data == None && loads == 0
    {
      this.files := files;
      dataFile := None;
      data := None;
      loads := 0;
    }

    /** `get_dict(clean_pc)`: the map of the file that holds `cleanPc`,
        loading that file first if it is not the one in memory. */
    method GetDict(cleanPc: string) returns (d: map<string, string>)
      requires Valid()
      requires |cleanPc| > 0
      modifies this
      ensures Valid()
      ensures dataFile == Some(ShardOf(cleanPc))
      ensures dataFile == Some(File1) <==> cleanPc[0] in File1Prefixes
      ensures d == files.Contents(ShardOf(cleanPc))
      ensures old(dataFile) == dataFile ==> data == old(data) && loads == old(loads)
      ensures old(dataFile) != dataFile ==> loads == old(loads) + 1
    {
      if cleanPc[0] in File1Prefixes {
        if dataFile != Some(File1) {
          LoadFile(File1);
        }
      } else {
        if dataFile != Some(File2) {
          LoadFile(File2);
        }
      }
      d := data.value;
    }

    /** `_load_file(file_name)`: replaces the loaded map with the whole of
        the named file and records which file it is. */
    method LoadFile(f: DataFile)
      modifies this
      ensures Valid()
      ensures dataFile == Some(f) && data == Some(files.Contents(f))
      ensures loads == old(loads) + 1
    {
      data := None;
      data := Some(files.Contents(f));
      dataFile := Some(f);
      loads := loads + 1;
    }
  }

  /** The file in memory after a run of requests, starting from `start`. */
  function Resident(start: Option<DataFile>, requests: seq<DataFile>): Option<DataFile> {
    if requests == [] then start else Some(requests[|requests| - 1])
  }

  /** How many loads a run of requests costs: one for each request for a file
      other than the one then in memory. */
  function Loads(start: Option<DataFile>, requests: seq<DataFile>): nat {
    if requests == [] then 0
    else
      var before := requests[..|requests| - 1];
      Loads(start, before) + (if Resident(start, before) == Some(requests[|requests| - 1]) then 0 else 1)
  }

  /** A run that never goes back to file 1 once it has asked for file 2. */
  predicate File1ThenFile2(requests: seq<DataFile>) {
    forall i, j :: 0 <= i < j < |requests| && requests[i] == File2 ==> requests[j] == File2
  }

  /** A file-1-then-file-2 run stays one when what follows asks for at
      most one file, and for file 2 if the run has already asked for it. */
  lemma File1ThenFile2Snoc(rb: seq<DataFile>, next: seq<DataFile>)
    requires File1ThenFile2(rb) && |next| <= 1
    requires File2 in rb ==> next == [] || next == [File2]
    ensures File1ThenFile2(rb + next)
  {
    var rs := rb + next;
    forall i, j | 0 <= i < j < |rs| && rs[i] == File2
      ensures rs[j] == File2
    {
      assert rs[i] == rb[i];
      if j >= |rb| {
        assert File2 in rb;
      } else {
        assert rs[j] == rb[j];
      }
    }
  }

  /** How many distinct files a run asks for. */
  function Touched(requests: seq<DataFile>): (n: nat)
    ensures n <= 2
  {
    (if File1 in requests then 1 else 0) + (if File2 in requests then 1 else 0)
  }

  /** Such a run costs one load per file it touches, so at most two. */
  lemma {:induction false} File1ThenFile2Loads(start: Option<DataFile>, requests: seq<DataFile>)
    requires File1ThenFile2(requests)
    ensures Loads(start, requests) <= Touched(requests)
    ensures Loads(start, requests) <= 2
  {
    if requests != [] {
      var before, last := requests[..|requests| - 1], requests[|requests| - 1];
      assert File1ThenFile2(before);
      File1ThenFile2Loads(start, before);
      assert requests == before + [last];
      LoadsSnocBound(start, before, last);
    }
  }

  /** One more request of a file-1-then-file-2 run costs a load only when it
      asks for a file the run has not touched before. */
  lemma LoadsSnocBound(start: Option<DataFile>, before: seq<DataFile>, last: DataFile)
    requires File1ThenFile2(before + [last])
    requires Loads(start, before) <= Touched(before)
    ensures Loads(start, before + [last]) <= Touched(before + [last])
  {
    var requests := before + [last];
    assert requests[..|before|] == before;
    TouchedSnoc(before, last);
    if before != [] && before[|before| - 1] != last {
      assert requests[|before| - 1] == before[|before| - 1];
      var prev, next := requests[|before| - 1], requests[|before|];
      assert next == last;
      assert prev == File2 ==> next == File2;
      assert last == File2;
      forall i | 0 <= i < |before|
        ensures before[i] != File2
      {
        assert requests[i] == before[i];
      }
    }
  }

  /** The files touched by a run with one more request. */
  lemma TouchedSnoc(before: seq<DataFile>, last: DataFile)
    ensures File1 in before + [last] <==> File1 in before || last == File1
    ensures File2 in before + [last] <==> File2 in before || last == File2
  {
  }
}
