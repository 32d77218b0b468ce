/** `PostcodeLookup`: resolves a batch of raw postcodes against the store,
    filling a map of results and a map of errors, both keyed by the raw
    postcode. The batch is sorted by cleaned postcode first so that lookups
    for the same file come together. */
module Resolver {
  import opened Results
  import opened Normalise
  import opened Ordering
  import opened Sorting
  import opened Codec
  import opened Database
  import opened Build

  /** The error entry for a postcode: `"No result for '%s'" % clean_pc`. */
  function Message(cleanPc: string): (m: string)
    ensures |m| == |cleanPc| + 16 && m[15..|m| - 1] == cleanPc
    ensures m[..15] == "No result for '" && m[|m| - 1] == '\''
  {
    "No result for '" + cleanPc + "'"
  }

  /** What looking up one raw postcode comes to. `Broken` is a stored string
      that does not decode: Python raises a `ValueError`, which is not the
      `PCException` the lookup catches, so it escapes the whole batch. */
  datatype Resolution = Found(coord: Coord) | NoResult(message: string) | Broken(error: DecodeError)

  /** The outcome of `_lookup_postcode(pc)` against the two files. */
  function Resolve(files: ShardFiles, pc: string): (r: Resolution)
    ensures r.NoResult? ==> r.message == Message(Clean(pc))
    ensures !r.NoResult? ==> Clean(pc) != "" && Clean(pc) in files.Contents(ShardOf(Clean(pc)))
    ensures r.Found? ==> Decode(files.Contents(ShardOf(Clean(pc)))[Clean(pc)]) == Success(r.coord)
    ensures r.Broken? ==> Decode(files.Contents(ShardOf(Clean(pc)))[Clean(pc)]) == Failure(r.error)
  {
    var cleanPc := Clean(pc);
    if cleanPc == "" then NoResult(Message(cleanPc))
    else
      var data := files.Contents(ShardOf(cleanPc));
      if cleanPc !in data then NoResult(Message(cleanPc))
      else match Decode(data[cleanPc])
        case Success(c) => Found(c)
        case Failure(e) => Broken(e)
  }

  /** The store request a lookup makes: none for an empty cleaned postcode,
      otherwise the file that holds it. */
  function Request(pc: string): seq<DataFile> {
    var cleanPc := Clean(pc);
    if cleanPc == "" then [] else [ShardOf(cleanPc)]
  }

  /** The store requests of a batch processed in order. */
  function Requests(pcs: seq<string>): seq<DataFile> {
    if pcs == [] then [] else Requests(pcs[..|pcs| - 1]) + Request(pcs[|pcs| - 1])
  }

  /** The results a batch produces when looked up in order. */
  function ExpectedResults(files: ShardFiles, pcs: seq<string>): map<string, Coord> {
    if pcs == [] then map[]
    else
      var m := ExpectedResults(files, pcs[..|pcs| - 1]);
      var pc := pcs[|pcs| - 1];
      if Resolve(files, pc).Found? then m[pc := Resolve(files, pc).coord] else m
  }

  /** The errors a batch produces when looked up in order. */
  function ExpectedErrors(files: ShardFiles, pcs: seq<string>): map<string, string> {
    if pcs == [] then map[]
    else
      var m := ExpectedErrors(files, pcs[..|pcs| - 1]);
      var pc := pcs[|pcs| - 1];
      if Resolve(files, pc).NoResult? then m[pc := Resolve(files, pc).message] else m
  }

  /** Whatever the order, the results hold exactly the postcodes of the batch
      that are found, each with its coordinate, and the errors exactly those
      that are not found, each with its message. */
  lemma {:induction false} ExpectedMeaning(files: ShardFiles, pcs: seq<string>)
    ensures forall pc :: pc in ExpectedResults(files, pcs) <==> pc in pcs && Resolve(files, pc).Found?
    ensures forall pc :: pc in ExpectedResults(files, pcs) ==> ExpectedResults(files, pcs)[pc] == Resolve(files, pc).coord
    ensures forall pc :: pc in ExpectedErrors(files, pcs) <==> pc in pcs && Resolve(files, pc).NoResult?
    ensures forall pc :: pc in ExpectedErrors(files, pcs) ==> ExpectedErrors(files, pcs)[pc] == Resolve(files, pc).message
  {
    if pcs != [] {
      var before := pcs[..|pcs| - 1];
      ExpectedMeaning(files, before);
      assert pcs == before + [pcs[|pcs| - 1]];
    }
  }

  /** No stored string is malformed. */
  predicate WellFormed(files: ShardFiles) {
    forall f, k :: k in files.Contents(f) ==> Decode(files.Contents(f)[k]).Success?
  }

  /** No cleaned postcode of the batch starts below 'a'. */
  predicate StartsFromA(pcs: seq<string>) {
    forall pc :: pc in pcs && Clean(pc) != "" ==> 'a' <= Clean(pc)[0]
  }

  class PostcodeLookup {
    var results: map<string, Coord>
    var errors: map<string, string>

    constructor ()
      ensures results == map[] && errors == map[]
    {
      results := map[];
      errors := map[];
    }

    /** `_lookup_postcode(pc)`: records a result or an error for `pc`, or
        returns the decoding error that Python would raise. */
    method LookupPostcode(db: PostcodeDatabase, pc: string) returns (fault: Option<DecodeError>)
      requires db.Valid()
      modifies this, db
      ensures db.Valid()
      ensures var res := Resolve(db.files, pc);
        results == (if res.Found? then old(results)[pc := res.coord] else old(results))
      ensures var res := Resolve(db.files, pc);
        errors == (if res.NoResult? then old(errors)[pc := res.message] else old(errors))
      ensures var res := Resolve(db.files, pc);
        fault == (if res.Broken? then Some(res.error) else None)
      ensures db.dataFile == Resident(old(db.dataFile), Request(pc))
      ensures db.loads == old(db.loads) + Loads(old(db.dataFile), Request(pc))
    {
      ghost var res := Resolve(db.files, pc);
      var cleanPc := Clean(pc);
      if cleanPc == "" {
        assert res == NoResult(Message(cleanPc));
        errors := errors[pc := Message(cleanPc)];
        return None;
      }
      var data := db.GetDict(cleanPc);
      if cleanPc !in data {
        assert res == NoResult(Message(cleanPc));
        errors := errors[pc := Message(cleanPc)];
        return None;
      }
      match Decode(data[cleanPc]) {
        case Success(c) =>
          assert res == Found(c);
          results := results[pc := c];
          fault := None;
        case Failure(e) =>
          assert res == Broken(e);
          fault := Some(e);
      }
    }
  }

  lemma ExpectedSameMembers(files: ShardFiles, s: seq<string>, t: seq<string>)
    requires multiset(s) == multiset(t)
    ensures ExpectedResults(files, s) == ExpectedResults(files, t)
    ensures ExpectedErrors(files, s) == ExpectedErrors(files, t)
  {
    assert forall x :: x in s <==> x in t by {
      assert forall x :: x in s <==> x in multiset(s);
      assert forall x :: x in t <==> x in multiset(t);
    }
    ExpectedMeaning(files, s);
    ExpectedMeaning(files, t);
    var r1, r2 := ExpectedResults(files, s), ExpectedResults(files, t);
    assert forall pc :: pc in r1 <==> pc in r2;
    var e1, e2 := ExpectedErrors(files, s), ExpectedErrors(files, t);
    assert forall pc :: pc in e1 <==> pc in e2;
  }

  /** No postcode of `pcs` makes the lookup raise (checked from the end). */
  predicate NoneBroken(files: ShardFiles, pcs: seq<string>) {
    pcs == [] || (NoneBroken(files, pcs[..|pcs| - 1]) && !Resolve(files, pcs[|pcs| - 1]).Broken?)
  }

  /** `NoneBroken` says what it means, for every postcode of the batch. */
  lemma {:induction false} NoneBrokenMembers(files: ShardFiles, pcs: seq<string>)
    ensures NoneBroken(files, pcs) <==> forall pc :: pc in pcs ==> !Resolve(files, pc).Broken?
  {
    if pcs != [] {
      var before := pcs[..|pcs| - 1];
      var last := pcs[|pcs| - 1];
      NoneBrokenMembers(files, before);
      assert pcs == before + [last];
      assert forall pc :: pc in pcs <==> pc in before || pc == last;
    }
  }

  /** A batch, sorted or not, raises nothing exactly when none of its
      postcodes does. */
  lemma HealthyBatch(files: ShardFiles, s: seq<string>, t: seq<string>)
    requires multiset(s) == multiset(t)
    ensures NoneBroken(files, s) <==> forall pc :: pc in t ==> !Resolve(files, pc).Broken?
  {
    NoneBrokenMembers(files, s);
    assert forall pc :: pc in t <==> pc in s by {
      assert forall pc :: pc in t <==> pc in multiset(t);
      assert forall pc :: pc in s <==> pc in multiset(s);
    }
  }

  /** The store's state after one more request: the file it asks for is
      resident, and a load happens when that file was not. */
  lemma LoadsStep(start: Option<DataFile>, before: seq<DataFile>, next: seq<DataFile>)
    requires |next| <= 1
    ensures Resident(start, before + next) == Resident(Resident(start, before), next)
    ensures Loads(start, before + next) == Loads(start, before) + Loads(Resident(start, before), next)
  {
    if next != [] {
      assert (before + next)[..|before|] == before;
    } else {
      assert before + next == before;
    }
  }

  /** The last postcode of `looked` raises `e`, and none before it raises. */
  predicate FailsAtLast(files: ShardFiles, looked: seq<string>, e: DecodeError) {
    looked != []
    && NoneBroken(files, looked[..|looked| - 1])
    && Resolve(files, looked[|looked| - 1]) == Broken(e)
  }

  /** One turn of the loop in `PostcodeLookup.__init__`: looks up `pc` after
      the postcodes `done`. */
  method LookupNext(lookup: PostcodeLookup, db: PostcodeDatabase, ghost done: seq<string>, pc: string,
                    ghost start: Option<DataFile>, ghost initialLoads: nat)
    returns (fault: Option<DecodeError>)
    requires db.Valid()
    requires lookup.results == ExpectedResults(db.files, done)
    requires lookup.errors == ExpectedErrors(db.files, done)
    requires NoneBroken(db.files, done)
    requires db.dataFile == Resident(start, Requests(done))
    requires db.loads == initialLoads + Loads(start, Requests(done))
    modifies lookup, db
    ensures db.Valid()
    ensures fault.Some? ==> FailsAtLast(db.files, done + [pc], fault.value)
    ensures fault.None? ==> NoneBroken(db.files, done + [pc])
    ensures fault.None? ==> lookup.results == ExpectedResults(db.files, done + [pc])
    ensures fault.None? ==> lookup.errors == ExpectedErrors(db.files, done + [pc])
    ensures db.dataFile == Resident(start, Requests(done + [pc]))
    ensures db.loads == initialLoads + Loads(start, Requests(done + [pc]))
  {
    var next := done + [pc];
    assert next[..|done|] == done;
    assert next[|next| - 1] == pc;
    LoadsStep(start, Requests(done), Request(pc));
    fault := lookup.LookupPostcode(db, pc);
  }

  /** The loop of `PostcodeLookup.__init__`: looks up each postcode of `pcs`
      in order, stopping at the first one that raises. `looked` is what was
      looked up: the whole batch, or the prefix that ends at that postcode. */
  method LookupAll(lookup: PostcodeLookup, db: PostcodeDatabase, pcs: seq<string>)
    returns (fault: Option<DecodeError>, ghost looked: seq<string>)
    requires db.Valid() && lookup.results == map[] && lookup.errors == map[]
    modifies lookup, db
    ensures db.Valid()
    ensures looked <= pcs
    ensures db.dataFile == Resident(old(db.dataFile), Requests(looked))
    ensures db.loads == old(db.loads) + Loads(old(db.dataFile), Requests(looked))
    ensures fault.None? ==> (looked == pcs && NoneBroken(db.files, pcs)
      && lookup.results == ExpectedResults(db.files, pcs)
      && lookup.errors == ExpectedErrors(db.files, pcs))
    ensures fault.Some? ==> FailsAtLast(db.files, looked, fault.value)
  {
    ghost var start := db.dataFile;
    ghost var initialLoads := db.loads;
    ghost var done: seq<string> := [];
    var i := 0;
    while i < |pcs|
      invariant i == |done| && done <= pcs
      invariant db.Valid()
      invariant lookup.results == ExpectedResults(db.files, done)
      invariant lookup.errors == ExpectedErrors(db.files, done)
      invariant NoneBroken(db.files, done)
      invariant db.dataFile == Resident(start, Requests(done))
      invariant db.loads == initialLoads + Loads(start, Requests(done))
    {
      fault := LookupNext(lookup, db, done, pcs[i], start, initialLoads);
      PrefixSnoc(done, pcs);
      done := done + [pcs[i]];
      if fault.Some? {
        return fault, done;
      }
      i := i + 1;
    }
    PrefixWhole(done, pcs);
    return None, done;
  }

  /** A prefix one element short of `pcs` grows into a longer prefix. */
  lemma PrefixSnoc(done: seq<string>, pcs: seq<string>)
    requires done <= pcs && |done| < |pcs|
    ensures done + [pcs[|done|]] <= pcs
  {
  }

  /** A prefix as long as the batch is the batch. */
  lemma PrefixWhole(done: seq<string>, pcs: seq<string>)
    requires done <= pcs && |done| == |pcs|
    ensures done == pcs
  {
  }

  /** A prefix of a batch never costs more loads than the batch. */
  lemma {:induction false} PrefixLoads(start: Option<DataFile>, done: seq<string>, pcs: seq<string>)
    requires done <= pcs
    ensures Loads(start, Requests(done)) <= Loads(start, Requests(pcs))
    decreases |pcs|
  {
    if |done| < |pcs| {
      var before := pcs[..|pcs| - 1];
      assert done <= before;
      PrefixLoads(start, done, before);
      LoadsStep(start, Requests(before), Request(pcs[|pcs| - 1]));
    } else {
      assert done == pcs;
    }
  }

  /** Two batches with the same multiset of postcodes hold the same postcodes. */
  lemma SameMembers(s: seq<string>, t: seq<string>)
    requires multiset(s) == multiset(t)
    ensures forall pc :: pc in s <==> pc in t
  {
    assert forall pc :: pc in s <==> pc in multiset(s);
    assert forall pc :: pc in t <==> pc in multiset(t);
  }

  /** `PostcodeLookup(postcodes)`: sorts the batch by cleaned postcode and
      looks each one up in that order. A decoding error escapes and no lookup
      object is produced. */
  method NewPostcodeLookup(db: PostcodeDatabase, postcodes: seq<string>)
    returns (r: Result<PostcodeLookup, DecodeError>, ghost looked: seq<string>)
    requires db.Valid()
    modifies db
    ensures db.Valid()
    ensures r.Success? <==> forall pc :: pc in postcodes ==> !Resolve(db.files, pc).Broken?
    ensures r.Success? ==> (fresh(r.value)
      && r.value.results == ExpectedResults(db.files, postcodes)
      && r.value.errors == ExpectedErrors(db.files, postcodes))
    ensures looked <= SortByClean(postcodes)
    ensures r.Success? ==> looked == SortByClean(postcodes)
    ensures r.Failure? ==> FailsAtLast(db.files, looked, r.error)
    ensures r.Failure? ==> exists pc :: pc in postcodes && Resolve(db.files, pc) == Broken(r.error)
    ensures db.dataFile == Resident(old(db.dataFile), Requests(looked))
    ensures db.loads == old(db.loads) + Loads(old(db.dataFile), Requests(looked))
    ensures db.loads <= old(db.loads) + Loads(old(db.dataFile), Requests(SortByClean(postcodes)))
    ensures StartsFromA(postcodes) ==> db.loads <= old(db.loads) + 2
  {
    var sorted := SortByClean(postcodes);
    ghost var start := db.dataFile;
    if StartsFromA(postcodes) {
      GuardedBatchLoads(start, postcodes);
    }
    var lookup := new PostcodeLookup();
    var fault;
    fault, looked := LookupAll(lookup, db, sorted);
    PrefixLoads(start, looked, sorted);
    if fault.Some? {
      SameMembers(sorted, postcodes);
      PrefixMember(looked, sorted);
      return Failure(fault.value), looked;
    }
    ExpectedSameMembers(db.files, sorted, postcodes);
    HealthyBatch(db.files, sorted, postcodes);
    return Success(lookup), looked;
  }

  /** The last postcode of a non-empty prefix belongs to the batch. */
  lemma PrefixMember(looked: seq<string>, pcs: seq<string>)
    requires looked <= pcs && looked != []
    ensures looked[|looked| - 1] in pcs
  {
    assert pcs[|looked| - 1] == looked[|looked| - 1];
  }

  /** Sorting a batch whose cleaned postcodes all start at or above 'a'
      keeps the store to at most two loads: the promise of the comment on
      the sort ("only have to open each of the files once"). */
  lemma GuardedBatchLoads(start: Option<DataFile>, postcodes: seq<string>)
    requires StartsFromA(postcodes)
    ensures Loads(start, Requests(SortByClean(postcodes))) <= 2
  {
    var sorted := SortByClean(postcodes);
    SortByCleanSorted(postcodes);
    SameMembers(sorted, postcodes);
    assert StartsFromA(sorted);
    SortedRequestsFile1ThenFile2(sorted);
    File1ThenFile2Loads(start, Requests(sorted));
  }

  /** Every file a batch asks for is asked for by one of its postcodes. */
  lemma {:induction false} RequestedBy(pcs: seq<string>, f: DataFile) returns (pc: string)
    requires f in Requests(pcs)
    ensures pc in pcs && Clean(pc) != "" && ShardOf(Clean(pc)) == f
  {
    var before, last := pcs[..|pcs| - 1], pcs[|pcs| - 1];
    assert Requests(pcs) == Requests(before) + Request(last);
    if f in Requests(before) {
      pc := RequestedBy(before, f);
      var j :| 0 <= j < |before| && before[j] == pc;
      assert pcs[j] == pc;
    } else {
      pc := last;
    }
  }

  /** In a sorted batch whose cleaned postcodes all start at or above 'a',
      once some postcode has asked for file 2, the last one asks for file 2
      too (if it asks at all). */
  lemma AfterFile2OnlyFile2(pcs: seq<string>)
    requires |pcs| > 0 && SortedByClean(pcs) && StartsFromA(pcs)
    requires File2 in Requests(pcs[..|pcs| - 1])
    ensures Request(pcs[|pcs| - 1]) == [] || Request(pcs[|pcs| - 1]) == [File2]
  {
    var before := pcs[..|pcs| - 1];
    var last := pcs[|pcs| - 1];
    var pc := RequestedBy(before, File2);
    var j :| 0 <= j < |before| && before[j] == pc;
    var a, b := Clean(pcs[j]), Clean(last);
    if b != "" {
      assert LexLe(a, b);
      LexLeFirstChar(a, b);
      assert pcs[j] in pcs && last in pcs;
    }
  }

  /** A sorted batch whose cleaned postcodes all start at or above 'a' asks
      for file 1 and then for file 2, never back again. */
  lemma {:induction false} SortedRequestsFile1ThenFile2(pcs: seq<string>)
    requires SortedByClean(pcs)
    requires StartsFromA(pcs)
    ensures File1ThenFile2(Requests(pcs))
  {
    if pcs != [] {
      var before := pcs[..|pcs| - 1];
      assert SortedByClean(before);
      assert StartsFromA(before) by {
        assert forall x :: x in before ==> x in pcs;
      }
      SortedRequestsFile1ThenFile2(before);
      if File2 in Requests(before) {
        AfterFile2OnlyFile2(pcs);
      }
      File1ThenFile2Snoc(Requests(before), Request(pcs[|pcs| - 1]));
    }
  }

  /** Sorting puts a cleaned postcode that starts below 'a' (file 2) before
      one that starts with 'a' to 'l' (file 1). */
  lemma SortPutsBelowAFirst(a: string, b: string, c: string)
    requires Clean(a) != "" && 'a' <= Clean(a)[0] <= 'l'
    requires Clean(b) != "" && Clean(b)[0] < 'a'
    requires Clean(c) != "" && 'l' < Clean(c)[0]
    ensures SortByClean([a, b, c]) == [b, a, c]
  {
    LexLeByFirstChar(Clean(a), Clean(b));
    LexLeByFirstChar(Clean(a), Clean(c));
    SortThree(a, b, c);
  }

  /** Sorting three postcodes where only the first two are out of order. */
  lemma SortThree(x: string, y: string, z: string)
    requires !KeyLe(x, y) && KeyLe(x, z)
    ensures SortByClean([x, y, z]) == [y, x, z]
  {
    assert [x, y, z][..2] == [x, y];
    SortTwo(x, y);
    assert [y, x][..1] == [y];
  }

  /** Sorting two postcodes that are out of order swaps them. */
  lemma SortTwo(x: string, y: string)
    requires !KeyLe(x, y)
    ensures SortByClean([x, y]) == [y, x]
  {
    assert [x, y][..1] == [x] && [x][..0] == [];
    assert SortByClean([x]) == [x];
  }

  /** Without the guard, sorting does not keep the store to two loads: a
      batch with one cleaned postcode below 'a', one from 'a' to 'l' and one
      above 'l' asks for file 2, file 1, file 2, and loads three times. */
  lemma ThirdLoadBelowA(a: string, b: string, c: string)
    requires Clean(a) != "" && 'a' <= Clean(a)[0] <= 'l'
    requires Clean(b) != "" && Clean(b)[0] < 'a'
    requires Clean(c) != "" && 'l' < Clean(c)[0]
    ensures !StartsFromA([a, b, c])
    ensures Requests(SortByClean([a, b, c])) == [File2, File1, File2]
    ensures Loads(None, Requests(SortByClean([a, b, c]))) == 3
  {
    assert b in [a, b, c];
    SortPutsBelowAFirst(a, b, c);
    BelowAFirstRequests(a, b, c);
    BackAndForthLoads();
  }

  /** File 2, file 1, file 2 from the empty store: every request loads. */
  lemma BackAndForthLoads()
    ensures Loads(None, [File2, File1, File2]) == 3
  {
    var t := [File2, File1, File2];
    assert t[..2] == [File2, File1] && t[..2][..1] == [File2] && [File2][..0] == [];
  }

  /** The requests of the batch in the order sorting gives it. */
  lemma BelowAFirstRequests(a: string, b: string, c: string)
    requires Clean(a) != "" && 'a' <= Clean(a)[0] <= 'l'
    requires Clean(b) != "" && Clean(b)[0] < 'a'
    requires Clean(c) != "" && 'l' < Clean(c)[0]
    ensures Requests([b, a, c]) == [File2, File1, File2]
  {
    var s := [b, a, c];
    assert s[..2] == [b, a] && s[..2][..1] == [b] && [b][..0] == [];
    assert Request(b) == [File2] && Request(a) == [File1] && Request(c) == [File2];
    assert Requests([b]) == [File2];
    assert Requests([b, a]) == [File2, File1];
  }

  /** The test batch's 'DD6 9DD', '@!"?A' and 'SS2 5JA' clean to 'dd69dd'
      (file 1), '@!"?a' (below 'a', file 2) and 'ss25ja' (file 2): sorted,
      they ask for file 2, file 1, file 2 and load three times from the
      empty store. */
  lemma ThirdLoadSample(a: string, b: string, c: string)
    requires a == "DD6 9DD" && b == "@!\"?A" && c == "SS2 5JA"
    ensures Loads(None, Requests(SortByClean([a, b, c]))) == 3
  {
    CleanTestSamples(a, b, c);
    ThirdLoadBelowA(a, b, c);
  }

  /** `_clean` on the three test postcodes. */
  lemma CleanTestSamples(a: string, b: string, c: string)
    requires a == "DD6 9DD" && b == "@!\"?A" && c == "SS2 5JA"
    ensures Clean(a) == "dd69dd" && Clean(b) == "@!\"?a" && Clean(c) == "ss25ja"
  {
    CleanHalvesSample(a, "DD6", "9DD", "dd6", "9dd");
    CleanHalvesSample(c, "SS2", "5JA", "ss2", "5ja");
    assert Lower(b[4]) == 'a';
    CleanUnspaced(b, "@!\"?a");
  }

  /** Two space-free halves around one space clean to the lower-cased halves
      run together. */
  lemma CleanHalvesSample(s: string, x: string, y: string, lx: string, ly: string)
    requires s == x + " " + y
    requires |x| == |lx| == 3 && |y| == |ly| == 3 && ' ' !in x && ' ' !in y
    requires forall i :: 0 <= i < 3 ==> lx[i] == Lower(x[i]) && ly[i] == Lower(y[i])
    ensures Clean(s) == lx + ly
  {
    CleanUnspaced(x, lx);
    CleanUnspaced(y, ly);
    CleanAroundSpace(x, y);
  }

  /** Every raw postcode of a well-formed batch lands in exactly one of the
      two maps. */
  lemma ResultsAndErrorsPartition(files: ShardFiles, pcs: seq<string>, pc: string)
    requires WellFormed(files)
    ensures pc in pcs <==> pc in ExpectedResults(files, pcs) || pc in ExpectedErrors(files, pcs)
    ensures !(pc in ExpectedResults(files, pcs) && pc in ExpectedErrors(files, pcs))
  {
    NeverBroken(files, pc);
    ExpectedMeaning(files, pcs);
  }

  /** Against well-formed files, no lookup raises. */
  lemma NeverBroken(files: ShardFiles, pc: string)
    requires WellFormed(files)
    ensures !Resolve(files, pc).Broken?
  {
    var cleanPc := Clean(pc);
    if cleanPc != "" {
      var f := ShardOf(cleanPc);
      if cleanPc in files.Contents(f) {
        assert Decode(files.Contents(f)[cleanPc]).Success?;
      }
    }
  }

  /** An empty (or all-space) postcode never reaches the store and gives
      the error "No result for ''". */
  lemma EmptyPostcode(files: ShardFiles, pc: string)
    requires Clean(pc) == ""
    ensures Resolve(files, pc) == NoResult("No result for ''")
    ensures Request(pc) == []
  {
  }

  /** A postcode present in its file is never reported missing: the lookup
      gives the position its stored string decodes to, or the error that
      escapes. */
  lemma PresentPostcode(files: ShardFiles, pc: string)
    requires Clean(pc) != "" && Clean(pc) in files.Contents(ShardOf(Clean(pc)))
    ensures !Resolve(files, pc).NoResult?
    ensures Decode(files.Contents(ShardOf(Clean(pc)))[Clean(pc)]).Success? ==>
      Resolve(files, pc) == Found(Decode(files.Contents(ShardOf(Clean(pc)))[Clean(pc)]).value)
  {
  }

  /** A postcode missing from its file gives an error that quotes the cleaned
      postcode. */
  lemma MissingPostcode(files: ShardFiles, pc: string)
    requires Clean(pc) != "" && Clean(pc) !in files.Contents(ShardOf(Clean(pc)))
    ensures Resolve(files, pc) == NoResult("No result for '" + Clean(pc) + "'")
  {
  }

  /** "abc123" is not a postcode: the error quotes it. */
  lemma UnknownPostcodeSample(files: ShardFiles, pc: string)
    requires pc == "abc123" && pc !in files.file1
    ensures Resolve(files, pc) == NoResult("No result for 'abc123'")
  {
    assert IsClean(pc);
    CleanFixpoint(pc);
  }

  /** The raw "ABC123" is looked up as "abc123", and the error quotes the
      cleaned form while being keyed by the raw one. */
  lemma RawUpperCaseSample(files: ShardFiles, pc: string)
    requires pc == "ABC123" && "abc123" !in files.file1
    ensures Resolve(files, pc) == NoResult("No result for 'abc123'")
  {
    CleanUpperSample();
  }

  /** `_clean("ABC123") == "abc123"` */
  lemma CleanUpperSample()
    ensures Clean("ABC123") == "abc123"
  {
    LowerUpperSample();
    RemoveSpacesKeeps("abc123");
  }

  /** `"ABC123".lower() == "abc123"` */
  lemma LowerUpperSample()
    ensures Lowered("ABC123") == "abc123"
  {
    var s := "ABC123";
    LoweredAt(s);
    assert Lower(s[0]) == 'a' && Lower(s[1]) == 'b' && Lower(s[2]) == 'c';
  }

  /** "sw81hl", stored in file 2 as "1.975 8.379", resolves to (51.475, -0.121). */
  lemma FoundSample(files: ShardFiles, pc: string)
    requires pc == "sw81hl" && pc in files.file2 && files.file2[pc] == "1.975 8.379"
    ensures Resolve(files, pc) == Found(Coord(51475, -121))
  {
    assert Clean(pc) == pc by {
      assert IsClean(pc);
      CleanFixpoint(pc);
    }
    assert ShardOf(pc) == File2;
    assert Decode("1.975 8.379") == Success(Coord(51475, -121)) by {
      EncodeSample(Coord(51475, -121), "1.975 8.379");
      DecodeEncode(Coord(51475, -121));
    }
  }

  /** Building the files and then looking a postcode up gives back the
      position on the postcode's last row, whatever its case and spacing. */
  lemma BuildThenResolve(records: seq<Record>, i: nat, pc: string)
    requires Keyed(records) && i < |records|
    requires forall j :: i < j < |records| ==> records[j].postcode != records[i].postcode
    requires Clean(pc) == records[i].postcode
    ensures Resolve(ShardFiles(ShardMap(records, File1), ShardMap(records, File2)), pc) == Found(records[i].coord)
  {
    ShardMapLatest(records, i);
    DecodeEncode(records[i].coord);
  }

  /** Files built from rows are well formed, so a batch against them never
      fails. */
  lemma BuiltFilesWellFormed(records: seq<Record>)
    requires Keyed(records)
    ensures WellFormed(ShardFiles(ShardMap(records, File1), ShardMap(records, File2)))
  {
    var files := ShardFiles(ShardMap(records, File1), ShardMap(records, File2));
    forall f, k | k in files.Contents(f)
      ensures Decode(files.Contents(f)[k]).Success?
    {
      ShardMapKeys(records, f, k);
      var i :| 0 <= i < |records| && records[i].postcode == k;
      var last := LastRow(records, i);
      ShardMapLatest(records, last);
      DecodeEncode(records[last].coord);
    }
  }

  /** The last row with the same postcode as row `i`. */
  lemma LastRow(records: seq<Record>, i: nat) returns (last: nat)
    requires i < |records|
    ensures i <= last < |records| && records[last].postcode == records[i].postcode
    ensures forall j :: last < j < |records| ==> records[j].postcode != records[i].postcode
  {
    last := |records| - 1;
    while records[last].postcode != records[i].postcode
      invariant i <= last < |records|
      decreases last
      invariant forall j :: last < j < |records| ==> records[j].postcode != records[i].postcode
    {
      last := last - 1;
    }
  }
}
