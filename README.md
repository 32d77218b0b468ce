# UK postcode lookup: a Dafny model

This project models the lookup core of the UK postcode API (`postcodes.py`).
A client posts a batch of raw postcodes. The service answers with a map of
positions for the postcodes it knows and a map of error messages for the
ones it does not. Both maps are keyed by the raw postcode.

- **Normalisation** (`Normalise`): `_clean` lower-cases a postcode and removes
  every space. It is modelled as `Clean`, with its idempotence, its fixed
  points and its indifference to case and spacing proved.
- **Ordering and sorting** (`Ordering`, `Sorting`): the batch is sorted with
  Python's stable `sorted(..., key=_clean)`. Python string comparison is
  modelled as `LexLe`, with its order laws proved. The sort is a stable
  insertion sort, proved to be ordered, a permutation of its input, and
  stable.
- **Coordinate codec** (`Codec`): the build writes each position as
  `'%0.3f %0.3f' % (lat - 49.5, lng + 8.5)`. A lookup splits the string on its
  space, parses both numbers and adds the offsets back. Positions are held in
  integer thousandths of a degree. `Decode(Encode(c)) == Success(c)` is proved
  for every position, including negative stored values.
- **Two-shard store** (`Database`): the `PostcodeDatabase` class holds at most
  one of the two data files in memory. A cleaned postcode whose first
  character is in `FILE_1_PREF` (`'a'` to `'l'`) lives in file 1; any other
  lives in file 2. The store reloads only when a lookup needs the other file.
  A ghost counter records every load.
- **Build** (`Build`): the part of `generate_msgpack` that puts each encoded
  row into its shard. It is a loop proved to compute `ShardMap`.
- **Batch resolver** (`Resolver`): the `PostcodeLookup` class and its
  `_lookup_postcode`. `NewPostcodeLookup` is `PostcodeLookup.__init__`: it
  sorts the batch, then loops over it. `postcodes.py` is Python 2 code (its
  `print` statements, postcodes.py:105 and :162), so `map(self._lookup_postcode,
  postcodes)` at postcodes.py:50 is the eager Python 2 `map` that looks up
  every postcode in order. The loop's invariants tie the two
  maps and the store's state to the specification functions `ExpectedResults`,
  `ExpectedErrors`, `Resident` and `Loads`.

The comment on the sort (postcodes.py:46) promises that each file is opened
only once. The model proves this, as at most two loads per batch, when no
cleaned postcode starts with a character below `'a'`. It also proves that the
promise fails without that condition. From an empty store, a batch holding
`'@!"?A'`, `'DD6 9DD'` and `'SS2 5JA'` (all from the test suite) asks for
file 2, then file 1, then file 2 again, and so loads three times.

A stored string that does not decode makes Python raise `ValueError`. This
is not the `PCException` the lookup catches, so it escapes the whole batch.
The model returns it as a `Failure`. When every stored string is well formed
(as for files built by `BuildShards`), no batch fails, and every raw
postcode lands in exactly one of the two maps.

The error entry is keyed by the raw postcode, but its message quotes the
*cleaned* one (`"No result for '%s'" % clean_pc`, postcodes.py:67). For a raw
`'ABC123'` the entry `errors['ABC123']` reads `"No result for 'abc123'"`.

## Model

| member | source | states |
|---|---|---|
| Normalise.Lower | postcodes.py:71 | lower-casing one character never yields an upper-case letter, maps a space to a space and only a space to one, and leaves non-upper-case characters alone |
| Normalise.Lowered | postcodes.py:71 | `s.lower()` has the length of `s` |
| Normalise.LoweredAt | postcodes.py:71 | `s.lower()` has the length of `s`, and each character is the lower-case form of the one at the same position |
| Normalise.RemoveSpaces | postcodes.py:71 | `s.replace(' ', '')` holds no space and is never longer than `s` |
| Normalise.RemoveSpacesKeeps | postcodes.py:71 | removing spaces keeps exactly the non-space characters, and changes nothing in a string without spaces |
| Normalise.Clean | postcodes.py:69-71 | `_clean(s)` holds no space and is never longer than `s` |
| Normalise.CleanSnoc | postcodes.py:69-71 | cleaning one more character appends its lower-case form, or nothing for a space |
| Normalise.CleanIsClean | postcodes.py:69-71 | a cleaned postcode holds no space and no upper-case letter, and is never longer than the raw one |
| Normalise.CleanFixpoint | postcodes.py:69-71 | cleaning leaves a string unchanged exactly when it holds no space and no upper-case letter (both directions) |
| Normalise.CleanIdempotent | postcodes.py:69-71 | `_clean(_clean(s)) == _clean(s)` |
| Normalise.CleanRemovesSpacesFirst | postcodes.py:69-71 | removing the spaces and then lower-casing gives the same key, an independent definition of `_clean` |
| Normalise.CleanIgnoresCaseAndSpaces | postcodes.py:69-71 | lower-casing a postcode first, or removing its spaces first, does not change its cleaned key |
| Normalise.CleanAppend | postcodes.py:69-71 | the cleaned form of a concatenation is the concatenation of the cleaned pieces |
| Normalise.CleanAroundSpace | postcodes.py:69-71 | the space between two halves of a postcode disappears: `_clean(x + " " + y) == _clean(x) + _clean(y)` |
| Normalise.CleanUnspaced | postcodes.py:69-71 | a space-free string cleans to its character-by-character lower-case form |
| Ordering.LexLeReflexive | postcodes.py:47 | Python's string `<=` on the sort keys is reflexive |
| Ordering.LexLeTotal | postcodes.py:47 | any two keys are comparable |
| Ordering.LexLeAntisymmetric | postcodes.py:47 | two keys each `<=` the other are equal |
| Ordering.LexLeTransitive | postcodes.py:47 | the key order is transitive |
| Ordering.LexLeFirstChar | postcodes.py:46-47 | between two non-empty keys in order, the first characters are in order, which is what groups keys by shard after sorting |
| Ordering.LexLeByFirstChar | postcodes.py:46-47 | two non-empty keys with different first characters are ordered by those characters (both directions) |
| Sorting.Insert | postcodes.py:47 | inserting into the sorted prefix adds exactly the new postcode to the multiset |
| Sorting.SortByClean | postcodes.py:47 | the sorted batch is a permutation of the raw batch |
| Sorting.InsertMembers | postcodes.py:47 | the members after an insertion are the new postcode and the old members |
| Sorting.InsertSorted | postcodes.py:47 | inserting into a sorted sequence keeps it sorted by cleaned key |
| Sorting.SortByCleanSorted | postcodes.py:46-47 | `sorted(postcodes, key=_clean)` is in non-decreasing order of cleaned key and is a permutation of the batch |
| Sorting.InsertWithKey | postcodes.py:47 | an inserted postcode goes after every postcode with the same cleaned key |
| Sorting.SortByCleanStable | postcodes.py:47 | the sort is stable: the postcodes sharing a cleaned key keep their relative order |
| Codec.NatDigits | postcodes.py:157 | the whole part is written as a non-empty string of decimal digits |
| Codec.DigitsRoundTrip | postcodes.py:64 | the digits written for a number read back as that number |
| Codec.Fraction3 | postcodes.py:157 | the fraction is written as exactly three digits that read back as its value |
| Codec.FormatBody | postcodes.py:157 | in a formatted unsigned number the point is fourth from the end, with the whole digits before it and three fraction digits after it, no sign and no space |
| Codec.FormatFixed3 | postcodes.py:157 | `'%0.3f'` of a number has its point fourth from the end, holds no space, and starts with a minus sign exactly when the number is negative |
| Codec.ParseFixed3 | postcodes.py:64 | a token that parses has its point fourth from the end, and a negative value comes only from a token with a leading minus sign |
| Codec.ParseUnsigned | postcodes.py:64 | `float` of `'%0.3f'` of a non-negative number gives it back, and the text has no sign and no space |
| Codec.ParseNegated | postcodes.py:64 | a leading minus sign negates what the rest parses to (or still fails if the rest fails) and adds no space |
| Codec.ParseNegative | postcodes.py:64 | `float` of `'%0.3f'` of a negative number gives it back, and the text has no space |
| Codec.ParseFormatFixed3 | postcodes.py:64 | every formatted number, of either sign, parses back to itself and holds no space |
| Codec.Split | postcodes.py:63 | `str.split(' ')` always returns at least one piece |
| Codec.SplitFromNoSpace | postcodes.py:63 | text without a space splits into one piece, itself |
| Codec.SplitFromPair | postcodes.py:63 | splitting `a + " " + b` from inside `a` gives the rest of `a`, then `b` |
| Codec.SplitPair | postcodes.py:63 | two space-free tokens joined by one space split back into exactly those two tokens |
| Codec.Encode | postcodes.py:157 | the stored string splits on its space into exactly the two formatted numbers, latitude less 49.5 and then longitude plus 8.5 |
| Codec.Decode | postcodes.py:63-64 | a stored string decodes only when it splits into exactly two tokens; otherwise the error names the number of tokens |
| Codec.DecodeEncode | postcodes.py:63-64 | decoding a stored string undoes the build's encoding exactly, for every position |
| Codec.EncodeInjective | postcodes.py:157 | distinct positions are stored as distinct strings |
| Codec.EncodeSample | postcodes.py:157 | (51.475, -0.121), the position of SW8 1HL, is stored as "1.975 8.379" |
| Codec.SampleLatitude | postcodes.py:157 | 51.475 - 49.5 is written "1.975" |
| Codec.SampleLongitude | postcodes.py:157 | -0.121 + 8.5 is written "8.379" |
| Database.ShardOf | postcodes.py:24 | a cleaned postcode goes to file 1 exactly when its first character is one of `FILE_1_PREF`, which is the letters from 'a' to 'l' (both directions) |
| Database.PostcodeDatabase.constructor | postcodes.py:19-21 | a new store has no file and no map loaded, and has loaded nothing |
| Database.PostcodeDatabase.GetDict | postcodes.py:23-30 | returns the map of the file that holds the key; afterwards that file is loaded (file 1 exactly when the first character is in `FILE_1_PREF`); the store loads only when the needed file is not already loaded, and otherwise its state is unchanged |
| Database.PostcodeDatabase.LoadFile | postcodes.py:32-35 | the loaded map is wholly replaced by the named file's map, the file is recorded, and one load is counted |
| Database.File1ThenFile2Snoc | postcodes.py:46 | a run that never goes back to file 1 stays so when the next request is for file 2, or is for any file while the run has not yet asked for file 2 |
| Database.File1ThenFile2Loads | postcodes.py:46 | a run of requests that never goes back to file 1 costs at most one load per file it touches, so at most two |
| Database.LoadsSnocBound | postcodes.py:25-29 | one more request in such a run costs a load only when it asks for a file the run has not touched |
| Build.ShardMap | postcodes.py:156-159 | every postcode in a built file is non-empty and belongs to that file by its first character |
| Build.BuildShards | postcodes.py:151-159 | the row loop fills `pcs1` and `pcs2` with exactly `ShardMap` of the rows for file 1 and file 2 |
| Build.ShardMapKeys | postcodes.py:156-159 | a file holds a postcode exactly when some row has it and its first character selects that file |
| Build.ShardMapsDisjoint | postcodes.py:156-159 | the two files never share a postcode |
| Build.ShardMapLatest | postcodes.py:157-159 | a postcode's stored string encodes the position on its last row |
| Resolver.Message | postcodes.py:67 | the error message quotes the cleaned postcode between `No result for '` and a closing quote |
| Resolver.Resolve | postcodes.py:52-67 | a lookup gives the message for the cleaned postcode when it finds nothing; otherwise the cleaned postcode is non-empty and in the file that holds it, and the result is the decoding of its stored string, a position or the error that escapes; the converse, that a present postcode is never reported missing, is `PresentPostcode` |
| Resolver.PresentPostcode | postcodes.py:57-65 | a non-empty cleaned postcode present in its file is never reported missing; when its stored string decodes, the lookup gives exactly that position |
| Resolver.PostcodeLookup.constructor | postcodes.py:48-49 | a new lookup starts with empty results and errors |
| Resolver.PostcodeLookup.LookupPostcode | postcodes.py:52-67 | records `results[pc]` for a postcode that is found, `errors[pc]` for an empty or missing one and raises the decoding error otherwise; the other entries stay as they were; the store asks for the file of the cleaned postcode, and for none when it is empty |
| Resolver.ExpectedMeaning | postcodes.py:50-67 | after a batch, the results hold exactly the batch's found postcodes with their positions, and the errors exactly its missing ones with their messages, in either direction |
| Resolver.ExpectedSameMembers | postcodes.py:47-50 | reordering the batch (as the sort does) does not change the results or the errors |
| Resolver.NoneBrokenMembers | postcodes.py:50-64 | a batch raises nothing exactly when none of its postcodes has a stored string that fails to decode |
| Resolver.HealthyBatch | postcodes.py:47-64 | the sorted batch raises nothing exactly when no raw postcode of the request would raise |
| Resolver.LoadsStep | postcodes.py:25-29 | after one more request the file it names is resident, and one load is added exactly when it was not resident |
| Resolver.LookupNext | postcodes.py:50-67 | one turn of the loop extends the results, errors, resident file and load count of the postcodes already done by those of one more postcode; when that postcode raises, it is the first of the batch so far to raise |
| Resolver.LookupAll | postcodes.py:50 | looking up a batch in order stops after a prefix of it; the resident file and the load count afterwards are exactly those of that prefix's requests; either the prefix is the whole batch, nothing raised and the maps are `ExpectedResults` and `ExpectedErrors`, or the prefix ends at the first postcode that raises and the error is its own |
| Resolver.PrefixLoads | postcodes.py:50 | a prefix of a batch never costs more loads than the batch |
| Resolver.NewPostcodeLookup | postcodes.py:44-50 | succeeds exactly when no postcode of the batch raises, and then the results and errors are those of the batch; otherwise the error is that of the first postcode to raise in sorted order; the resident file and loads are those of the sorted prefix looked up (the whole sorted batch on success), never more loads than the whole sorted batch, and at most two when no cleaned postcode starts below 'a' |
| Resolver.GuardedBatchLoads | postcodes.py:46-47 | when no cleaned postcode starts below 'a', the sorted batch costs at most two loads from any starting state |
| Resolver.RequestedBy | postcodes.py:24-29 | every file a batch asks for is asked for by a non-empty cleaned postcode of the batch |
| Resolver.AfterFile2OnlyFile2 | postcodes.py:46-47 | in such a sorted batch, once file 2 has been asked for, every later postcode asks for file 2 or nothing |
| Resolver.SortedRequestsFile1ThenFile2 | postcodes.py:46-47 | such a sorted batch asks for file 1 and then file 2, never going back |
| Resolver.SortPutsBelowAFirst | postcodes.py:47 | sorting puts a key starting below 'a' before one starting from 'a' to 'l' |
| Resolver.SortThree | postcodes.py:47 | sorting three postcodes where only the first two are out of order swaps those two |
| Resolver.SortTwo | postcodes.py:47 | sorting two postcodes that are out of order swaps them |
| Resolver.BelowAFirstRequests | postcodes.py:24-29 | a key below 'a', then one from 'a' to 'l', then one above 'l' ask for file 2, file 1, file 2 |
| Resolver.BackAndForthLoads | postcodes.py:25-29 | file 2, file 1, file 2 from the empty store cost three loads |
| Resolver.ThirdLoadBelowA | postcodes.py:46-47 | without the condition on the first character, a sorted batch of three postcodes can cost three loads, so the comment's promise does not hold |
| Resolver.ThirdLoadSample | test_postcodes.py:91-92 | the raw test postcodes 'DD6 9DD', '@!"?A' and 'SS2 5JA', looked up together, cost three loads from the empty store |
| Resolver.CleanTestSamples | test_postcodes.py:91-92 | 'DD6 9DD', '@!"?A' and 'SS2 5JA' clean to 'dd69dd', '@!"?a' and 'ss25ja' |
| Resolver.NeverBroken | postcodes.py:57-64 | against well-formed files no lookup raises |
| Resolver.ResultsAndErrorsPartition | postcodes.py:50-67 | against well-formed files each raw postcode of the batch is in exactly one of results and errors, and no other postcode is in either |
| Resolver.EmptyPostcode | postcodes.py:55-67 | an empty cleaned postcode never reaches the store and gives "No result for ''" |
| Resolver.MissingPostcode | postcodes.py:58-67 | a postcode missing from its file gives an error quoting the cleaned postcode |
| Resolver.UnknownPostcodeSample | test_postcodes.py:62-73 | "abc123" gives "No result for 'abc123'" |
| Resolver.RawUpperCaseSample | postcodes.py:67 | the raw "ABC123" gives "No result for 'abc123'", quoting the cleaned form |
| Resolver.CleanUpperSample | postcodes.py:71 | `_clean("ABC123") == "abc123"` |
| Resolver.LowerUpperSample | postcodes.py:71 | `"ABC123".lower() == "abc123"` |
| Resolver.FoundSample | test_postcodes.py:36-47 | "sw81hl", stored in file 2 as "1.975 8.379", resolves to (51.475, -0.121) |
| Resolver.BuildThenResolve | postcodes.py:52-64 | building the files and looking a postcode up in any case or spacing gives back the position on its last row |
| Resolver.BuiltFilesWellFormed | postcodes.py:157-159 | every string in files built from rows decodes, so a batch against them never raises |

## Left out

- A JSON list element that is not a string is not modelled: postcodes are strings. In the source such an element makes `_clean` raise `AttributeError` inside `sorted` (postcodes.py:47, :71), since `index` only checks that the body is a list (postcodes.py:91).
- The Flask route `index` (postcodes.py:74-94) is not modelled. This covers the GET/403/400 answers, the token comparison and `jsonify`, which are HTTP plumbing.
- `msgpack.unpack`, `msgpack.pack` and file opening (postcodes.py:34, :160-161) are not modelled. Each data file is an abstract map from cleaned postcode to stored string, given to the store's constructor.
- CSV reading and the `haversine` accuracy assertion in `generate_msgpack` (postcodes.py:118-155) are not modelled; they are file I/O and floating-point trigonometry. The build's rows arrive as already-cleaned `Record`s; a row with an empty postcode, which makes `pc[0]` raise, is excluded by `Keyed`.
- `generate_token` (randomness, printing), `try_postcodes` (interactive input, network client) and the `AUTH_TOKEN` check at import (environment) are not modelled.
- The module-level shared `postcode_database` (postcodes.py:37) is not modelled as shared between concurrent requests. One store object is passed to the resolver.
- Codec.Decode: floating-point arithmetic is not modelled. Positions are integer thousandths, so the IEEE rounding of `float(lat) + 49.5` and of `'%0.3f'` on a float is not captured.
- Codec.ParseFixed3: only accepts the `[-]digits.ddd` form the build writes. Python's `float` also accepts other spellings (no point, other fraction lengths, `+`, exponents, `inf`, surrounding whitespace), which the model rejects as `BadNumber`. Stored strings are only ever written by the build, so this matters only for hand-made files.
- Normalise.Lower: lower-cases ASCII letters only. Python's `str.lower` also folds non-ASCII letters.
- Database.PostcodeDatabase.LoadFile: `del self._data` between loads (postcodes.py:33) is modelled as clearing the field; memory use itself is not modelled.
