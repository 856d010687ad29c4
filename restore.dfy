/**
 * Restore: JSON slice files back to region containers.
 *
 * Slice file names are grouped by the region coordinates they carry. For
 * one region, the chunk arrays of its slice documents are read in file
 * order and array order; each chunk object gives up its `x` and `z`
 * members, is decoded to a tag, optionally gets its defaults back, and
 * the records are written as one container `r.<x>.<z>.mca` when there is
 * at least one.
 *
 * Reading the directory and parsing the JSON text are outside the model:
 * the file names come in directory order and the documents already
 * parsed, in the order of the region's file list.
 */
module Restore {
  import opened Wrappers
  import opened Ints
  import opened Nbt
  import opened Json
  import NbtJson
  import NbtJsonLaws
  import Configuration
  import Denoise
  import Mca
  import RegionNames
  import Export

  // ---------------------------------------------------------------------
  // Grouping slice files by region
  // ---------------------------------------------------------------------

  type Region = (i32, i32)

  /**
   * What the grouping needs of a name: its region, `None` when the pattern
   * does not match, or an error. The laws below hold for any such parser;
   * the restore uses `ParseSliceFilename`.
   */
  type NameParser = string -> Result<Option<Region>, RegionNames.NameError>

  /** The grouping map after the first n names: the first bad coordinate aborts, unmatched names are skipped. */
  function GroupedAfter(parse: NameParser, names: seq<string>, n: nat): Result<map<Region, seq<string>>, RegionNames.NameError>
    requires n <= |names|
  {
    if n == 0 then Ok(map[])
    else
      match GroupedAfter(parse, names, n - 1)
      case Err(e) => Err(e)
      case Ok(groups) =>
        match parse(names[n - 1])
        case Err(e) => Err(e)
        case Ok(None) => Ok(groups)
        case Ok(Some(key)) => Ok(groups[key := (if key in groups then groups[key] else []) + [names[n - 1]]])
  }

  function Grouping(parse: NameParser, names: seq<string>): Result<map<Region, seq<string>>, RegionNames.NameError> {
    GroupedAfter(parse, names, |names|)
  }

  lemma {:induction false} GroupedErrSticks(parse: NameParser, names: seq<string>, i: nat, n: nat)
    requires i <= n <= |names| && GroupedAfter(parse, names, i).Err?
    ensures GroupedAfter(parse, names, n) == GroupedAfter(parse, names, i)
    decreases n
  {
    if n > i {
      GroupedErrSticks(parse, names, i, n - 1);
    }
  }

  /** One name more: a bad coordinate ends the grouping, an unmatched name is skipped, a match is pushed onto its region. */
  lemma GroupedStep(parse: NameParser, names: seq<string>, i: nat, groups: map<Region, seq<string>>)
    requires i < |names| && GroupedAfter(parse, names, i) == Ok(groups)
    ensures parse(names[i]).Err? ==> Grouping(parse, names) == Err(parse(names[i]).error)
    ensures parse(names[i]) == Ok(None) ==> GroupedAfter(parse, names, i + 1) == Ok(groups)
    ensures parse(names[i]).Ok? && parse(names[i]).value.Some? ==>
      var key := parse(names[i]).value.value;
      GroupedAfter(parse, names, i + 1) == Ok(groups[key := (if key in groups then groups[key] else []) + [names[i]]])
  {
    if parse(names[i]).Err? {
      GroupedErrSticks(parse, names, i + 1, |names|);
    }
  }

  /** `region_files.entry((rx, rz)).or_default().push(path)` over the directory's file names. */
  method GroupSliceFiles(names: seq<string>) returns (r: Result<map<Region, seq<string>>, RegionNames.NameError>)
    ensures r == Grouping(RegionNames.ParseSliceFilename, names)
  {
    var parse: NameParser := RegionNames.ParseSliceFilename;
    var groups: map<Region, seq<string>> := map[];
    for i := 0 to |names|
      invariant GroupedAfter(parse, names, i) == Ok(groups)
    {
      var parsed := parse(names[i]);
      GroupedStep(parse, names, i, groups);
      if parsed.Err? {
        return Err(parsed.error);
      }
      if parsed.value.Some? {
        var key := parsed.value.value;
        var files := if key in groups then groups[key] else [];
        groups := groups[key := files + [names[i]]];
      }
    }
    return Ok(groups);
  }

  /** The names, in order, that belong to the region. */
  function NamesOf(parse: NameParser, names: seq<string>, key: Region): (r: seq<string>)
    ensures forall s | s in r :: s in names && parse(s) == Ok(Some(key))
  {
    if names == [] then []
    else
      var last := names[|names| - 1];
      NamesOf(parse, names[..|names| - 1], key) + (if parse(last) == Ok(Some(key)) then [last] else [])
  }

  predicate SomeNameFails(parse: NameParser, names: seq<string>) {
    exists i | 0 <= i < |names| :: parse(names[i]).Err?
  }

  lemma {:induction false} GroupedErrLaw(parse: NameParser, names: seq<string>, n: nat)
    requires n <= |names|
    ensures GroupedAfter(parse, names, n).Err? <==> SomeNameFails(parse, names[..n])
  {
    if n > 0 {
      GroupedErrLaw(parse, names, n - 1);
      SomeNameFailsSnoc(parse, names, n);
    }
  }

  lemma SomeNameFailsSnoc(parse: NameParser, names: seq<string>, n: nat)
    requires 0 < n <= |names|
    ensures SomeNameFails(parse, names[..n]) <==> SomeNameFails(parse, names[..n - 1]) || parse(names[n - 1]).Err?
  {
    var prefix, init := names[..n], names[..n - 1];
    if SomeNameFails(parse, prefix) {
      var i :| 0 <= i < n && parse(prefix[i]).Err?;
      if i < n - 1 {
        assert init[i] == prefix[i];
      }
    }
    if SomeNameFails(parse, init) {
      var i :| 0 <= i < n - 1 && parse(init[i]).Err?;
      assert prefix[i] == init[i];
    }
    if parse(names[n - 1]).Err? {
      assert prefix[n - 1] == names[n - 1];
    }
  }

  lemma NamesOfSnoc(parse: NameParser, names: seq<string>, n: nat, key: Region)
    requires 0 < n <= |names|
    ensures NamesOf(parse, names[..n], key) ==
      NamesOf(parse, names[..n - 1], key) + (if parse(names[n - 1]) == Ok(Some(key)) then [names[n - 1]] else [])
  {
    assert names[..n][..n - 1] == names[..n - 1];
  }

  /** One more name keeps one key's group equal to that key's names so far. */
  lemma GroupedKeyStep(parse: NameParser, names: seq<string>, n: nat, key: Region)
    requires 0 < n <= |names| && GroupedAfter(parse, names, n).Ok? && GroupedAfter(parse, names, n - 1).Ok?
    requires var g := GroupedAfter(parse, names, n - 1).value;
      (key in g <==> NamesOf(parse, names[..n - 1], key) != []) &&
      (key in g ==> g[key] == NamesOf(parse, names[..n - 1], key))
    ensures var g := GroupedAfter(parse, names, n).value;
      (key in g <==> NamesOf(parse, names[..n], key) != []) &&
      (key in g ==> g[key] == NamesOf(parse, names[..n], key))
  {
    NamesOfSnoc(parse, names, n, key);
  }

  lemma {:induction false} GroupedMapLaw(parse: NameParser, names: seq<string>, n: nat)
    requires n <= |names| && GroupedAfter(parse, names, n).Ok?
    ensures forall key ::
      (key in GroupedAfter(parse, names, n).value <==> NamesOf(parse, names[..n], key) != []) &&
      (key in GroupedAfter(parse, names, n).value ==> GroupedAfter(parse, names, n).value[key] == NamesOf(parse, names[..n], key))
  {
    if n > 0 {
      assert GroupedAfter(parse, names, n - 1).Ok?;
      GroupedMapLaw(parse, names, n - 1);
      forall key
        ensures (key in GroupedAfter(parse, names, n).value <==> NamesOf(parse, names[..n], key) != []) &&
          (key in GroupedAfter(parse, names, n).value ==> GroupedAfter(parse, names, n).value[key] == NamesOf(parse, names[..n], key))
      {
        GroupedKeyStep(parse, names, n, key);
      }
    } else {
      forall key ensures NamesOf(parse, names[..0], key) == [] {
        assert names[..0] == [];
      }
    }
  }

  /**
   * Grouping fails exactly when some name fails to parse. Otherwise a region
   * is a key exactly when some name belongs to it, and its list holds those
   * names in directory order.
   */
  lemma GroupingLaws(parse: NameParser, names: seq<string>)
    ensures Grouping(parse, names).Err? <==> SomeNameFails(parse, names)
    ensures Grouping(parse, names).Ok? ==> forall key ::
      (key in Grouping(parse, names).value <==> NamesOf(parse, names, key) != []) &&
      (key in Grouping(parse, names).value ==> Grouping(parse, names).value[key] == NamesOf(parse, names, key))
  {
    GroupedErrLaw(parse, names, |names|);
    if Grouping(parse, names).Ok? {
      GroupedMapLaw(parse, names, |names|);
    }
    assert names[..|names|] == names;
  }

  lemma InitThenLast<T>(xs: seq<T>)
    requires |xs| > 0
    ensures xs[..|xs| - 1] + [xs[|xs| - 1]] == xs
  {
  }

  lemma NamesOfOneRegion(parse: NameParser, names: seq<string>, key: Region, other: Region)
    requires forall i | 0 <= i < |names| :: parse(names[i]) == Ok(Some(key))
    ensures NamesOf(parse, names, key) == names
    ensures other != key ==> NamesOf(parse, names, other) == []
  {
    NamesOfOwnRegion(parse, names, key);
    if other != key {
      NamesOfOtherRegion(parse, names, key, other);
    }
  }

  lemma {:induction false} NamesOfOwnRegion(parse: NameParser, names: seq<string>, key: Region)
    requires forall i | 0 <= i < |names| :: parse(names[i]) == Ok(Some(key))
    ensures NamesOf(parse, names, key) == names
  {
    if names != [] {
      var init := names[..|names| - 1];
      assert forall i | 0 <= i < |init| :: init[i] == names[i];
      NamesOfOwnRegion(parse, init, key);
      assert parse(names[|names| - 1]) == Ok(Some(key));
      InitThenLast(names);
    }
  }

  lemma {:induction false} NamesOfOtherRegion(parse: NameParser, names: seq<string>, key: Region, other: Region)
    requires forall i | 0 <= i < |names| :: parse(names[i]) == Ok(Some(key))
    requires other != key
    ensures NamesOf(parse, names, other) == []
  {
    if names != [] {
      var init := names[..|names| - 1];
      assert forall i | 0 <= i < |init| :: init[i] == names[i];
      NamesOfOtherRegion(parse, init, key, other);
      assert parse(names[|names| - 1]) == Ok(Some(key));
    }
  }

  /** Names that all belong to one region group into that region alone, in their order. */
  lemma GroupingOneRegion(parse: NameParser, names: seq<string>, key: Region)
    requires names != []
    requires forall i | 0 <= i < |names| :: parse(names[i]) == Ok(Some(key))
    ensures Grouping(parse, names) == Ok(map[key := names])
  {
    GroupingLaws(parse, names);
    assert !SomeNameFails(parse, names);
    var m := Grouping(parse, names).value;
    forall other
      ensures other in m <==> other == key
      ensures other in m ==> m[other] == names
    {
      NamesOfOneRegion(parse, names, key, other);
    }
    assert m == map[key := names];
  }

  /** The names the export gives a region's slices group back to that region, in slice order. */
  lemma SliceNamesGroupBack(rx: i32, rz: i32, count: nat)
    requires count > 0
    ensures var names := seq(count, i requires 0 <= i < count => RegionNames.SliceFileName(rx, rz, i));
      Grouping(RegionNames.ParseSliceFilename, names) == Ok(map[(rx, rz) := names])
  {
    var names := seq(count, i requires 0 <= i < count => RegionNames.SliceFileName(rx, rz, i));
    forall i | 0 <= i < count
      ensures RegionNames.ParseSliceFilename(names[i]) == Ok(Some((rx, rz)))
    {
      RegionNames.SliceFileNameRoundTrip(rx, rz, i);
    }
    GroupingOneRegion(RegionNames.ParseSliceFilename, names, (rx, rz));
  }

  // ---------------------------------------------------------------------
  // One chunk
  // ---------------------------------------------------------------------

  /**
   * MissingChunks: a slice document has no `chunks` array. MissingX,
   * MissingZ: a chunk object lacks an integer coordinate. DecodeFailed: the
   * tag decoder refused the chunk. WriteFailed: the container writer failed.
   */
  datatype RestoreError =
    | MissingChunks
    | MissingX
    | MissingZ
    | DecodeFailed(cause: NbtJson.CodecError)
    | WriteFailed(failure: Mca.McaError)

  /** `get(k).and_then(as_i64)`. */
  function IntMember(j: Json, k: string): (r: Option<i64>)
    ensures r.Some? <==> j.JObject? && k in j.fields && j.fields[k].JInt?
    ensures r.Some? ==> r.value == j.fields[k].num
  {
    match Get(j, k)
    case Some(JInt(n)) => Some(n)
    case _ => None
  }

  /**
   * One chunk object back to a record: both coordinates must be integers
   * and are cut to 32 bits with `as i32`; `x` and `z` are removed before
   * decoding; the defaults are restored iff the flag is set.
   */
  function RestoredChunk(rev: NbtJson.Revision, j: Json, restoreDefaults: bool): (r: Result<Mca.ChunkData, RestoreError>)
  {
    match (IntMember(j, "x"), IntMember(j, "z"))
    case (None, _) => Err(MissingX)
    case (_, None) => Err(MissingZ)
    case (Some(x), Some(z)) =>
      match NbtJson.JsonToNbt(rev, JObject(j.fields - {"x", "z"}))
      case Err(e) => Err(DecodeFailed(e))
      case Ok(v) => Ok(Mca.ChunkData(WrapI32(x), WrapI32(z), if restoreDefaults then Denoise.WithDefaults(v) else v))
  }

  /**
   * The error cases of a chunk, its coordinates modulo 2^32, and its tag:
   * the decoded object without `x` and `z`, with defaults iff asked. A
   * restored compound never has `x` or `z` keys.
   */
  lemma RestoredChunkLaws(rev: NbtJson.Revision, j: Json, restoreDefaults: bool)
    ensures IntMember(j, "x").None? ==> RestoredChunk(rev, j, restoreDefaults) == Err(MissingX)
    ensures IntMember(j, "x").Some? && IntMember(j, "z").None? ==> RestoredChunk(rev, j, restoreDefaults) == Err(MissingZ)
    ensures RestoredChunk(rev, j, restoreDefaults).Ok? ==>
      var chunk := RestoredChunk(rev, j, restoreDefaults).value;
      && j.JObject? && "x" in j.fields && "z" in j.fields
      && chunk.x % TWO_32 == j.fields["x"].num % TWO_32
      && chunk.z % TWO_32 == j.fields["z"].num % TWO_32
      && (I32_MIN <= j.fields["x"].num <= I32_MAX ==> chunk.x == j.fields["x"].num)
      && (I32_MIN <= j.fields["z"].num <= I32_MAX ==> chunk.z == j.fields["z"].num)
      && (chunk.data.Compound? ==> "x" !in chunk.data.entries && "z" !in chunk.data.entries)
      && var decoded := NbtJson.JsonToNbt(rev, JObject(j.fields - {"x", "z"}));
      && decoded.Ok?
      && chunk.data == (if restoreDefaults then Denoise.WithDefaults(decoded.value) else decoded.value)
  {
    if RestoredChunk(rev, j, restoreDefaults).Ok? {
      var x, z := j.fields["x"].num, j.fields["z"].num;
      if I32_MIN <= x <= I32_MAX {
        WrapI32Identity(x);
      }
      if I32_MIN <= z <= I32_MAX {
        WrapI32Identity(z);
      }
    }
  }

  method RestoreChunk(rev: NbtJson.Revision, chunkJson: Json, restoreDefaults: bool) returns (r: Result<Mca.ChunkData, RestoreError>)
    ensures r == RestoredChunk(rev, chunkJson, restoreDefaults)
  {
    var x := IntMember(chunkJson, "x");
    if x.None? {
      return Err(MissingX);
    }
    var z := IntMember(chunkJson, "z");
    if z.None? {
      return Err(MissingZ);
    }
    var cx, cz := WrapI32(x.value), WrapI32(z.value);
    var obj := chunkJson.fields;
    obj := obj - {"x"};
    obj := obj - {"z"};
    assert obj == chunkJson.fields - {"x", "z"};
    var value := NbtJson.JsonToNbt(rev, JObject(obj));
    if value.Err? {
      return Err(DecodeFailed(value.error));
    }
    var data := value.value;
    if restoreDefaults {
      data := Denoise.RestoreDefaults(data);
    }
    return Ok(Mca.ChunkData(cx, cz, data));
  }

  // ---------------------------------------------------------------------
  // Export then restore
  // ---------------------------------------------------------------------

  /** The tag the export loop encodes: denoised or as read. */
  function ExportedTag(chunk: Mca.ChunkData, denoise: bool, aggressive: bool, c: Configuration.ChunkDenoiseConfig): Value {
    if denoise then Denoise.DenoisedChunk(chunk.data, aggressive, c) else chunk.data
  }

  /**
   * A chunk whose exported tag survives the trip: a compound the codec
   * reads back, without keys of its own named `x` or `z`, whose JSON
   * neither the empty-section filter nor the empty-value pruning changes.
   */
  predicate RoundTripReady(rev: NbtJson.Revision, chunk: Mca.ChunkData, denoise: bool, aggressive: bool, c: Configuration.ChunkDenoiseConfig) {
    var d := ExportedTag(chunk, denoise, aggressive, c);
    var j := Export.Stamped(NbtJson.NbtToJson(rev, d), chunk.x, chunk.z);
    && d.Compound?
    && NbtJsonLaws.Encodable(rev, d)
    && "x" !in d.entries && "z" !in d.entries
    && Export.WithoutEmptySections(j) == j
    && Export.Clean(j)
  }

  /**
   * Restoring the exported JSON of such a chunk gives back its coordinates
   * and the exported tag, with the three defaults added iff asked.
   */
  lemma ChunkRoundTrip(rev: NbtJson.Revision, chunk: Mca.ChunkData, denoise: bool, aggressive: bool, c: Configuration.ChunkDenoiseConfig, restoreDefaults: bool)
    requires RoundTripReady(rev, chunk, denoise, aggressive, c)
    ensures
      var d := ExportedTag(chunk, denoise, aggressive, c);
      RestoredChunk(rev, Export.ChunkJson(rev, chunk, denoise, aggressive, c), restoreDefaults)
        == Ok(Mca.ChunkData(chunk.x, chunk.z, if restoreDefaults then Denoise.WithDefaults(d) else d))
  {
    var d := ExportedTag(chunk, denoise, aggressive, c);
    var e := NbtJson.NbtToJson(rev, d);
    var j := Export.Stamped(e, chunk.x, chunk.z);
    Export.CleanIsUnchanged(j);
    assert Export.ChunkJson(rev, chunk, denoise, aggressive, c) == j;
    assert j.fields - {"x", "z"} == e.fields;
    NbtJsonLaws.RoundTrip(rev, d);
    WrapI32Identity(chunk.x);
    WrapI32Identity(chunk.z);
  }

  // ---------------------------------------------------------------------
  // A region's slices
  // ---------------------------------------------------------------------

  /** The first error of the two, or both lists joined. */
  function Then<T, E>(a: Result<seq<T>, E>, b: Result<seq<T>, E>): Result<seq<T>, E> {
    if a.Err? then a else if b.Err? then b else Ok(a.value + b.value)
  }

  /** The values in order, or the first error: what a loop of `?`-calls pushing each value gives. */
  function Collected<T, E>(rs: seq<Result<T, E>>): Result<seq<T>, E> {
    if rs == [] then Ok([])
    else
      var last := rs[|rs| - 1];
      Then(Collected(rs[..|rs| - 1]), if last.Ok? then Ok([last.value]) else Err(last.error))
  }

  /** Each chunk object of an array, restored on its own. */
  function ChunkResults(rev: NbtJson.Revision, elems: seq<Json>, restoreDefaults: bool): (r: seq<Result<Mca.ChunkData, RestoreError>>)
    ensures |r| == |elems| && forall i | 0 <= i < |elems| :: r[i] == RestoredChunk(rev, elems[i], restoreDefaults)
  {
    seq(|elems|, i requires 0 <= i < |elems| => RestoredChunk(rev, elems[i], restoreDefaults))
  }

  /** The chunk objects of one array, restored in order; the first failure aborts. */
  function RestoredList(rev: NbtJson.Revision, elems: seq<Json>, restoreDefaults: bool): Result<seq<Mca.ChunkData>, RestoreError> {
    Collected(ChunkResults(rev, elems, restoreDefaults))
  }

  /** `json.get("chunks").and_then(as_array)`. */
  function ChunksArray(doc: Json): (r: Result<seq<Json>, RestoreError>)
    ensures r.Err? ==> r.error == MissingChunks
  {
    match Get(doc, "chunks")
    case Some(JArray(elems)) => Ok(elems)
    case _ => Err(MissingChunks)
  }

  function RestoredDocument(rev: NbtJson.Revision, doc: Json, restoreDefaults: bool): Result<seq<Mca.ChunkData>, RestoreError> {
    match ChunksArray(doc)
    case Err(e) => Err(e)
    case Ok(elems) => RestoredList(rev, elems, restoreDefaults)
  }

  /** The records of the region's documents, in file order and then array order. */
  function RestoredDocs(rev: NbtJson.Revision, docs: seq<Json>, restoreDefaults: bool): Result<seq<Mca.ChunkData>, RestoreError> {
    if docs == [] then Ok([])
    else Then(RestoredDocs(rev, docs[..|docs| - 1], restoreDefaults), RestoredDocument(rev, docs[|docs| - 1], restoreDefaults))
  }

  lemma ThenAssociative<T, E>(a: Result<seq<T>, E>, b: Result<seq<T>, E>, c: Result<seq<T>, E>)
    ensures Then(Then(a, b), c) == Then(a, Then(b, c))
  {
    if a.Ok? && b.Ok? && c.Ok? {
      assert (a.value + b.value) + c.value == a.value + (b.value + c.value);
    }
  }

  lemma {:induction false} CollectedAppend<T, E>(a: seq<Result<T, E>>, b: seq<Result<T, E>>)
    ensures Collected(a + b) == Then(Collected(a), Collected(b))
    decreases |b|
  {
    if b == [] {
      assert a + b == a;
      if Collected(a).Ok? {
        assert Collected(a).value + [] == Collected(a).value;
      }
    } else {
      var init := b[..|b| - 1];
      var last := b[|b| - 1];
      var one: Result<seq<T>, E> := if last.Ok? then Ok([last.value]) else Err(last.error);
      assert (a + b)[..|a + b| - 1] == a + init;
      assert (a + b)[|a + b| - 1] == last;
      CollectedAppend(a, init);
      ThenAssociative(Collected(a), Collected(init), one);
    }
  }

  /** One more success extends the collected values by it. */
  lemma CollectedStep<T, E>(rs: seq<Result<T, E>>, k: nat)
    requires k < |rs| && Collected(rs[..k]).Ok? && rs[k].Ok?
    ensures Collected(rs[..k + 1]) == Ok(Collected(rs[..k]).value + [rs[k].value])
  {
    assert rs[..k + 1][..k] == rs[..k];
  }

  /** The first failure is the outcome of the whole sequence. */
  lemma CollectedStops<T, E>(rs: seq<Result<T, E>>, k: nat)
    requires k < |rs| && Collected(rs[..k]).Ok? && rs[k].Err?
    ensures Collected(rs) == Err(rs[k].error)
  {
    assert rs[..k + 1][..k] == rs[..k];
    assert Collected(rs[..k + 1]) == Err(rs[k].error);
    CollectedAppend(rs[..k + 1], rs[k + 1..]);
    assert rs[..k + 1] + rs[k + 1..] == rs;
  }

  /** Restoring a concatenation restores the first part, then the second. */
  lemma RestoredListAppend(rev: NbtJson.Revision, a: seq<Json>, b: seq<Json>, restoreDefaults: bool)
    ensures RestoredList(rev, a + b, restoreDefaults) == Then(RestoredList(rev, a, restoreDefaults), RestoredList(rev, b, restoreDefaults))
  {
    var both, l, r := ChunkResults(rev, a + b, restoreDefaults), ChunkResults(rev, a, restoreDefaults), ChunkResults(rev, b, restoreDefaults);
    forall i | 0 <= i < |both|
      ensures both[i] == (l + r)[i]
    {
      if i < |a| {
        assert (a + b)[i] == a[i];
      } else {
        assert (a + b)[i] == b[i - |a|];
      }
    }
    assert both == l + r;
    CollectedAppend(ChunkResults(rev, a, restoreDefaults), ChunkResults(rev, b, restoreDefaults));
  }

  /** What restoring an exported chunk should give: its coordinates and exported tag, with defaults iff asked. */
  function RestoredExport(chunk: Mca.ChunkData, denoise: bool, aggressive: bool, c: Configuration.ChunkDenoiseConfig,
                          restoreDefaults: bool): Mca.ChunkData
  {
    var d := ExportedTag(chunk, denoise, aggressive, c);
    Mca.ChunkData(chunk.x, chunk.z, if restoreDefaults then Denoise.WithDefaults(d) else d)
  }

  /** The region's fully generated chunks, each as its restore should give it, in region order. */
  function FullChunksRestored(chunks: seq<Mca.ChunkData>, denoise: bool, aggressive: bool, c: Configuration.ChunkDenoiseConfig,
                              restoreDefaults: bool): seq<Mca.ChunkData>
  {
    if chunks == [] then []
    else
      var last := chunks[|chunks| - 1];
      FullChunksRestored(chunks[..|chunks| - 1], denoise, aggressive, c, restoreDefaults)
        + (if Export.IsFullChunk(last.data) then [RestoredExport(last, denoise, aggressive, c, restoreDefaults)] else [])
  }

  /** The export of a region is the export of all but its last chunk, then the last chunk's object if it has one. */
  lemma ExportedAllSnoc(rev: NbtJson.Revision, chunks: seq<Mca.ChunkData>, denoise: bool, aggressive: bool,
                        c: Configuration.ChunkDenoiseConfig, skipEmpty: bool)
    requires chunks != []
    ensures
      var last := Export.ExportedChunk(rev, chunks[|chunks| - 1], denoise, aggressive, c, skipEmpty);
      Export.ExportedAll(rev, chunks, denoise, aggressive, c, skipEmpty)
        == Export.ExportedAll(rev, chunks[..|chunks| - 1], denoise, aggressive, c, skipEmpty) + (if last.Some? then [last.value] else [])
  {
    var es := Export.Outcomes(rev, chunks, denoise, aggressive, c, skipEmpty);
    assert es[..|es| - 1] == Export.Outcomes(rev, chunks[..|chunks| - 1], denoise, aggressive, c, skipEmpty);
  }

  /** A single chunk object that restores gives a one-record list. */
  lemma RestoredSingle(rev: NbtJson.Revision, j: Json, restoreDefaults: bool)
    requires RestoredChunk(rev, j, restoreDefaults).Ok?
    ensures RestoredList(rev, [j], restoreDefaults) == Ok([RestoredChunk(rev, j, restoreDefaults).value])
  {
    assert ChunkResults(rev, [j], restoreDefaults) == [RestoredChunk(rev, j, restoreDefaults)];
    CollectedSingle(RestoredChunk(rev, j, restoreDefaults));
  }

  lemma CollectedSingle<T, E>(r: Result<T, E>)
    ensures Collected([r]) == if r.Ok? then Ok([r.value]) else Err(r.error)
  {
    assert [r][..0] == [];
    if r.Ok? {
      assert [] + [r.value] == [r.value];
    }
  }

  /** One chunk more: the induction step of the region round trip. */
  lemma RegionRoundTripStep(rev: NbtJson.Revision, chunks: seq<Mca.ChunkData>, denoise: bool, aggressive: bool,
                            c: Configuration.ChunkDenoiseConfig, restoreDefaults: bool)
    requires chunks != []
    requires RestoredList(rev, Export.ExportedAll(rev, chunks[..|chunks| - 1], denoise, aggressive, c, false), restoreDefaults)
      == Ok(FullChunksRestored(chunks[..|chunks| - 1], denoise, aggressive, c, restoreDefaults))
    requires var last := chunks[|chunks| - 1];
      Export.IsFullChunk(last.data) ==>
        RestoredChunk(rev, Export.ChunkJson(rev, last, denoise, aggressive, c), restoreDefaults)
          == Ok(RestoredExport(last, denoise, aggressive, c, restoreDefaults))
    ensures RestoredList(rev, Export.ExportedAll(rev, chunks, denoise, aggressive, c, false), restoreDefaults)
      == Ok(FullChunksRestored(chunks, denoise, aggressive, c, restoreDefaults))
  {
    var init := chunks[..|chunks| - 1];
    var last := chunks[|chunks| - 1];
    var front := Export.ExportedAll(rev, init, denoise, aggressive, c, false);
    var out := Export.ExportedChunk(rev, last, denoise, aggressive, c, false);
    var tail := if out.Some? then [out.value] else [];
    ExportedAllSnoc(rev, chunks, denoise, aggressive, c, false);
    RestoredListAppend(rev, front, tail, restoreDefaults);
    if out.Some? {
      RestoredSingle(rev, out.value, restoreDefaults);
    }
  }

  /**
   * Export without skipping, then restore: the chunk objects of a region
   * whose chunks all survive the trip restore to its fully generated chunks,
   * in order, and nothing else.
   */
  lemma {:induction false} RegionRoundTrip(rev: NbtJson.Revision, chunks: seq<Mca.ChunkData>, denoise: bool, aggressive: bool,
                                           c: Configuration.ChunkDenoiseConfig, restoreDefaults: bool)
    requires forall i | 0 <= i < |chunks| :: RoundTripReady(rev, chunks[i], denoise, aggressive, c)
    ensures RestoredList(rev, Export.ExportedAll(rev, chunks, denoise, aggressive, c, false), restoreDefaults)
      == Ok(FullChunksRestored(chunks, denoise, aggressive, c, restoreDefaults))
  {
    if chunks != [] {
      var init := chunks[..|chunks| - 1];
      assert forall i | 0 <= i < |init| :: init[i] == chunks[i];
      RegionRoundTrip(rev, init, denoise, aggressive, c, restoreDefaults);
      ChunkRoundTrip(rev, chunks[|chunks| - 1], denoise, aggressive, c, restoreDefaults);
      RegionRoundTripStep(rev, chunks, denoise, aggressive, c, restoreDefaults);
    }
  }

  /** Every array element of the documents, in file order then array order, when each has a `chunks` array. */
  function AllElems(docs: seq<Json>): seq<Json>
    requires forall i | 0 <= i < |docs| :: ChunksArray(docs[i]).Ok?
  {
    if docs == [] then [] else AllElems(docs[..|docs| - 1]) + ChunksArray(docs[|docs| - 1]).value
  }

  /**
   * How the records are split into files does not matter: the documents
   * restore to what the concatenation of their arrays restores to.
   */
  lemma {:induction false} RestoredDocsFlatten(rev: NbtJson.Revision, docs: seq<Json>, restoreDefaults: bool)
    requires forall i | 0 <= i < |docs| :: ChunksArray(docs[i]).Ok?
    ensures RestoredDocs(rev, docs, restoreDefaults) == RestoredList(rev, AllElems(docs), restoreDefaults)
  {
    if docs != [] {
      var init := docs[..|docs| - 1];
      RestoredDocsFlatten(rev, init, restoreDefaults);
      RestoredListAppend(rev, AllElems(init), ChunksArray(docs[|docs| - 1]).value, restoreDefaults);
    }
  }

  /** A document without a `chunks` array stops the restore of its region, whatever follows it. */
  lemma {:induction false} MissingChunksAborts(rev: NbtJson.Revision, docs: seq<Json>, i: nat, restoreDefaults: bool)
    requires i < |docs| && ChunksArray(docs[i]).Err?
    requires RestoredDocs(rev, docs[..i], restoreDefaults).Ok?
    ensures RestoredDocs(rev, docs, restoreDefaults) == Err(MissingChunks)
    decreases |docs|
  {
    if i < |docs| - 1 {
      var init := docs[..|docs| - 1];
      assert init[..i] == docs[..i];
      MissingChunksAborts(rev, init, i, restoreDefaults);
    } else {
      assert docs[..|docs| - 1] == docs[..i];
    }
  }

  /** `r.<rx>.<rz>.mca` and its bytes. */
  datatype RegionFile = RegionFile(name: string, bytes: seq<byte>)

  /** The container for the region's records, or nothing when there are none. */
  function RestoredRegion(rev: NbtJson.Revision, rx: i32, rz: i32, docs: seq<Json>, restoreDefaults: bool,
                          codecs: Mca.Codecs): Result<Option<RegionFile>, RestoreError>
  {
    match RestoredDocs(rev, docs, restoreDefaults)
    case Err(e) => Err(e)
    case Ok(chunks) =>
      match Mca.Container(chunks, codecs)
      case Err(e) => Err(WriteFailed(e))
      case Ok(None) => Ok(None)
      case Ok(Some(bytes)) => Ok(Some(RegionFile(RegionNames.McaFileName(rx, rz), bytes)))
  }

  /**
   * A region file is written exactly when the documents restore without
   * error to at least one record; it is named after the region, and its
   * name parses back to the region's coordinates.
   */
  lemma RestoredRegionLaws(rev: NbtJson.Revision, rx: i32, rz: i32, docs: seq<Json>, restoreDefaults: bool, codecs: Mca.Codecs)
    ensures var r := RestoredRegion(rev, rx, rz, docs, restoreDefaults, codecs);
      && (RestoredDocs(rev, docs, restoreDefaults).Err? ==> r == Err(RestoredDocs(rev, docs, restoreDefaults).error))
      && (RestoredDocs(rev, docs, restoreDefaults) == Ok([]) ==> r == Ok(None))
      && (r.Ok? && r.value.Some? ==>
            && RestoredDocs(rev, docs, restoreDefaults).Ok? && RestoredDocs(rev, docs, restoreDefaults).value != []
            && r.value.value.name == RegionNames.McaFileName(rx, rz)
            && RegionNames.ParseMcaFilename(r.value.value.name) == Some((rx, rz)))
      && (RestoredDocs(rev, docs, restoreDefaults).Ok? && RestoredDocs(rev, docs, restoreDefaults).value != [] ==>
            var w := Mca.Container(RestoredDocs(rev, docs, restoreDefaults).value, codecs);
            && (r.Err? <==> w.Err?)
            && (r.Err? ==> r.error == WriteFailed(w.error))
            && (r.Ok? ==> r.value.Some? && w == Ok(Some(r.value.value.bytes))))
  {
    RegionNames.McaFileNameRoundTrip(rx, rz, "");
    assert RegionNames.McaFileName(rx, rz) + "" == RegionNames.McaFileName(rx, rz);
  }

  /**
   * The region file restore writes, in the order the directory listed the
   * records, reads back as those records with their positions reduced to
   * the region, one each, in slot order.
   */
  lemma RestoredFileReadsBack(rev: NbtJson.Revision, rx: i32, rz: i32, docs: seq<Json>, restoreDefaults: bool, codecs: Mca.Codecs)
    requires Mca.Lawful(codecs)
    requires RestoredDocs(rev, docs, restoreDefaults).Ok? && RestoredDocs(rev, docs, restoreDefaults).value != []
    requires Mca.Placeable(RestoredDocs(rev, docs, restoreDefaults).value, codecs)
    ensures var r := RestoredRegion(rev, rx, rz, docs, restoreDefaults, codecs);
      var chunks := RestoredDocs(rev, docs, restoreDefaults).value;
      && r.Ok? && r.value.Some?
      && Mca.ReadRegion(r.value.value.bytes, codecs).Ok?
      && var rs := Mca.ReadRegion(r.value.value.bytes, codecs).value;
      && Mca.SlotOrdered(rs) && |rs| == |chunks|
      && (forall k | 0 <= k < |chunks| :: Mca.Localised(chunks[k]) in rs)
      && (forall c | c in rs :: exists k | 0 <= k < |chunks| :: c == Mca.Localised(chunks[k]))
  {
    Mca.ContainerReadBack(RestoredDocs(rev, docs, restoreDefaults).value, codecs);
  }

  /** `restore_region_slices` over the region's documents, returning the file it writes. */
  method RestoreRegionSlices(rev: NbtJson.Revision, rx: i32, rz: i32, docs: seq<Json>, restoreDefaults: bool,
                             codecs: Mca.Codecs) returns (r: Result<Option<RegionFile>, RestoreError>)
    ensures r == RestoredRegion(rev, rx, rz, docs, restoreDefaults, codecs)
  {
    var chunks: seq<Mca.ChunkData> := [];
    for i := 0 to |docs|
      invariant RestoredDocs(rev, docs[..i], restoreDefaults) == Ok(chunks)
    {
      assert docs[..i + 1][..i] == docs[..i];
      var chunksArray := ChunksArray(docs[i]);
      if chunksArray.Err? {
        MissingChunksAborts(rev, docs, i, restoreDefaults);
        return Err(MissingChunks);
      }
      var restored := RestoreArray(rev, chunksArray.value, restoreDefaults);
      if restored.Err? {
        DocumentFails(rev, docs, i, restoreDefaults);
        return Err(restored.error);
      }
      chunks := chunks + restored.value;
    }
    assert docs[..|docs|] == docs;
    if chunks != [] {
      var bytes := Mca.WriteMca(chunks, codecs);
      if bytes.Err? {
        return Err(WriteFailed(bytes.error));
      }
      return Ok(if bytes.value.Some? then Some(RegionFile(RegionNames.McaFileName(rx, rz), bytes.value.value)) else None);
    }
    return Ok(None);
  }

  /** `for chunk_json in chunks_array { ... chunks.push(...) }`, returning the records pushed. */
  method RestoreArray(rev: NbtJson.Revision, elems: seq<Json>, restoreDefaults: bool)
    returns (r: Result<seq<Mca.ChunkData>, RestoreError>)
    ensures r == RestoredList(rev, elems, restoreDefaults)
  {
    ghost var results := ChunkResults(rev, elems, restoreDefaults);
    var chunks: seq<Mca.ChunkData> := [];
    for k := 0 to |elems|
      invariant Collected(results[..k]) == Ok(chunks)
    {
      var chunk := RestoreChunk(rev, elems[k], restoreDefaults);
      assert chunk == results[k];
      if chunk.Err? {
        CollectedStops(results, k);
        return Err(chunk.error);
      }
      CollectedStep(results, k);
      chunks := chunks + [chunk.value];
    }
    assert results[..|elems|] == results;
    return Ok(chunks);
  }

  /** A document that fails to restore stops the restore of its region with its error. */
  lemma {:induction false} DocumentFails(rev: NbtJson.Revision, docs: seq<Json>, i: nat, restoreDefaults: bool)
    requires i < |docs| && RestoredDocument(rev, docs[i], restoreDefaults).Err?
    requires RestoredDocs(rev, docs[..i], restoreDefaults).Ok?
    ensures RestoredDocs(rev, docs, restoreDefaults) == RestoredDocument(rev, docs[i], restoreDefaults)
    decreases |docs|
  {
    if i < |docs| - 1 {
      var init := docs[..|docs| - 1];
      assert init[..i] == docs[..i];
      DocumentFails(rev, init, i, restoreDefaults);
    } else {
      assert docs[..|docs| - 1] == docs[..i];
    }
  }
}
