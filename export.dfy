/**
 * Export: one region's chunks to JSON slice files.
 *
 * Each fully generated chunk is denoised, encoded, stamped with its
 * coordinates and cleaned (sections holding only air dropped, then empty
 * members dropped at every depth); chunks without sections or block
 * entities may be skipped. The serialised chunks are then packed greedily
 * into slices of at most 8 MiB, each written as one document named
 * `r.<x>.<z>.<n>.json`.
 *
 * The source transforms the JSON tree through `&mut`; here each step
 * returns the new tree. Steps with loops are methods proved equal to the
 * specification functions, and the laws of those functions follow them.
 */
module Export {
  import opened Wrappers
  import opened Ints
  import opened Nbt
  import opened Json
  import Text
  import NbtJson
  import Configuration
  import Denoise
  import Mca
  import RegionNames

  const SECTIONS: string := "sections"
  const BLOCK_ENTITIES: string := "block_entities"
  const BLOCK_STATES: string := "block_states"

  /** 8 MiB: the largest slice the packer builds, unless one chunk alone is larger. */
  const MAX_SLICE_SIZE: nat := 8 * 1024 * 1024

  // ---------------------------------------------------------------------
  // Chunk selection and section filtering
  // ---------------------------------------------------------------------

  /** Only chunks whose `Status` string says they are fully generated are exported. */
  predicate IsFullChunk(v: Value) {
    && v.Compound?
    && "Status" in v.entries
    && v.entries["Status"].String?
    && (v.entries["Status"].str == "minecraft:full" || v.entries["Status"].str == "full")
  }

  /** `get("Name").and_then(as_str).unwrap_or("")`. */
  function NameOf(j: Json): (r: string)
    ensures Get(j, "Name").Some? && Get(j, "Name").value.JString? ==> r == Get(j, "Name").value.str
    ensures !(Get(j, "Name").Some? && Get(j, "Name").value.JString?) ==> r == ""
  {
    match Get(j, "Name")
    case Some(JString(s)) => s
    case _ => ""
  }

  predicate IsAir(name: string) {
    name == "air" || name == "minecraft:air"
  }

  /**
   * A section holding nothing but air: its `block_states` has no `data`
   * array and a one-entry palette naming air. Anything else, including a
   * section without `block_states`, is kept.
   */
  predicate IsEmptySection(sec: Json) {
    && sec.JObject?
    && BLOCK_STATES in sec.fields
    && var bs := sec.fields[BLOCK_STATES];
    && Get(bs, "data").None?
    && Get(bs, "palette").Some?
    && var palette := Get(bs, "palette").value;
    && palette.JArray?
    && |palette.elems| == 1
    && IsAir(NameOf(palette.elems[0]))
  }

  /** `Vec::retain(|sec| !is_empty_section(sec))`. */
  function NonEmptySections(secs: seq<Json>): (r: seq<Json>)
    ensures |r| <= |secs|
    ensures forall x :: x in r <==> x in secs && !IsEmptySection(x)
    ensures forall x :: multiset(r)[x] == if IsEmptySection(x) then 0 else multiset(secs)[x]
  {
    if secs == [] then []
    else
      assert secs == [secs[0]] + secs[1..];
      (if IsEmptySection(secs[0]) then [] else [secs[0]]) + NonEmptySections(secs[1..])
  }

  /** Retaining keeps order: filtering a concatenation filters each part. */
  lemma {:induction false} NonEmptySectionsAppend(a: seq<Json>, b: seq<Json>)
    ensures NonEmptySections(a + b) == NonEmptySections(a) + NonEmptySections(b)
  {
    if a != [] {
      assert (a + b)[1..] == a[1..] + b;
      NonEmptySectionsAppend(a[1..], b);
    } else {
      assert a + b == b;
    }
  }

  /** `filter_empty_sections`: only a `sections` array of an object changes. */
  function WithoutEmptySections(j: Json): (r: Json)
    ensures r.JObject? == j.JObject?
    ensures j.JObject? ==> r.fields.Keys == j.fields.Keys
    ensures j.JObject? ==> forall k | k in j.fields && k != SECTIONS :: r.fields[k] == j.fields[k]
    ensures j.JObject? && SECTIONS in j.fields && j.fields[SECTIONS].JArray? ==>
      r.fields[SECTIONS].JArray? && forall x :: x in r.fields[SECTIONS].elems <==> x in j.fields[SECTIONS].elems && !IsEmptySection(x)
    ensures !(j.JObject? && SECTIONS in j.fields && j.fields[SECTIONS].JArray?) ==> r == j
  {
    if j.JObject? && SECTIONS in j.fields && j.fields[SECTIONS].JArray? then
      JObject(j.fields[SECTIONS := JArray(NonEmptySections(j.fields[SECTIONS].elems))])
    else j
  }

  lemma WithoutEmptySectionsIdempotent(j: Json)
    ensures WithoutEmptySections(WithoutEmptySections(j)) == WithoutEmptySections(j)
  {
    if j.JObject? && SECTIONS in j.fields && j.fields[SECTIONS].JArray? {
      NonEmptySectionsFixed(NonEmptySections(j.fields[SECTIONS].elems));
    }
  }

  lemma {:induction false} NonEmptySectionsFixed(secs: seq<Json>)
    requires forall i | 0 <= i < |secs| :: !IsEmptySection(secs[i])
    ensures NonEmptySections(secs) == secs
  {
    if secs != [] {
      NonEmptySectionsFixed(secs[1..]);
    }
  }

  // ---------------------------------------------------------------------
  // Dropping empty values
  // ---------------------------------------------------------------------

  /** An empty object, the empty-list marker, or an empty array. */
  predicate IsEmptyJsonValue(v: Json) {
    match v
    case JObject(f) => NbtJson.IsEmptyListMarker(f) || |f| == 0
    case JArray(a) => |a| == 0
    case _ => false
  }

  /**
   * `filter_empty_values`: every value is cleaned first, then an object
   * drops the members whose cleaned value is empty. Arrays keep all their
   * elements, cleaned.
   */
  function Pruned(v: Json): (r: Json)
    ensures r.JObject? == v.JObject? && r.JArray? == v.JArray?
    ensures v.JArray? ==> |r.elems| == |v.elems|
    ensures v.JObject? ==> r.fields.Keys <= v.fields.Keys
    decreases v
  {
    match v
    case JObject(f) => JObject(map k | k in f && !IsEmptyJsonValue(Pruned(f[k])) :: Pruned(f[k]))
    case JArray(a) => JArray(seq(|a|, i requires 0 <= i < |a| => Pruned(a[i])))
    case _ => v
  }

  /** No object anywhere in the tree has an empty member. */
  predicate Clean(v: Json)
    decreases v
  {
    match v
    case JObject(f) => forall k | k in f :: !IsEmptyJsonValue(f[k]) && Clean(f[k])
    case JArray(a) => forall i | 0 <= i < |a| :: Clean(a[i])
    case _ => true
  }

  lemma {:induction false} PrunedIsClean(v: Json)
    ensures Clean(Pruned(v))
    decreases v
  {
    match v
    case JObject(f) =>
      forall k | k in f {
        PrunedIsClean(f[k]);
      }
    case JArray(a) =>
      forall i | 0 <= i < |a| {
        PrunedIsClean(a[i]);
      }
    case _ =>
  }

  lemma {:induction false} CleanIsUnchanged(v: Json)
    requires Clean(v)
    ensures Pruned(v) == v
    decreases v
  {
    match v
    case JObject(f) =>
      forall k | k in f {
        CleanIsUnchanged(f[k]);
      }
      assert Pruned(v).fields == f;
    case JArray(a) =>
      forall i | 0 <= i < |a| {
        CleanIsUnchanged(a[i]);
      }
      assert Pruned(v).elems == a;
    case _ =>
  }

  lemma PrunedIdempotent(v: Json)
    ensures Pruned(Pruned(v)) == Pruned(v)
  {
    PrunedIsClean(v);
    CleanIsUnchanged(Pruned(v));
  }

  /** Pruning never empties a non-empty scalar member, and always drops an empty member. */
  lemma PrunedMembers(v: Json, k: string)
    requires v.JObject? && k in v.fields
    ensures !v.fields[k].JObject? && !v.fields[k].JArray? ==> k in Pruned(v).fields && Pruned(v).fields[k] == v.fields[k]
    ensures IsEmptyJsonValue(v.fields[k]) ==> k !in Pruned(v).fields
  {
    var w := v.fields[k];
    if w.JObject? && NbtJson.IsEmptyListMarker(w.fields) {
      assert |w.fields.Keys - {"[]"}| == 0;
      assert w.fields.Keys == {"[]"};
      var pw := Pruned(w).fields;
      if "[]" in pw {
        assert pw.Keys == {"[]"};
        assert |pw| == |pw.Keys| == 1;
      } else {
        assert pw.Keys == {};
      }
    }
  }

  /** An object whose members are pruned one by one, then filtered, is the pruned object. */
  lemma PrunedObject(f: map<string, Json>, m: map<string, Json>)
    requires m.Keys == f.Keys && forall k | k in f :: m[k] == Pruned(f[k])
    ensures Pruned(JObject(f)) == JObject(map k | k in m && !IsEmptyJsonValue(m[k]) :: m[k])
  {
    var p := Pruned(JObject(f)).fields;
    var q := map k | k in m && !IsEmptyJsonValue(m[k]) :: m[k];
    forall k
      ensures k in p <==> k in q
      ensures k in p ==> p[k] == q[k]
    {
      if k in f {
        assert m[k] == Pruned(f[k]);
      }
    }
    assert p == q;
  }

  /** An array whose elements are pruned one by one is the pruned array. */
  lemma PrunedArray(a: seq<Json>, elems: seq<Json>)
    requires |elems| == |a| && forall j | 0 <= j < |a| :: elems[j] == Pruned(a[j])
    ensures Pruned(JArray(a)) == JArray(elems)
  {
    assert Pruned(JArray(a)).elems == elems;
  }

  method FilterEmptyValues(v: Json) returns (r: Json)
    ensures r == Pruned(v)
    decreases v
  {
    match v
    case JObject(f) =>
      var m := f;
      var todo := f.Keys;
      while todo != {}
        invariant todo <= f.Keys && m.Keys == f.Keys
        invariant forall k | k in f && k !in todo :: m[k] == Pruned(f[k])
        invariant forall k | k in todo :: m[k] == f[k]
        decreases todo
      {
        var k :| k in todo;
        var pk := FilterEmptyValues(f[k]);
        m := m[k := pk];
        todo := todo - {k};
      }
      PrunedObject(f, m);
      r := JObject(map k | k in m && !IsEmptyJsonValue(m[k]) :: m[k]);
    case JArray(a) =>
      var elems := a;
      for i := 0 to |a|
        invariant |elems| == |a|
        invariant forall j | 0 <= j < i :: elems[j] == Pruned(a[j])
        invariant forall j | i <= j < |a| :: elems[j] == a[j]
      {
        var pi := FilterEmptyValues(a[i]);
        elems := elems[i := pi];
      }
      PrunedArray(a, elems);
      r := JArray(elems);
    case _ =>
      r := v;
  }

  /** `has_chunk_data`: a non-empty `sections` or `block_entities` array. */
  predicate HasChunkData(j: Json) {
    || (Get(j, SECTIONS).Some? && Get(j, SECTIONS).value.JArray? && |Get(j, SECTIONS).value.elems| > 0)
    || (Get(j, BLOCK_ENTITIES).Some? && Get(j, BLOCK_ENTITIES).value.JArray? && |Get(j, BLOCK_ENTITIES).value.elems| > 0)
  }

  // ---------------------------------------------------------------------
  // One chunk
  // ---------------------------------------------------------------------

  /** The object form gets the chunk's coordinates as integer members `x` and `z`, replacing any there. */
  function Stamped(j: Json, x: i32, z: i32): (r: Json)
    ensures j.JObject? ==> r.JObject? && r.fields.Keys == j.fields.Keys + {"x", "z"}
    ensures j.JObject? ==> r.fields["x"] == JInt(x) && r.fields["z"] == JInt(z)
    ensures j.JObject? ==> forall k | k in j.fields && k != "x" && k != "z" :: r.fields[k] == j.fields[k]
    ensures !j.JObject? ==> r == j
  {
    if j.JObject? then JObject(j.fields["x" := JInt(x)]["z" := JInt(z)]) else j
  }

  /** The cleaned JSON of one chunk, before the decision to skip it. */
  function ChunkJson(rev: NbtJson.Revision, chunk: Mca.ChunkData, denoise: bool, aggressive: bool,
                     c: Configuration.ChunkDenoiseConfig): (r: Json)
    ensures chunk.data.Compound? ==> r.JObject? && Get(r, "x") == Some(JInt(chunk.x)) && Get(r, "z") == Some(JInt(chunk.z))
    ensures Clean(r)
  {
    var data := if denoise then Denoise.DenoisedChunk(chunk.data, aggressive, c) else chunk.data;
    var w := WithoutEmptySections(Stamped(NbtJson.NbtToJson(rev, data), chunk.x, chunk.z));
    PrunedIsClean(w);
    if w.JObject? then
      PrunedMembers(w, "x");
      PrunedMembers(w, "z");
      Pruned(w)
    else Pruned(w)
  }

  /**
   * The body of the export loop: a chunk that is not fully generated, or
   * (with `skipEmpty`) one left without sections and block entities, is
   * skipped.
   */
  function ExportedChunk(rev: NbtJson.Revision, chunk: Mca.ChunkData, denoise: bool, aggressive: bool,
                         c: Configuration.ChunkDenoiseConfig, skipEmpty: bool): (r: Option<Json>)
    ensures r.Some? ==> IsFullChunk(chunk.data) && r.value.JObject? && Clean(r.value)
    ensures r.Some? ==> Get(r.value, "x") == Some(JInt(chunk.x)) && Get(r.value, "z") == Some(JInt(chunk.z))
    ensures r.Some? && skipEmpty ==> HasChunkData(r.value)
    ensures r.None? ==> !IsFullChunk(chunk.data) || (skipEmpty && !HasChunkData(ChunkJson(rev, chunk, denoise, aggressive, c)))
  {
    if !IsFullChunk(chunk.data) then None
    else
      var j := ChunkJson(rev, chunk, denoise, aggressive, c);
      if skipEmpty && !HasChunkData(j) then None else Some(j)
  }

  method ExportChunk(rev: NbtJson.Revision, chunk: Mca.ChunkData, denoise: bool, aggressive: bool,
                     c: Configuration.ChunkDenoiseConfig, skipEmpty: bool) returns (r: Option<Json>)
    ensures r == ExportedChunk(rev, chunk, denoise, aggressive, c, skipEmpty)
  {
    if !IsFullChunk(chunk.data) {
      return None;
    }
    var data := chunk.data;
    if denoise {
      data := Denoise.DenoiseChunkFields(data, aggressive, c);
    }
    var json := NbtJson.NbtToJson(rev, data);
    if json.JObject? {
      var obj := json.fields;
      obj := obj["x" := JInt(chunk.x)];
      obj := obj["z" := JInt(chunk.z)];
      json := JObject(obj);
    }
    json := WithoutEmptySections(json);
    json := FilterEmptyValues(json);
    if skipEmpty && !HasChunkData(json) {
      return None;
    }
    return Some(json);
  }

  /** The values of the present entries, in order. */
  function Somes<T>(es: seq<Option<T>>): seq<T> {
    if es == [] then []
    else Somes(es[..|es| - 1]) + (if es[|es| - 1].Some? then [es[|es| - 1].value] else [])
  }

  lemma {:induction false} SomesMembers<T>(es: seq<Option<T>>)
    ensures |Somes(es)| <= |es|
    ensures forall x :: x in Somes(es) <==> Some(x) in es
  {
    if es != [] {
      var init := es[..|es| - 1];
      SomesMembers(init);
      assert es == init + [es[|es| - 1]];
    }
  }

  /** What the loop body gives for each chunk of the region. */
  function Outcomes(rev: NbtJson.Revision, chunks: seq<Mca.ChunkData>, denoise: bool, aggressive: bool,
                    c: Configuration.ChunkDenoiseConfig, skipEmpty: bool): (r: seq<Option<Json>>)
    ensures |r| == |chunks|
    ensures forall k | 0 <= k < |chunks| :: r[k] == ExportedChunk(rev, chunks[k], denoise, aggressive, c, skipEmpty)
  {
    seq(|chunks|, k requires 0 <= k < |chunks| => ExportedChunk(rev, chunks[k], denoise, aggressive, c, skipEmpty))
  }

  /** The JSON chunks the export loop collects, in region order. */
  function ExportedAll(rev: NbtJson.Revision, chunks: seq<Mca.ChunkData>, denoise: bool, aggressive: bool,
                       c: Configuration.ChunkDenoiseConfig, skipEmpty: bool): seq<Json>
  {
    Somes(Outcomes(rev, chunks, denoise, aggressive, c, skipEmpty))
  }

  /**
   * A JSON chunk is exported exactly when some chunk of the region produces
   * it; each is a clean object carrying that chunk's coordinates.
   */
  lemma ExportedAllShape(rev: NbtJson.Revision, chunks: seq<Mca.ChunkData>, denoise: bool, aggressive: bool,
                         c: Configuration.ChunkDenoiseConfig, skipEmpty: bool)
    ensures |ExportedAll(rev, chunks, denoise, aggressive, c, skipEmpty)| <= |chunks|
    ensures forall j :: j in ExportedAll(rev, chunks, denoise, aggressive, c, skipEmpty) <==>
      exists k | 0 <= k < |chunks| :: ExportedChunk(rev, chunks[k], denoise, aggressive, c, skipEmpty) == Some(j)
    ensures forall j | j in ExportedAll(rev, chunks, denoise, aggressive, c, skipEmpty) ::
      j.JObject? && Clean(j) && (skipEmpty ==> HasChunkData(j)) &&
      exists k | 0 <= k < |chunks| :: IsFullChunk(chunks[k].data) && Get(j, "x") == Some(JInt(chunks[k].x)) && Get(j, "z") == Some(JInt(chunks[k].z))
  {
    var es := Outcomes(rev, chunks, denoise, aggressive, c, skipEmpty);
    SomesMembers(es);
    forall j ensures Some(j) in es <==> exists k | 0 <= k < |chunks| :: ExportedChunk(rev, chunks[k], denoise, aggressive, c, skipEmpty) == Some(j) {
      if Some(j) in es {
        var k :| 0 <= k < |es| && es[k] == Some(j);
        assert ExportedChunk(rev, chunks[k], denoise, aggressive, c, skipEmpty) == Some(j);
      }
    }
  }

  /** `for chunk in &mut chunks { ... all_chunks.push(json) }`. */
  method ExportChunks(rev: NbtJson.Revision, chunks: seq<Mca.ChunkData>, denoise: bool, aggressive: bool,
                      c: Configuration.ChunkDenoiseConfig, skipEmpty: bool) returns (all: seq<Json>)
    ensures all == ExportedAll(rev, chunks, denoise, aggressive, c, skipEmpty)
  {
    ghost var es := Outcomes(rev, chunks, denoise, aggressive, c, skipEmpty);
    all := [];
    for n := 0 to |chunks|
      invariant all == Somes(es[..n])
    {
      var e := ExportChunk(rev, chunks[n], denoise, aggressive, c, skipEmpty);
      assert es[..n + 1][..n] == es[..n];
      if e.Some? {
        all := all + [e.value];
      }
    }
    assert es[..|chunks|] == es;
  }

  // ---------------------------------------------------------------------
  // Greedy slicing
  // ---------------------------------------------------------------------

  /** `serde_json::to_string` on every chunk; a failure is the empty string, as `unwrap_or_default` gives. */
  function Serialized(chunks: seq<Json>, serialize: Json -> string): (r: seq<string>)
    ensures |r| == |chunks| && forall i | 0 <= i < |chunks| :: r[i] == serialize(chunks[i])
  {
    seq(|chunks|, i requires 0 <= i < |chunks| => serialize(chunks[i]))
  }

  /** The byte size of a slice: the sum of its items' UTF-8 lengths. */
  function TotalSize(items: seq<string>): nat {
    if items == [] then 0 else TotalSize(items[..|items| - 1]) + NbtJson.ByteLen(items[|items| - 1])
  }

  lemma TotalSizeSnoc(items: seq<string>, x: string)
    ensures TotalSize(items + [x]) == TotalSize(items) + NbtJson.ByteLen(x)
  {
    assert (items + [x])[..|items|] == items;
  }

  function FlattenSlices(ss: seq<seq<string>>): seq<string> {
    if ss == [] then [] else FlattenSlices(ss[..|ss| - 1]) + ss[|ss| - 1]
  }

  lemma FlattenSlicesSnoc(ss: seq<seq<string>>, s: seq<string>)
    ensures FlattenSlices(ss + [s]) == FlattenSlices(ss) + s
  {
    assert (ss + [s])[..|ss|] == ss;
  }

  /** Every slice is non-empty, and over the limit only when it holds a single chunk. */
  predicate WellFormed(ss: seq<seq<string>>) {
    forall i | 0 <= i < |ss| :: ss[i] != [] && (TotalSize(ss[i]) <= MAX_SLICE_SIZE || |ss[i]| == 1)
  }

  /** Every slice was closed only because the next chunk would have taken it over the limit. */
  predicate Greedy(ss: seq<seq<string>>) {
    forall i | 1 <= i < |ss| :: ss[i] != [] && TotalSize(ss[i - 1]) + NbtJson.ByteLen(ss[i][0]) > MAX_SLICE_SIZE
  }

  /** The packer's variables after n items: the slices written, `current_slice`, `current_size`. */
  datatype PackState = PackState(closed: seq<seq<string>>, current: seq<string>, size: nat)

  /** The packer's step for one more item. */
  function PackNext(st: PackState, item: string): PackState {
    var len := NbtJson.ByteLen(item);
    if st.current != [] && st.size + len > MAX_SLICE_SIZE then PackState(st.closed + [st.current], [item], len)
    else PackState(st.closed, st.current + [item], st.size + len)
  }

  function PackAfter(items: seq<string>, n: nat): PackState
    requires n <= |items|
  {
    if n == 0 then PackState([], [], 0)
    else PackNext(PackAfter(items, n - 1), items[n - 1])
  }

  /** The slices written for the items: the closed ones, then the last if non-empty. */
  function Slices(items: seq<string>): seq<seq<string>> {
    var st := PackAfter(items, |items|);
    if st.current == [] then st.closed else st.closed + [st.current]
  }

  predicate Packed(items: seq<string>, n: nat, st: PackState)
    requires n <= |items|
  {
    if n == 0 then st == PackState([], [], 0) else PackedAfter(items[..n], st)
  }

  lemma {:induction false} PackInvariant(items: seq<string>, n: nat)
    requires n <= |items|
    ensures Packed(items, n, PackAfter(items, n))
  {
    if n > 0 {
      PackInvariant(items, n - 1);
      var st := PackAfter(items, n - 1);
      var item := items[n - 1];
      assert items[..n] == items[..n - 1] + [item];
      if n == 1 {
        PackFirst(item);
      } else if st.size + NbtJson.ByteLen(item) > MAX_SLICE_SIZE {
        PackClose(items[..n - 1], st, item);
      } else {
        PackExtend(items[..n - 1], st, item);
      }
    }
  }

  /** The facts of `Packed` for a non-empty prefix, over the prefix itself. */
  predicate PackedAfter(prefix: seq<string>, st: PackState) {
    var all := st.closed + [st.current];
    && FlattenSlices(all) == prefix
    && WellFormed(all)
    && Greedy(all)
    && st.size == TotalSize(st.current)
  }

  lemma PackFirst(item: string)
    ensures PackedAfter([item], PackNext(PackState([], [], 0), item))
  {
    TotalSizeSnoc([], item);
    FlattenSlicesSnoc([], [item]);
    assert [] + [item] == [item];
    assert [] + [[item]] == [[item]];
  }

  lemma WellFormedSnoc(ss: seq<seq<string>>, s: seq<string>)
    requires WellFormed(ss) && s != [] && (TotalSize(s) <= MAX_SLICE_SIZE || |s| == 1)
    ensures WellFormed(ss + [s])
  {
    assert forall i | 0 <= i < |ss| :: (ss + [s])[i] == ss[i];
  }

  lemma GreedySnoc(ss: seq<seq<string>>, s: seq<string>)
    requires Greedy(ss) && ss != [] && s != []
    requires TotalSize(ss[|ss| - 1]) + NbtJson.ByteLen(s[0]) > MAX_SLICE_SIZE
    ensures Greedy(ss + [s])
  {
    assert forall i | 0 <= i < |ss| :: (ss + [s])[i] == ss[i];
  }

  lemma PackClose(prefix: seq<string>, st: PackState, item: string)
    requires PackedAfter(prefix, st)
    requires st.size + NbtJson.ByteLen(item) > MAX_SLICE_SIZE
    ensures PackedAfter(prefix + [item], PackNext(st, item))
  {
    var all := st.closed + [st.current];
    assert all[|all| - 1] == st.current;
    assert PackNext(st, item) == PackState(all, [item], NbtJson.ByteLen(item));
    TotalSizeSnoc([], item);
    assert [] + [item] == [item];
    FlattenSlicesSnoc(all, [item]);
    WellFormedSnoc(all, [item]);
    GreedySnoc(all, [item]);
  }

  lemma PackExtend(prefix: seq<string>, st: PackState, item: string)
    requires PackedAfter(prefix, st)
    requires st.size + NbtJson.ByteLen(item) <= MAX_SLICE_SIZE
    ensures PackedAfter(prefix + [item], PackNext(st, item))
  {
    var cur := st.current + [item];
    assert PackNext(st, item) == PackState(st.closed, cur, st.size + NbtJson.ByteLen(item));
    FlattenSlicesSnoc(st.closed, st.current);
    FlattenSlicesSnoc(st.closed, cur);
    TotalSizeSnoc(st.current, item);
    assert (st.closed + [st.current])[|st.closed|] == st.current;
    LastReplaced(st.closed, st.current, cur);
  }

  /** Growing the last slice, within the limit, keeps the slices well formed and greedy. */
  lemma LastReplaced(closed: seq<seq<string>>, cur: seq<string>, cur': seq<string>)
    requires WellFormed(closed + [cur]) && Greedy(closed + [cur])
    requires cur != [] && cur' != [] && cur'[0] == cur[0] && TotalSize(cur') <= MAX_SLICE_SIZE
    ensures WellFormed(closed + [cur']) && Greedy(closed + [cur'])
  {
    var all := closed + [cur];
    var all' := closed + [cur'];
    assert forall i | 0 <= i < |closed| :: all'[i] == all[i];
    assert all[|closed|] == cur;
  }

  /**
   * The slices are the chunks in order, cut greedily: none is empty, one
   * over 8 MiB holds a single chunk, and each ends just before the chunk
   * that would have taken it over the limit.
   */
  lemma SlicesLaws(items: seq<string>)
    ensures FlattenSlices(Slices(items)) == items
    ensures WellFormed(Slices(items)) && Greedy(Slices(items))
  {
    PackInvariant(items, |items|);
    assert items[..|items|] == items;
  }

  lemma {:induction false} TotalSizeAppend(a: seq<string>, b: seq<string>)
    ensures TotalSize(a + b) == TotalSize(a) + TotalSize(b)
    decreases |b|
  {
    if b != [] {
      var init := b[..|b| - 1];
      assert a + b == (a + init) + [b[|b| - 1]];
      assert b == init + [b[|b| - 1]];
      TotalSizeSnoc(a + init, b[|b| - 1]);
      TotalSizeSnoc(init, b[|b| - 1]);
      TotalSizeAppend(a, init);
    } else {
      assert a + b == a;
    }
  }

  lemma {:induction false} FlattenSlicesCons(ss: seq<seq<string>>)
    requires ss != []
    ensures FlattenSlices(ss) == ss[0] + FlattenSlices(ss[1..])
    decreases |ss|
  {
    if |ss| > 1 {
      var init := ss[..|ss| - 1];
      FlattenSlicesCons(init);
      assert init[1..] == ss[1..][..|ss| - 2];
      assert ss[1..] == init[1..] + [ss[|ss| - 1]];
      FlattenSlicesSnoc(init[1..], ss[|ss| - 1]);
    } else {
      assert ss[..0] == [];
      assert ss[1..] == [];
    }
  }

  lemma WellFormedFlattenEmpty(ss: seq<seq<string>>)
    requires WellFormed(ss) && ss != []
    ensures FlattenSlices(ss) != []
  {
    FlattenSlicesCons(ss);
  }

  lemma TakeSnoc<T>(s: seq<T>, n: nat)
    requires n < |s|
    ensures s[..n + 1] == s[..n] + [s[n]]
  {
  }

  /** A prefix of the chunks longer than a, when a and the chunk after it are over the limit, is over the limit. */
  lemma LongerPrefixOverLimit(a: seq<string>, b: seq<string>, items: seq<string>)
    requires |a| < |items| && items[..|a|] == a && |b| <= |items| && items[..|b|] == b
    requires TotalSize(a) + NbtJson.ByteLen(items[|a|]) > MAX_SLICE_SIZE
    ensures |a| < |b| ==> TotalSize(b) > MAX_SLICE_SIZE
  {
    if |a| < |b| {
      var next := items[|a|];
      TakeSnoc(items, |a|);
      assert b[..|a| + 1] == items[..|a| + 1];
      assert b == b[..|a| + 1] + b[|a| + 1..];
      TotalSizeAppend(b[..|a| + 1], b[|a| + 1..]);
      TotalSizeSnoc(a, next);
    }
  }

  /** The first slice and the chunk after it, when the chunks go on past the first slice. */
  lemma NextAfterFirst(ss: seq<seq<string>>, items: seq<string>)
    requires |ss| > 1 && ss[1] != [] && FlattenSlices(ss) == items
    ensures |ss[0]| < |items| && items[..|ss[0]|] == ss[0] && items[|ss[0]|] == ss[1][0]
  {
    FlattenSlicesCons(ss);
    FlattenSlicesCons(ss[1..]);
  }

  /**
   * In two greedy, well formed cuttings of the same chunks the first slice
   * of one is not shorter than the first of the other: the other's first
   * slice would hold two or more chunks and be over the limit.
   */
  lemma FirstSliceNotShorter(ss: seq<seq<string>>, tt: seq<seq<string>>)
    requires ss != [] && tt != [] && FlattenSlices(ss) == FlattenSlices(tt)
    requires WellFormed(ss) && Greedy(ss) && WellFormed(tt)
    ensures |ss[0]| >= |tt[0]|
  {
    var items := FlattenSlices(ss);
    var a, b := ss[0], tt[0];
    FlattenSlicesCons(tt);
    assert items[..|b|] == b;
    if |ss| == 1 {
      FlattenSlicesCons(ss);
      assert ss[1..] == [];
    } else {
      NextAfterFirst(ss, items);
      LongerPrefixOverLimit(a, b, items);
    }
  }

  lemma GreedyTail(ss: seq<seq<string>>)
    requires ss != [] && WellFormed(ss) && Greedy(ss)
    ensures WellFormed(ss[1..]) && Greedy(ss[1..])
  {
    assert forall i | 0 <= i < |ss| - 1 :: ss[1..][i] == ss[i + 1];
  }

  lemma SameFirstSlice(ss: seq<seq<string>>, tt: seq<seq<string>>)
    requires ss != [] && tt != [] && FlattenSlices(ss) == FlattenSlices(tt) && |ss[0]| == |tt[0]|
    ensures ss[0] == tt[0] && FlattenSlices(ss[1..]) == FlattenSlices(tt[1..])
  {
    var items := FlattenSlices(ss);
    FlattenSlicesCons(ss);
    FlattenSlicesCons(tt);
    assert ss[0] == items[..|ss[0]|] == tt[0];
    assert FlattenSlices(ss[1..]) == items[|ss[0]|..] == FlattenSlices(tt[1..]);
  }

  /** Two greedy, well formed cuttings of the same chunks are the same cutting. */
  lemma {:induction false} GreedyCutIsUnique(ss: seq<seq<string>>, tt: seq<seq<string>>)
    requires FlattenSlices(ss) == FlattenSlices(tt)
    requires WellFormed(ss) && Greedy(ss) && WellFormed(tt) && Greedy(tt)
    ensures ss == tt
    decreases |ss|
  {
    if ss == [] || tt == [] {
      if ss != [] {
        WellFormedFlattenEmpty(ss);
      }
      if tt != [] {
        WellFormedFlattenEmpty(tt);
      }
    } else {
      FirstSliceNotShorter(ss, tt);
      FirstSliceNotShorter(tt, ss);
      SameFirstSlice(ss, tt);
      GreedyTail(ss);
      GreedyTail(tt);
      GreedyCutIsUnique(ss[1..], tt[1..]);
      SameHeadAndTail(ss, tt);
    }
  }

  lemma SameHeadAndTail<T>(s: seq<T>, t: seq<T>)
    requires s != [] && t != [] && s[0] == t[0] && s[1..] == t[1..]
    ensures s == t
  {
    assert s == [s[0]] + s[1..];
    assert t == [t[0]] + t[1..];
  }

  /** The packer's slices are the only greedy, well formed cutting of the chunks. */
  lemma SlicesAreTheGreedyCut(items: seq<string>, ss: seq<seq<string>>)
    requires FlattenSlices(ss) == items && WellFormed(ss) && Greedy(ss)
    ensures ss == Slices(items)
  {
    SlicesLaws(items);
    GreedyCutIsUnique(ss, Slices(items));
  }

  // ---------------------------------------------------------------------
  // Slice documents
  // ---------------------------------------------------------------------

  const DOCUMENT_HEAD: string := "{\"chunks\":[\n"
  const DOCUMENT_TAIL: string := "]}\n"

  /** One serialised chunk per line, comma-separated, inside `{"chunks":[` and `]}`. */
  function ChunksDocument(items: seq<string>): string {
    DOCUMENT_HEAD + (if items == [] then "" else Text.Join(items, ",\n") + "\n") + DOCUMENT_TAIL
  }

  lemma {:induction false} JoinSnoc(items: seq<string>, x: string, sep: string)
    requires items != []
    ensures Text.Join(items + [x], sep) == Text.Join(items, sep) + sep + x
  {
    if |items| == 1 {
      assert (items + [x])[1..] == [x];
    } else {
      assert (items + [x])[1..] == items[1..] + [x];
      JoinSnoc(items[1..], x, sep);
    }
  }

  /** `write_chunks_direct`, returning the text it writes. */
  method WriteChunksDirect(chunks: seq<string>) returns (output: string)
    ensures output == ChunksDocument(chunks)
  {
    output := DOCUMENT_HEAD;
    for i := 0 to |chunks|
      invariant i == 0 ==> output == DOCUMENT_HEAD
      invariant 0 < i ==> output == DOCUMENT_HEAD + Text.Join(chunks[..i], ",\n") + (if i < |chunks| then ",\n" else "\n")
    {
      assert chunks[..i + 1] == chunks[..i] + [chunks[i]];
      if i > 0 {
        JoinSnoc(chunks[..i], chunks[i], ",\n");
      }
      output := output + chunks[i];
      if i < |chunks| - 1 {
        output := output + ",";
      }
      output := output + "\n";
    }
    assert chunks[..|chunks|] == chunks;
    output := output + DOCUMENT_TAIL;
  }

  /** A written slice file: its name and its text. */
  datatype SliceFile = SliceFile(name: string, text: string)

  /** Slice n of region (rx, rz) is `r.<rx>.<rz>.<n>.json`, numbered from 0. */
  function SliceDocuments(rx: i32, rz: i32, ss: seq<seq<string>>): (r: seq<SliceFile>)
    ensures |r| == |ss|
    ensures forall i | 0 <= i < |ss| :: r[i] == SliceFile(RegionNames.SliceFileName(rx, rz, i), ChunksDocument(ss[i]))
  {
    seq(|ss|, i requires 0 <= i < |ss| => SliceFile(RegionNames.SliceFileName(rx, rz, i), ChunksDocument(ss[i])))
  }

  lemma SliceDocumentsSnoc(rx: i32, rz: i32, ss: seq<seq<string>>, s: seq<string>)
    ensures SliceDocuments(rx, rz, ss + [s]) ==
      SliceDocuments(rx, rz, ss) + [SliceFile(RegionNames.SliceFileName(rx, rz, |ss|), ChunksDocument(s))]
  {
  }

  /** `write_region_sliced`, returning the files it writes in order. */
  method WriteRegionSliced(rx: i32, rz: i32, chunks: seq<Json>, serialize: Json -> string) returns (files: seq<SliceFile>)
    ensures files == SliceDocuments(rx, rz, Slices(Serialized(chunks, serialize)))
  {
    var serialized := Serialized(chunks, serialize);
    var sliceId: nat := 0;
    var currentSlice: seq<string> := [];
    var currentSize: nat := 0;
    ghost var closed: seq<seq<string>> := [];
    files := [];
    for i := 0 to |serialized|
      invariant PackAfter(serialized, i) == PackState(closed, currentSlice, currentSize)
      invariant files == SliceDocuments(rx, rz, closed) && sliceId == |closed|
    {
      var chunkStr := serialized[i];
      var chunkSize := NbtJson.ByteLen(chunkStr);
      assert PackAfter(serialized, i + 1) == PackNext(PackState(closed, currentSlice, currentSize), chunkStr);
      if currentSlice != [] && currentSize + chunkSize > MAX_SLICE_SIZE {
        var text := WriteChunksDirect(currentSlice);
        SliceDocumentsSnoc(rx, rz, closed, currentSlice);
        files := files + [SliceFile(RegionNames.SliceFileName(rx, rz, sliceId), text)];
        sliceId := sliceId + 1;
        closed := closed + [currentSlice];
        currentSlice := [];
        currentSize := 0;
      }
      currentSlice := currentSlice + [chunkStr];
      currentSize := currentSize + chunkSize;
    }
    assert serialized[..|serialized|] == serialized;
    if currentSlice != [] {
      var text := WriteChunksDirect(currentSlice);
      SliceDocumentsSnoc(rx, rz, closed, currentSlice);
      files := files + [SliceFile(RegionNames.SliceFileName(rx, rz, sliceId), text)];
    }
  }

  // ---------------------------------------------------------------------
  // One region file
  // ---------------------------------------------------------------------

  /** InvalidFileName: the file is not named `r.<x>.<z>.mca`. ReadFailed: the container could not be read. */
  datatype ExportError = InvalidFileName | ReadFailed(cause: Mca.McaError)

  /** The slice files written for a region file, given its name and bytes. */
  function ExportedRegion(rev: NbtJson.Revision, filename: string, data: seq<byte>, codecs: Mca.Codecs,
                          denoise: bool, aggressive: bool, c: Configuration.ChunkDenoiseConfig, skipEmpty: bool,
                          serialize: Json -> string): Result<seq<SliceFile>, ExportError>
  {
    match RegionNames.ParseMcaFilename(filename)
    case None => Err(InvalidFileName)
    case Some((rx, rz)) =>
      match Mca.ReadRegion(data, codecs)
      case Err(e) => Err(ReadFailed(e))
      case Ok(chunks) =>
        var all := ExportedAll(rev, chunks, denoise, aggressive, c, skipEmpty);
        Ok(SliceDocuments(rx, rz, Slices(Serialized(all, serialize))))
  }

  lemma SlicesOfNothing()
    ensures Slices([]) == []
  {
  }

  /**
   * The export of one region file: the name is checked first, and a read
   * error stops the export. Otherwise the files are numbered from 0, each
   * name parses back to the region's coordinates, there are none exactly
   * when no chunk was kept, and the files hold the kept chunks, serialised,
   * in order, cut into the only greedy, well formed slices.
   */
  lemma ExportedRegionLaws(rev: NbtJson.Revision, filename: string, data: seq<byte>, codecs: Mca.Codecs,
                           denoise: bool, aggressive: bool, c: Configuration.ChunkDenoiseConfig, skipEmpty: bool,
                           serialize: Json -> string)
    ensures var r := ExportedRegion(rev, filename, data, codecs, denoise, aggressive, c, skipEmpty, serialize);
      && (RegionNames.ParseMcaFilename(filename).None? ==> r == Err(InvalidFileName))
      && (RegionNames.ParseMcaFilename(filename).Some? && Mca.ReadRegion(data, codecs).Err? ==>
            r == Err(ReadFailed(Mca.ReadRegion(data, codecs).error)))
      && (RegionNames.ParseMcaFilename(filename).Some? && Mca.ReadRegion(data, codecs).Ok? ==>
            var (rx, rz) := RegionNames.ParseMcaFilename(filename).value;
            var all := ExportedAll(rev, Mca.ReadRegion(data, codecs).value, denoise, aggressive, c, skipEmpty);
            && r.Ok?
            && (r.value == [] <==> all == [])
            && (forall i | 0 <= i < |r.value| ::
                  r.value[i].name == RegionNames.SliceFileName(rx, rz, i) &&
                  RegionNames.ParseSliceFilename(r.value[i].name) == Ok(Some((rx, rz))))
            && exists ss ::
                 && r.value == SliceDocuments(rx, rz, ss)
                 && FlattenSlices(ss) == Serialized(all, serialize)
                 && WellFormed(ss) && Greedy(ss))
  {
    match RegionNames.ParseMcaFilename(filename)
    case None =>
    case Some((rx, rz)) =>
      match Mca.ReadRegion(data, codecs)
      case Err(e) =>
      case Ok(chunks) =>
        var all := ExportedAll(rev, chunks, denoise, aggressive, c, skipEmpty);
        var items := Serialized(all, serialize);
        var ss := Slices(items);
        SlicesLaws(items);
        if ss == [] {
          assert items == [];
        } else {
          WellFormedFlattenEmpty(ss);
        }
        forall i | 0 <= i < |ss|
          ensures RegionNames.ParseSliceFilename(RegionNames.SliceFileName(rx, rz, i)) == Ok(Some((rx, rz)))
        {
          RegionNames.SliceFileNameRoundTrip(rx, rz, i);
        }
  }

  /** `export_mca_with_config`, returning the files it writes. */
  method ExportMcaWithConfig(rev: NbtJson.Revision, filename: string, data: seq<byte>, codecs: Mca.Codecs,
                             denoise: bool, aggressive: bool, config: Configuration.DenoiseConfig,
                             skipEmpty: bool, serialize: Json -> string)
    returns (r: Result<seq<SliceFile>, ExportError>)
    ensures r == ExportedRegion(rev, filename, data, codecs, denoise, aggressive, config.chunk, skipEmpty, serialize)
  {
    r := ExportRegion(rev, filename, data, codecs, denoise, aggressive, config.chunk, skipEmpty, serialize);
  }

  /** `export_mca`: the built-in field lists, and chunks without data are always skipped. */
  method ExportMca(rev: NbtJson.Revision, filename: string, data: seq<byte>, codecs: Mca.Codecs,
                   denoise: bool, aggressive: bool, serialize: Json -> string)
    returns (r: Result<seq<SliceFile>, ExportError>)
    ensures r == ExportedRegion(rev, filename, data, codecs, denoise, aggressive, Denoise.BuiltinChunkFields(), true, serialize)
  {
    r := ExportRegion(rev, filename, data, codecs, denoise, aggressive, Denoise.BuiltinChunkFields(), true, serialize);
  }

  /** The body the two entry points share. */
  method ExportRegion(rev: NbtJson.Revision, filename: string, data: seq<byte>, codecs: Mca.Codecs,
                      denoise: bool, aggressive: bool, c: Configuration.ChunkDenoiseConfig, skipEmpty: bool,
                      serialize: Json -> string)
    returns (r: Result<seq<SliceFile>, ExportError>)
    ensures r == ExportedRegion(rev, filename, data, codecs, denoise, aggressive, c, skipEmpty, serialize)
  {
    var name := RegionNames.ParseMcaFilename(filename);
    if name.None? {
      return Err(InvalidFileName);
    }
    var (rx, rz) := name.value;
    var read := Mca.ReadMca(data, codecs);
    if read.Err? {
      return Err(ReadFailed(read.error));
    }
    var chunks := read.value;
    SlicesOfNothing();
    if chunks == [] {
      return Ok([]);
    }
    var all := ExportChunks(rev, chunks, denoise, aggressive, c, skipEmpty);
    if all == [] {
      return Ok([]);
    }
    var files := WriteRegionSliced(rx, rz, all, serialize);
    return Ok(files);
  }
}
