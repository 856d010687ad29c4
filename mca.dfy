/**
 * The region container (`.mca`): a 4096-byte location table of 1024 slots
 * (a 3-byte big-endian sector offset and a 1-byte sector count each), a
 * 4096-byte timestamp table, then sector-aligned records. Each record is a
 * 4-byte big-endian length, a compression byte and the compressed tag.
 *
 * Reading and writing work on byte sequences; gzip, zlib and the binary tag
 * format are supplied as functions in a `Codecs` value.
 */
module Mca {
  import opened Wrappers
  import opened Ints
  import opened Nbt

  const SECTOR_SIZE: nat := 4096
  const SLOTS: nat := 1024
  const HEADER_SIZE: nat := 2 * SECTOR_SIZE
  const GZIP: byte := 1
  const ZLIB: byte := 2
  const UNCOMPRESSED: byte := 3

  /** A chunk's position inside its region and its root tag. */
  datatype ChunkData = ChunkData(x: i32, z: i32, data: Value)

  /**
   * DecompressFailed: gzip or zlib refused a record (the whole read fails).
   * InvertedRange: a record's length field is 0, so its payload range ends
   * before it starts. EncodeFailed: the binary tag writer refused a tag.
   */
  datatype McaError = DecompressFailed | InvertedRange | EncodeFailed

  /** The byte-level codecs the container relies on. */
  datatype Codecs = Codecs(
    gunzip: seq<byte> -> Option<seq<byte>>,
    inflate: seq<byte> -> Option<seq<byte>>,
    deflate: seq<byte> -> seq<byte>,
    fromBytes: seq<byte> -> Option<Value>,
    toBytes: Value -> Option<seq<byte>>)

  /** zlib decompression undoes compression, and the tag reader undoes the tag writer. */
  ghost predicate Lawful(c: Codecs) {
    && (forall b :: c.inflate(c.deflate(b)) == Some(b))
    && (forall v | c.toBytes(v).Some? :: c.fromBytes(c.toBytes(v).value) == Some(v))
  }

  function Zeros(n: nat): (r: seq<byte>)
    ensures |r| == n && forall i | 0 <= i < n :: r[i] == 0
  {
    seq(n, _ => 0)
  }

  // ---------------------------------------------------------------------
  // Reading
  // ---------------------------------------------------------------------

  /** The payload after its compression byte, decompressed; `None` for an unknown compression. */
  function Decompressed(c: Codecs, compression: byte, payload: seq<byte>): (r: Result<Option<seq<byte>>, McaError>)
    ensures compression == UNCOMPRESSED ==> r == Ok(Some(payload))
    ensures compression !in {GZIP, ZLIB, UNCOMPRESSED} ==> r == Ok(None)
    ensures r.Err? ==> r.error == DecompressFailed && (compression == GZIP || compression == ZLIB)
  {
    if compression == GZIP then
      (match c.gunzip(payload) case None => Err(DecompressFailed) case Some(b) => Ok(Some(b)))
    else if compression == ZLIB then
      (match c.inflate(payload) case None => Err(DecompressFailed) case Some(b) => Ok(Some(b)))
    else if compression == UNCOMPRESSED then Ok(Some(payload))
    else Ok(None)
  }

  /** The sector offset of slot i. */
  function EntryOffset(data: seq<byte>, i: nat): nat
    requires 4 * i + 4 <= |data|
  {
    BeValue(data[4 * i..4 * i + 3])
  }

  /** What slot i of the container contributes: nothing, a record, or an error. */
  function SlotRecord(data: seq<byte>, c: Codecs, i: nat): (r: Result<Option<ChunkData>, McaError>)
    requires |data| >= HEADER_SIZE && i < SLOTS
    ensures r.Ok? && r.value.Some? ==> r.value.value.x == i % 32 && r.value.value.z == i / 32
  {
    var offset := EntryOffset(data, i);
    var count := data[4 * i + 3];
    if offset == 0 || count == 0 then Ok(None)
    else RecordAt(data, c, offset * SECTOR_SIZE, i)
  }

  /** The record whose header starts at byte `start`, for slot i. */
  function RecordAt(data: seq<byte>, c: Codecs, start: nat, i: nat): (r: Result<Option<ChunkData>, McaError>)
    requires i < SLOTS
    ensures r.Ok? && r.value.Some? ==> r.value.value.x == i % 32 && r.value.value.z == i / 32
  {
    if start + 5 > |data| then Ok(None)
    else
      var length := BeValue(data[start..start + 4]);
      if start + 4 + length > |data| then Ok(None)
      else if length == 0 then Err(InvertedRange)
      else DecodeRecord(c, data[start + 4], data[start + 5..start + 4 + length], i)
  }

  /** A record's payload decompressed and decoded; a tag that does not decode is skipped. */
  function DecodeRecord(c: Codecs, compression: byte, payload: seq<byte>, i: nat): (r: Result<Option<ChunkData>, McaError>)
    requires i < SLOTS
    ensures r.Ok? && r.value.Some? ==> r.value.value.x == i % 32 && r.value.value.z == i / 32
  {
    match Decompressed(c, compression, payload)
    case Err(e) => Err(e)
    case Ok(None) => Ok(None)
    case Ok(Some(nbt)) =>
      match c.fromBytes(nbt)
      case None => Ok(None)
      case Some(v) => Ok(Some(ChunkData(i % 32, i / 32, v)))
  }

  /** The records of slots 0 .. n-1 in slot order; the first error ends the read. */
  function ReadSlots(data: seq<byte>, c: Codecs, n: nat): Result<seq<ChunkData>, McaError>
    requires |data| >= HEADER_SIZE && n <= SLOTS
  {
    if n == 0 then Ok([])
    else
      match ReadSlots(data, c, n - 1)
      case Err(e) => Err(e)
      case Ok(rs) =>
        match SlotRecord(data, c, n - 1)
        case Err(e) => Err(e)
        case Ok(None) => Ok(rs)
        case Ok(Some(r)) => Ok(rs + [r])
  }

  /** The records of a whole container; an input shorter than the two tables holds none. */
  function ReadRegion(data: seq<byte>, c: Codecs): Result<seq<ChunkData>, McaError> {
    if |data| < HEADER_SIZE then Ok([]) else ReadSlots(data, c, SLOTS)
  }

  /** `read_mca` on the file's bytes. */
  method ReadMca(data: seq<byte>, c: Codecs) returns (r: Result<seq<ChunkData>, McaError>)
    ensures r == ReadRegion(data, c)
  {
    if |data| < HEADER_SIZE {
      return Ok([]);
    }
    var chunks: seq<ChunkData> := [];
    for i := 0 to SLOTS
      invariant ReadSlots(data, c, i) == Ok(chunks)
    {
      var slot := ReadSlot(data, c, i);
      match slot
      case Err(e) =>
        ErrorAborts(data, c, i, SLOTS);
        return Err(e);
      case Ok(None) =>
      case Ok(Some(chunk)) =>
        chunks := chunks + [chunk];
    }
    r := Ok(chunks);
  }

  /** The body of `read_mca`'s loop for slot i, with its `continue`s as `Ok(None)`. */
  method ReadSlot(data: seq<byte>, c: Codecs, i: nat) returns (r: Result<Option<ChunkData>, McaError>)
    requires |data| >= HEADER_SIZE && i < SLOTS
    ensures r == SlotRecord(data, c, i)
  {
    var offset := BeValue(data[4 * i..4 * i + 3]);
    var count := data[4 * i + 3];
    if offset == 0 || count == 0 {
      return Ok(None);
    }
    var start := offset * SECTOR_SIZE;
    if start + 5 > |data| {
      return Ok(None);
    }
    var length := BeValue(data[start..start + 4]);
    var compression := data[start + 4];
    if start + 5 + length - 1 > |data| {
      return Ok(None);
    }
    if length == 0 {
      return Err(InvertedRange);
    }
    var compressed := data[start + 5..start + 4 + length];
    var nbt: seq<byte>;
    if compression == GZIP {
      var d := c.gunzip(compressed);
      if d.None? {
        return Err(DecompressFailed);
      }
      nbt := d.value;
    } else if compression == ZLIB {
      var d := c.inflate(compressed);
      if d.None? {
        return Err(DecompressFailed);
      }
      nbt := d.value;
    } else if compression == UNCOMPRESSED {
      nbt := compressed;
    } else {
      return Ok(None);
    }
    var value := c.fromBytes(nbt);
    if value.Some? {
      r := Ok(Some(ChunkData(i % 32, i / 32, value.value)));
    } else {
      r := Ok(None);
    }
  }

  /** An error at slot i ends the whole read with that error. */
  lemma {:induction false} ErrorAborts(data: seq<byte>, c: Codecs, i: nat, n: nat)
    requires |data| >= HEADER_SIZE && i < n <= SLOTS
    requires ReadSlots(data, c, i).Ok? && SlotRecord(data, c, i).Err?
    ensures ReadSlots(data, c, n) == Err(SlotRecord(data, c, i).error)
    decreases n
  {
    if n > i + 1 {
      ErrorAborts(data, c, i, n - 1);
    }
  }

  /** Index of the slot a local position occupies. */
  function LocalSlot(r: ChunkData): int {
    r.x + 32 * r.z
  }

  /** The record as its slot gives it back: the position reduced to its low five bits. */
  function Localised(r: ChunkData): (l: ChunkData)
    ensures 0 <= l.x < 32 && 0 <= l.z < 32 && l.data == r.data
    ensures LocalSlot(l) == SlotIndex(r.x, r.z)
  {
    ChunkData(Low5(r.x), Low5(r.z), r.data)
  }

  /** Records in strictly increasing slot order. */
  predicate SlotOrdered(rs: seq<ChunkData>) {
    forall j, k | 0 <= j < k < |rs| :: LocalSlot(rs[j]) < LocalSlot(rs[k])
  }

  /** r has a local position in [0, 32) x [0, 32) below slot n, and is what its slot holds. */
  predicate ReadFromSlot(data: seq<byte>, c: Codecs, r: ChunkData, n: nat)
    requires |data| >= HEADER_SIZE
  {
    0 <= r.x < 32 && 0 <= r.z < 32 && LocalSlot(r) < n <= SLOTS
    && SlotRecord(data, c, LocalSlot(r)) == Ok(Some(r))
  }

  /**
   * Every record read has a local position in [0, 32) x [0, 32), is what its
   * slot holds, and records come in strictly increasing slot order.
   */
  lemma {:induction false} ReadSlotsShape(data: seq<byte>, c: Codecs, n: nat)
    requires |data| >= HEADER_SIZE && n <= SLOTS
    ensures ReadSlots(data, c, n).Ok? ==>
      && (forall r | r in ReadSlots(data, c, n).value :: ReadFromSlot(data, c, r, n))
      && SlotOrdered(ReadSlots(data, c, n).value)
  {
    if n > 0 {
      ReadSlotsShape(data, c, n - 1);
      var i := n - 1;
      match ReadSlots(data, c, i)
      case Err(_) =>
      case Ok(prev) =>
        assert forall r | r in prev :: ReadFromSlot(data, c, r, n);
        match SlotRecord(data, c, i)
        case Err(_) =>
        case Ok(None) =>
          assert ReadSlots(data, c, n) == Ok(prev);
        case Ok(Some(r)) =>
          assert ReadSlots(data, c, n) == Ok(prev + [r]);
          RecordIsFromItsSlot(data, c, i);
          var rs := prev + [r];
          assert forall k | 0 <= k < |prev| :: rs[k] in prev;
    }
  }

  lemma RecordIsFromItsSlot(data: seq<byte>, c: Codecs, i: nat)
    requires |data| >= HEADER_SIZE && i < SLOTS
    requires SlotRecord(data, c, i).Ok? && SlotRecord(data, c, i).value.Some?
    ensures var r := SlotRecord(data, c, i).value.value; LocalSlot(r) == i && ReadFromSlot(data, c, r, i + 1)
  {
    var r := SlotRecord(data, c, i).value.value;
    assert LocalSlot(r) == i;
  }

  lemma ReadRegionShape(data: seq<byte>, c: Codecs)
    ensures |data| < HEADER_SIZE ==> ReadRegion(data, c) == Ok([])
    ensures ReadRegion(data, c).Ok? ==>
      var rs := ReadRegion(data, c).value;
      && |rs| <= SLOTS
      && (forall r | r in rs :: 0 <= r.x < 32 && 0 <= r.z < 32)
      && SlotOrdered(rs)
  {
    if |data| >= HEADER_SIZE {
      ReadSlotsShape(data, c, SLOTS);
      assert ReadRegion(data, c) == ReadSlots(data, c, SLOTS);
      if ReadRegion(data, c).Ok? {
        var rs := ReadRegion(data, c).value;
        assert forall r | r in rs :: ReadFromSlot(data, c, r, SLOTS);
        SlotsBound(rs);
      }
    }
  }

  /** Strictly increasing slots in [0, 1024) number at most 1024. */
  lemma {:induction false} SlotsBound(rs: seq<ChunkData>)
    requires forall r | r in rs :: 0 <= r.x < 32 && 0 <= r.z < 32
    requires SlotOrdered(rs)
    ensures |rs| <= SLOTS
  {
    if |rs| > 0 {
      var i := 0;
      while i < |rs|
        invariant 0 <= i <= |rs|
        invariant forall k | 0 <= k < i :: LocalSlot(rs[k]) >= k
      {
        if i > 0 {
          assert LocalSlot(rs[i - 1]) < LocalSlot(rs[i]);
        }
        i := i + 1;
      }
      assert LocalSlot(rs[|rs| - 1]) >= |rs| - 1;
    }
  }

  // ---------------------------------------------------------------------
  // Writing
  // ---------------------------------------------------------------------

  /** `x & 31` on an i32: the low five bits of its two's-complement pattern. */
  function Low5(v: i32): (r: nat)
    ensures r < 32
  {
    Unsigned(v, 32) % 32
  }

  /** `(x & 31) + (z & 31) * 32`. */
  function SlotIndex(x: i32, z: i32): (s: nat)
    ensures s < SLOTS
  {
    Low5(x) + Low5(z) * 32
  }

  /** The low five bits are the Euclidean remainder mod 32, also for negative coordinates. */
  lemma Low5IsEuclideanMod(v: i32)
    ensures Low5(v) == v % 32
  {
    var u := v % TWO_32;
    var a := v / TWO_32;
    assert v == TWO_32 * a + u;
    var b := u / 32;
    var s := u % 32;
    assert u == 32 * b + s;
    assert v == 32 * (0x800_0000 * a + b) + s;
    ModUnique(v, 32, 0x800_0000 * a + b, s);
  }

  lemma SlotIndexIsEuclidean(x: i32, z: i32)
    ensures SlotIndex(x, z) == x % 32 + (z % 32) * 32
    ensures 0 <= x < 32 && 0 <= z < 32 ==> SlotIndex(x, z) == x + 32 * z
  {
    Low5IsEuclideanMod(x);
    Low5IsEuclideanMod(z);
  }

  /** Sectors taken by a record of n compressed bytes: 5 header bytes, rounded up. */
  function SectorCount(n: nat): (k: nat)
    ensures k >= 1 && k * SECTOR_SIZE >= n + 5
    ensures (k - 1) * SECTOR_SIZE < n + 5
  {
    (n + 5 + SECTOR_SIZE - 1) / SECTOR_SIZE
  }

  /** A record: `(n + 1) as u32` big-endian, the zlib marker, the data, zero padding to whole sectors. */
  function Payload(compressed: seq<byte>): (p: seq<byte>)
    ensures |p| == SectorCount(|compressed|) * SECTOR_SIZE
  {
    var body := Framed(compressed);
    body + Zeros(SectorCount(|compressed|) * SECTOR_SIZE - |body|)
  }

  /** The unpadded record: length, compression marker, data. */
  function Framed(compressed: seq<byte>): (f: seq<byte>)
    ensures |f| == |compressed| + 5
  {
    BeBytes(|compressed| + 1, 4) + [ZLIB] + compressed
  }

  /** A record starts with its unpadded frame. */
  lemma PayloadStartsFramed(compressed: seq<byte>)
    ensures Payload(compressed)[..|compressed| + 5] == Framed(compressed)
  {
    var body := Framed(compressed);
    assert Payload(compressed) == body + Zeros(SectorCount(|compressed|) * SECTOR_SIZE - |body|);
  }

  /** The frame's fields: the length header, the zlib marker and the data. */
  lemma FramedFields(compressed: seq<byte>)
    ensures Framed(compressed)[..4] == BeBytes(|compressed| + 1, 4)
    ensures Framed(compressed)[4] == ZLIB
    ensures Framed(compressed)[5..] == compressed
  {
    ConcatFields(BeBytes(|compressed| + 1, 4), ZLIB, compressed);
  }

  /** The fields of a four-byte header, a marker byte and the data after them. */
  lemma ConcatFields(h: seq<byte>, m: byte, d: seq<byte>)
    requires |h| == 4
    ensures (h + [m] + d)[..4] == h && (h + [m] + d)[4] == m && (h + [m] + d)[5..] == d
  {
  }

  /** The tag writer accepts the first n records. */
  predicate Encodes(chunks: seq<ChunkData>, c: Codecs, n: nat)
    requires n <= |chunks|
  {
    forall j | 0 <= j < n :: c.toBytes(chunks[j].data).Some?
  }

  /** The zlib stream of a record's binary tag. */
  function ZlibOf(c: Codecs, chunk: ChunkData): seq<byte>
    requires c.toBytes(chunk.data).Some?
  {
    c.deflate(c.toBytes(chunk.data).value)
  }

  /** Sectors taken by the first k records. */
  function SectorsBefore(chunks: seq<ChunkData>, c: Codecs, k: nat): nat
    requires k <= |chunks| && Encodes(chunks, c, k)
  {
    if k == 0 then 0 else SectorsBefore(chunks, c, k - 1) + SectorCount(|ZlibOf(c, chunks[k - 1])|)
  }

  /** The sector where record k starts: the first after the two tables and the records before it. */
  function StartSector(chunks: seq<ChunkData>, c: Codecs, k: nat): nat
    requires k <= |chunks| && Encodes(chunks, c, k)
  {
    2 + SectorsBefore(chunks, c, k)
  }

  /** A location entry: the low three bytes of the sector offset, then the count `as u8`. */
  function Entry(sector: nat, count: nat): (e: seq<byte>)
    ensures |e| == 4
  {
    BeBytes(sector, 3) + [count % 256]
  }

  /** The table with slot s's entry replaced. */
  function SetEntry(t: seq<byte>, s: nat, e: seq<byte>): (r: seq<byte>)
    requires |t| == SECTOR_SIZE && s < SLOTS && |e| == 4
    ensures |r| == SECTOR_SIZE
  {
    t[..4 * s] + e + t[4 * s + 4..]
  }

  /** Setting an entry changes that slot's four bytes and no other slot's. */
  lemma SetEntryFrame(t: seq<byte>, s: nat, e: seq<byte>, i: nat)
    requires |t| == SECTOR_SIZE && s < SLOTS && |e| == 4 && i < SLOTS
    ensures i == s ==> SetEntry(t, s, e)[4 * i..4 * i + 4] == e
    ensures i != s ==> SetEntry(t, s, e)[4 * i..4 * i + 4] == t[4 * i..4 * i + 4]
  {
    var r := SetEntry(t, s, e);
    if i != s {
      assert forall j | 4 * i <= j < 4 * i + 4 :: r[j] == t[j];
    }
  }

  /** The location table after the first n records were written, later ones overwriting earlier ones. */
  function TableAfter(chunks: seq<ChunkData>, c: Codecs, n: nat): (t: seq<byte>)
    requires n <= |chunks| && Encodes(chunks, c, n)
    ensures |t| == SECTOR_SIZE
  {
    if n == 0 then Zeros(SECTOR_SIZE)
    else
      var k := n - 1;
      SetEntry(TableAfter(chunks, c, k), SlotIndex(chunks[k].x, chunks[k].z),
               Entry(StartSector(chunks, c, k), SectorCount(|ZlibOf(c, chunks[k])|)))
  }

  /** The records of the first n chunks, back to back. */
  function RecordsAfter(chunks: seq<ChunkData>, c: Codecs, n: nat): (bs: seq<byte>)
    requires n <= |chunks| && Encodes(chunks, c, n)
    ensures |bs| == SectorsBefore(chunks, c, n) * SECTOR_SIZE
  {
    if n == 0 then [] else RecordsAfter(chunks, c, n - 1) + Payload(ZlibOf(c, chunks[n - 1]))
  }

  function Flatten(ps: seq<seq<byte>>): seq<byte> {
    if ps == [] then [] else Flatten(ps[..|ps| - 1]) + ps[|ps| - 1]
  }

  /**
   * The file `write_mca` writes: `None` for no records (it writes nothing),
   * `EncodeFailed` when the tag writer refuses a record.
   */
  function Container(chunks: seq<ChunkData>, c: Codecs): Result<Option<seq<byte>>, McaError> {
    if chunks == [] then Ok(None)
    else if !Encodes(chunks, c, |chunks|) then Err(EncodeFailed)
    else Ok(Some(ContainerBytes(chunks, c)))
  }

  /** The bytes of the file for records the tag writer accepts: location table, timestamp table, records. */
  function ContainerBytes(chunks: seq<ChunkData>, c: Codecs): (d: seq<byte>)
    requires Encodes(chunks, c, |chunks|)
    ensures |d| == HEADER_SIZE + SectorsBefore(chunks, c, |chunks|) * SECTOR_SIZE
  {
    TableAfter(chunks, c, |chunks|) + Zeros(SECTOR_SIZE) + RecordsAfter(chunks, c, |chunks|)
  }

  /** The state of `write_mca` after its first k records. */
  predicate Written(chunks: seq<ChunkData>, c: Codecs, k: nat, table: seq<byte>, sectors: seq<seq<byte>>, currentSector: nat)
    requires k <= |chunks|
  {
    && Encodes(chunks, c, k)
    && table == TableAfter(chunks, c, k)
    && Flatten(sectors) == RecordsAfter(chunks, c, k)
    && currentSector == StartSector(chunks, c, k)
  }

  /** `write_mca` on the records, returning the file's bytes. */
  method WriteMca(chunks: seq<ChunkData>, c: Codecs) returns (r: Result<Option<seq<byte>>, McaError>)
    ensures r == Container(chunks, c)
  {
    if |chunks| == 0 {
      return Ok(None);
    }
    var locations, chunkSectors, ok := WriteRecords(chunks, c);
    if !ok {
      return Err(EncodeFailed);
    }
    var timestamps := Zeros(SECTOR_SIZE);
    r := Ok(Some(locations[..] + timestamps + Flatten(chunkSectors)));
  }

  /**
   * The loop of `write_mca`: the location table and the framed records, or
   * `ok == false` at the first tag the writer refuses.
   */
  method WriteRecords(chunks: seq<ChunkData>, c: Codecs)
    returns (locations: array<byte>, chunkSectors: seq<seq<byte>>, ok: bool)
    ensures fresh(locations) && locations.Length == SECTOR_SIZE
    ensures ok <==> Encodes(chunks, c, |chunks|)
    ensures ok ==> locations[..] == TableAfter(chunks, c, |chunks|) && Flatten(chunkSectors) == RecordsAfter(chunks, c, |chunks|)
  {
    locations := new byte[SECTOR_SIZE](_ => 0);
    chunkSectors := [];
    var currentSector: nat := 2;
    assert locations[..] == Zeros(SECTOR_SIZE);
    for k := 0 to |chunks|
      invariant locations.Length == SECTOR_SIZE
      invariant Written(chunks, c, k, locations[..], chunkSectors, currentSector)
    {
      var nbt := c.toBytes(chunks[k].data);
      if nbt.None? {
        assert !Encodes(chunks, c, |chunks|);
        return locations, chunkSectors, false;
      }
      chunkSectors, currentSector := WriteRecord(chunks, c, k, nbt.value, locations, chunkSectors, currentSector);
    }
    ok := true;
  }

  /** The body of `write_mca`'s loop for record k, whose tag the writer turned into `nbt`. */
  method WriteRecord(chunks: seq<ChunkData>, c: Codecs, k: nat, nbt: seq<byte>, locations: array<byte>,
                     sectors: seq<seq<byte>>, currentSector: nat)
    returns (sectors': seq<seq<byte>>, nextSector: nat)
    requires k < |chunks| && c.toBytes(chunks[k].data) == Some(nbt) && locations.Length == SECTOR_SIZE
    requires Written(chunks, c, k, locations[..], sectors, currentSector)
    modifies locations
    ensures Written(chunks, c, k + 1, locations[..], sectors', nextSector)
  {
    var compressed := c.deflate(nbt);
    WriteStep(chunks, c, k);
    var chunkData;
    chunkData, nextSector := PlaceRecord(locations, chunks[k], compressed, currentSector);
    assert (sectors + [chunkData])[..|sectors|] == sectors;
    sectors' := sectors + [chunkData];
  }

  /** One more record through the tag writer: the table, the records and the sector counter it leads to. */
  lemma WriteStep(chunks: seq<ChunkData>, c: Codecs, k: nat)
    requires k < |chunks| && Encodes(chunks, c, k) && c.toBytes(chunks[k].data).Some?
    ensures Encodes(chunks, c, k + 1)
    ensures var compressed := c.deflate(c.toBytes(chunks[k].data).value);
      && TableAfter(chunks, c, k + 1) ==
           SetEntry(TableAfter(chunks, c, k), SlotIndex(chunks[k].x, chunks[k].z),
                    Entry(StartSector(chunks, c, k), SectorCount(|compressed|)))
      && RecordsAfter(chunks, c, k + 1) == RecordsAfter(chunks, c, k) + Payload(compressed)
      && StartSector(chunks, c, k + 1) == StartSector(chunks, c, k) + SectorCount(|compressed|)
  {
  }

  /** One turn of `write_mca`'s loop: frame the record, write its location entry, advance the sector. */
  method PlaceRecord(locations: array<byte>, chunk: ChunkData, compressed: seq<byte>, currentSector: nat)
    returns (chunkData: seq<byte>, nextSector: nat)
    requires locations.Length == SECTOR_SIZE
    modifies locations
    ensures locations[..] ==
      SetEntry(old(locations[..]), SlotIndex(chunk.x, chunk.z), Entry(currentSector, SectorCount(|compressed|)))
    ensures chunkData == Payload(compressed)
    ensures nextSector == currentSector + SectorCount(|compressed|)
  {
    var sectorCount;
    chunkData, sectorCount := FrameRecord(compressed);
    var index := SlotIndex(chunk.x, chunk.z);
    WriteLocation(locations, index, currentSector, sectorCount);
    nextSector := currentSector + sectorCount;
  }

  /** The record for a compressed tag, padded with `resize` to whole sectors, and its sector count. */
  method FrameRecord(compressed: seq<byte>) returns (chunkData: seq<byte>, sectorCount: nat)
    ensures chunkData == Payload(compressed) && sectorCount == SectorCount(|compressed|)
  {
    var chunkLength := |compressed| + 5;
    sectorCount := (chunkLength + SECTOR_SIZE - 1) / SECTOR_SIZE;
    chunkData := BeBytes(|compressed| + 1, 4) + [ZLIB] + compressed;
    chunkData := chunkData + Zeros(sectorCount * SECTOR_SIZE - |chunkData|);
  }

  /** Slot `index`'s entry: bytes 1..3 of `current_sector.to_be_bytes()`, then the count `as u8`. */
  method WriteLocation(locations: array<byte>, index: nat, currentSector: nat, sectorCount: nat)
    requires locations.Length == SECTOR_SIZE && index < SLOTS
    modifies locations
    ensures locations[..] == SetEntry(old(locations[..]), index, Entry(currentSector, sectorCount))
  {
    ghost var before := locations[..];
    var idx := index * 4;
    var offsetBytes := BeBytes(currentSector, 4);
    locations[idx] := offsetBytes[1];
    locations[idx + 1] := offsetBytes[2];
    locations[idx + 2] := offsetBytes[3];
    locations[idx + 3] := sectorCount % 256;
    DropHighByte(currentSector, 3);
    var e := Entry(currentSector, sectorCount);
    assert e == offsetBytes[1..4] + [sectorCount % 256];
    assert forall j | 0 <= j < SECTOR_SIZE :: locations[j] == SetEntry(before, index, e)[j];
  }

  /** `u.to_be_bytes()[1..]`: dropping the top byte leaves the low three. */
  lemma {:induction false} DropHighByte(u: nat, n: nat)
    ensures BeBytes(u, n + 1)[1..] == BeBytes(u, n)
  {
    if n > 0 {
      DropHighByte(u / 256, n - 1);
    }
  }

  // ---------------------------------------------------------------------
  // Reading back what was written
  // ---------------------------------------------------------------------

  /**
   * Records the container gives back unchanged: local positions in strictly
   * increasing slot order, every tag accepted by the writer, every record
   * under 256 sectors (so its count survives `as u8`), and the file ending
   * within the sectors a 3-byte offset can address.
   */
  predicate Restorable(chunks: seq<ChunkData>, c: Codecs) {
    && Placeable(chunks, c)
    && (forall k | 0 <= k < |chunks| :: 0 <= chunks[k].x < 32 && 0 <= chunks[k].z < 32)
    && SlotOrdered(chunks)
  }

  /**
   * Records the container keeps, in any order and at any position: every tag
   * accepted by the writer, no two records on the same slot, every record
   * under 256 sectors, and the file within 2^24 sectors.
   */
  predicate Placeable(chunks: seq<ChunkData>, c: Codecs) {
    && Encodes(chunks, c, |chunks|)
    && (forall k | 0 <= k < |chunks| :: SectorCount(|ZlibOf(c, chunks[k])|) < 256)
    && (forall j, k | 0 <= j < k < |chunks| :: SlotIndex(chunks[j].x, chunks[j].z) != SlotIndex(chunks[k].x, chunks[k].z))
    && StartSector(chunks, c, |chunks|) <= Pow256(3)
  }

  /** Each record takes at least one sector, so later records start later. */
  lemma {:induction false} SectorsMonotone(chunks: seq<ChunkData>, c: Codecs, j: nat, m: nat)
    requires j <= m <= |chunks| && Encodes(chunks, c, m)
    ensures Encodes(chunks, c, j) && SectorsBefore(chunks, c, j) + (m - j) <= SectorsBefore(chunks, c, m)
    decreases m
  {
    if j < m {
      SectorsMonotone(chunks, c, j, m - 1);
    }
  }

  /** The records of the first j chunks are a prefix of those of the first m. */
  lemma {:induction false} RecordsPrefix(chunks: seq<ChunkData>, c: Codecs, j: nat, m: nat)
    requires j <= m <= |chunks| && Encodes(chunks, c, m)
    ensures Encodes(chunks, c, j)
    ensures |RecordsAfter(chunks, c, j)| <= |RecordsAfter(chunks, c, m)|
    ensures RecordsAfter(chunks, c, m)[..|RecordsAfter(chunks, c, j)|] == RecordsAfter(chunks, c, j)
    decreases m
  {
    if j < m {
      RecordsPrefix(chunks, c, j, m - 1);
      var a := RecordsAfter(chunks, c, m - 1);
      var b := RecordsAfter(chunks, c, j);
      assert RecordsAfter(chunks, c, m) == a + Payload(ZlibOf(c, chunks[m - 1]));
      assert (a + Payload(ZlibOf(c, chunks[m - 1])))[..|b|] == a[..|b|];
    }
  }

  /** Record k sits in the file at its start sector, whole. */
  lemma RecordInContainer(chunks: seq<ChunkData>, c: Codecs, k: nat)
    requires Encodes(chunks, c, |chunks|) && k < |chunks|
    ensures var start := StartSector(chunks, c, k) * SECTOR_SIZE;
      var p := Payload(ZlibOf(c, chunks[k]));
      && start + |p| <= |ContainerBytes(chunks, c)|
      && ContainerBytes(chunks, c)[start..start + |p|] == p
  {
    var n := |chunks|;
    RecordsPrefix(chunks, c, k + 1, n);
    var r := RecordsAfter(chunks, c, n);
    var p := Payload(ZlibOf(c, chunks[k]));
    var before := RecordsAfter(chunks, c, k);
    assert RecordsAfter(chunks, c, k + 1) == before + p;
    SliceAfterPrefix(r, before, p);
    var hdr := TableAfter(chunks, c, n) + Zeros(SECTOR_SIZE);
    SliceOfTail(hdr, r, |before|, |before| + |p|);
  }

  /** What follows a known prefix inside a known prefix. */
  lemma SliceAfterPrefix(r: seq<byte>, before: seq<byte>, p: seq<byte>)
    requires |before| + |p| <= |r| && r[..|before| + |p|] == before + p
    ensures r[|before|..|before| + |p|] == p
  {
    assert forall j | |before| <= j < |before| + |p| :: r[j] == r[..|before| + |p|][j] == p[j - |before|];
  }

  /** A slice of the tail of a concatenation. */
  lemma SliceOfTail(hdr: seq<byte>, r: seq<byte>, a: nat, b: nat)
    requires a <= b <= |r|
    ensures (hdr + r)[|hdr| + a..|hdr| + b] == r[a..b]
  {
  }

  /** Record k's location entry survives every later write, which goes to another slot. */
  lemma {:induction false} TableAtWritten(chunks: seq<ChunkData>, c: Codecs, k: nat, m: nat)
    requires k < m <= |chunks| && Encodes(chunks, c, m)
    requires forall j | k < j < m :: SlotIndex(chunks[j].x, chunks[j].z) != SlotIndex(chunks[k].x, chunks[k].z)
    ensures Encodes(chunks, c, k)
    ensures var s := SlotIndex(chunks[k].x, chunks[k].z);
      TableAfter(chunks, c, m)[4 * s..4 * s + 4] == Entry(StartSector(chunks, c, k), SectorCount(|ZlibOf(c, chunks[k])|))
    decreases m
  {
    var s := SlotIndex(chunks[k].x, chunks[k].z);
    var j := m - 1;
    var t := TableAfter(chunks, c, j);
    var e := Entry(StartSector(chunks, c, j), SectorCount(|ZlibOf(c, chunks[j])|));
    SetEntryFrame(t, SlotIndex(chunks[j].x, chunks[j].z), e, s);
    if j > k {
      TableAtWritten(chunks, c, k, j);
    }
  }

  /** A slot no record went to keeps its zero entry. */
  lemma {:induction false} TableAtUnwritten(chunks: seq<ChunkData>, c: Codecs, m: nat, i: nat)
    requires m <= |chunks| && Encodes(chunks, c, m) && i < SLOTS
    requires forall j | 0 <= j < m :: SlotIndex(chunks[j].x, chunks[j].z) != i
    ensures TableAfter(chunks, c, m)[4 * i + 3] == 0
  {
    if m > 0 {
      var j := m - 1;
      var t := TableAfter(chunks, c, j);
      var e := Entry(StartSector(chunks, c, j), SectorCount(|ZlibOf(c, chunks[j])|));
      SetEntryFrame(t, SlotIndex(chunks[j].x, chunks[j].z), e, i);
      TableAtUnwritten(chunks, c, j, i);
      assert TableAfter(chunks, c, m)[4 * i..4 * i + 4][3] == t[4 * i..4 * i + 4][3];
    }
  }

  /** Distinct local positions take distinct slots. */
  lemma SlotOfLocal(r: ChunkData)
    requires 0 <= r.x < 32 && 0 <= r.z < 32
    ensures SlotIndex(r.x, r.z) == LocalSlot(r) && LocalSlot(r) < SLOTS
    ensures Localised(r) == r
  {
    SlotIndexIsEuclidean(r.x, r.z);
    Low5IsEuclideanMod(r.x);
    Low5IsEuclideanMod(r.z);
  }

  /** Reading back an entry that holds a start sector below 2^24 and a count byte. */
  lemma EntryReadsBack(d: seq<byte>, s: nat, st: nat, cnt: nat)
    requires 4 * s + 4 <= |d| && st < Pow256(3)
    requires d[4 * s..4 * s + 4] == Entry(st, cnt)
    ensures EntryOffset(d, s) == st && d[4 * s + 3] == cnt % 256
  {
    var e := d[4 * s..4 * s + 4];
    assert d[4 * s..4 * s + 3] == e[..3];
    assert e[..3] == BeBytes(st, 3);
    assert d[4 * s + 3] == e[3];
    BeValueOfBeBytes(st, 3);
    ModUnique(st, Pow256(3), 0, st);
  }

  /** The table is the first sector of the written file. */
  lemma TableInContainer(chunks: seq<ChunkData>, c: Codecs, s: nat)
    requires Encodes(chunks, c, |chunks|) && s < SLOTS
    ensures ContainerBytes(chunks, c)[4 * s..4 * s + 4] == TableAfter(chunks, c, |chunks|)[4 * s..4 * s + 4]
  {
    var t := TableAfter(chunks, c, |chunks|);
    var rest := Zeros(SECTOR_SIZE) + RecordsAfter(chunks, c, |chunks|);
    assert ContainerBytes(chunks, c) == t + rest;
  }

  /** Record k's entry in the written file: its start sector and its sector count. */
  lemma EntryOfWritten(chunks: seq<ChunkData>, c: Codecs, k: nat)
    requires Encodes(chunks, c, |chunks|) && k < |chunks|
    requires forall j | k < j < |chunks| :: SlotIndex(chunks[j].x, chunks[j].z) != SlotIndex(chunks[k].x, chunks[k].z)
    requires StartSector(chunks, c, k) < Pow256(3)
    ensures var d := ContainerBytes(chunks, c);
      var s := SlotIndex(chunks[k].x, chunks[k].z);
      && EntryOffset(d, s) == StartSector(chunks, c, k)
      && d[4 * s + 3] == SectorCount(|ZlibOf(c, chunks[k])|) % 256
  {
    var s := SlotIndex(chunks[k].x, chunks[k].z);
    TableAtWritten(chunks, c, k, |chunks|);
    TableInContainer(chunks, c, s);
    EntryReadsBack(ContainerBytes(chunks, c), s, StartSector(chunks, c, k), SectorCount(|ZlibOf(c, chunks[k])|));
  }

  /** Record k read at its start sector: the length, the zlib marker and the tag all come back. */
  lemma RecordOfWritten(chunks: seq<ChunkData>, c: Codecs, k: nat)
    requires Lawful(c) && Encodes(chunks, c, |chunks|) && k < |chunks|
    requires SectorCount(|ZlibOf(c, chunks[k])|) < 256
    ensures RecordAt(ContainerBytes(chunks, c), c, StartSector(chunks, c, k) * SECTOR_SIZE, SlotIndex(chunks[k].x, chunks[k].z))
            == Ok(Some(Localised(chunks[k])))
  {
    FrameInContainer(chunks, c, k);
    RecordAtFrame(ContainerBytes(chunks, c), c, StartSector(chunks, c, k) * SECTOR_SIZE, chunks[k]);
  }

  /** Wherever a record's frame sits in a file, reading it there gives the record back. */
  lemma RecordAtFrame(d: seq<byte>, c: Codecs, start: nat, chunk: ChunkData)
    requires Lawful(c) && c.toBytes(chunk.data).Some?
    requires |ZlibOf(c, chunk)| + 1 < TWO_32
    requires start + |ZlibOf(c, chunk)| + 5 <= |d| && d[start..start + |ZlibOf(c, chunk)| + 5] == Framed(ZlibOf(c, chunk))
    ensures RecordAt(d, c, start, SlotIndex(chunk.x, chunk.z)) == Ok(Some(Localised(chunk)))
  {
    FramedAt(d, c, start, ZlibOf(c, chunk), SlotIndex(chunk.x, chunk.z));
    DecodeWritten(c, chunk);
  }

  /** A frame read at its start, for any slot: its length field and marker give back its data. */
  lemma FramedAt(d: seq<byte>, c: Codecs, start: nat, z: seq<byte>, i: nat)
    requires i < SLOTS && |z| + 1 < TWO_32
    requires start + |z| + 5 <= |d| && d[start..start + |z| + 5] == Framed(z)
    ensures RecordAt(d, c, start, i) == DecodeRecord(c, ZLIB, z, i)
  {
    FramedFields(z);
    var f := d[start..start + |z| + 5];
    assert d[start..start + 4] == f[..4];
    assert d[start + 4] == f[4];
    assert d[start + 5..start + 5 + |z|] == f[5..];
    BeValueOfBeBytes(|z| + 1, 4);
    Pow256Widths();
    ModUnique(|z| + 1, TWO_32, 0, |z| + 1);
  }

  /** A record's zlib stream decodes to its tag, at its own slot, with its position reduced. */
  lemma DecodeWritten(c: Codecs, chunk: ChunkData)
    requires Lawful(c) && c.toBytes(chunk.data).Some?
    ensures DecodeRecord(c, ZLIB, ZlibOf(c, chunk), SlotIndex(chunk.x, chunk.z)) == Ok(Some(Localised(chunk)))
  {
    var nbt := c.toBytes(chunk.data).value;
    assert c.inflate(c.deflate(nbt)) == Some(nbt);
    assert Decompressed(c, ZLIB, ZlibOf(c, chunk)) == Ok(Some(nbt));
    ModUnique(SlotIndex(chunk.x, chunk.z), 32, Low5(chunk.z), Low5(chunk.x));
  }

  /** The unpadded frame of record k in the file. */
  lemma FrameInContainer(chunks: seq<ChunkData>, c: Codecs, k: nat)
    requires Encodes(chunks, c, |chunks|) && k < |chunks|
    ensures var start := StartSector(chunks, c, k) * SECTOR_SIZE;
      var z := ZlibOf(c, chunks[k]);
      && start + |z| + 5 <= |ContainerBytes(chunks, c)|
      && ContainerBytes(chunks, c)[start..start + |z| + 5] == Framed(z)
  {
    var d := ContainerBytes(chunks, c);
    var z := ZlibOf(c, chunks[k]);
    var p := Payload(z);
    var start := StartSector(chunks, c, k) * SECTOR_SIZE;
    RecordInContainer(chunks, c, k);
    PayloadStartsFramed(z);
    assert |z| + 5 <= |p|;
    SliceOfSlice(d, start, start + |z| + 5, start + |p|);
  }

  /** The front of a slice is a shorter slice. */
  lemma SliceOfSlice(d: seq<byte>, a: nat, b: nat, e: nat)
    requires a <= b <= e <= |d|
    ensures d[a..e][..b - a] == d[a..b]
  {
  }

  /** The slot of record k holds exactly that record, with its position reduced. */
  lemma SlotRecordWritten(chunks: seq<ChunkData>, c: Codecs, k: nat)
    requires Lawful(c) && Placeable(chunks, c) && k < |chunks|
    ensures SlotRecord(ContainerBytes(chunks, c), c, SlotIndex(chunks[k].x, chunks[k].z)) == Ok(Some(Localised(chunks[k])))
  {
    SectorsMonotone(chunks, c, k + 1, |chunks|);
    var cnt := SectorCount(|ZlibOf(c, chunks[k])|);
    EntryOfWritten(chunks, c, k);
    RecordOfWritten(chunks, c, k);
    ModUnique(cnt, 256, 0, cnt);
    SlotOfEntry(ContainerBytes(chunks, c), c, SlotIndex(chunks[k].x, chunks[k].z), StartSector(chunks, c, k), cnt);
  }

  /** A slot whose entry holds a non-zero start and count reads as the record at that start. */
  lemma SlotOfEntry(d: seq<byte>, c: Codecs, s: nat, start: nat, cnt: nat)
    requires |d| >= HEADER_SIZE && s < SLOTS && 0 < start && 0 < cnt < 256
    requires EntryOffset(d, s) == start && d[4 * s + 3] as nat == cnt
    ensures SlotRecord(d, c, s) == RecordAt(d, c, start * SECTOR_SIZE, s)
  {
  }

  /** A slot no record went to holds nothing. */
  lemma SlotRecordUnwritten(chunks: seq<ChunkData>, c: Codecs, i: nat)
    requires Encodes(chunks, c, |chunks|) && i < SLOTS
    requires forall k | 0 <= k < |chunks| :: SlotIndex(chunks[k].x, chunks[k].z) != i
    ensures SlotRecord(ContainerBytes(chunks, c), c, i) == Ok(None)
  {
    TableAtUnwritten(chunks, c, |chunks|, i);
  }

  /** Reading back the file `write_mca` writes for restorable records gives exactly those records. */
  lemma ContainerRoundTrip(chunks: seq<ChunkData>, c: Codecs)
    requires Lawful(c) && Restorable(chunks, c) && chunks != []
    ensures Container(chunks, c) == Ok(Some(ContainerBytes(chunks, c)))
    ensures ReadRegion(ContainerBytes(chunks, c), c) == Ok(chunks)
  {
    ContainerReadBack(chunks, c);
    var rs := ReadRegion(ContainerBytes(chunks, c), c).value;
    forall k | 0 <= k < |chunks|
      ensures Localised(chunks[k]) == chunks[k]
    {
      SlotOfLocal(chunks[k]);
    }
    forall r
      ensures r in rs <==> r in chunks
    {
      if r in chunks {
        var k :| 0 <= k < |chunks| && chunks[k] == r;
        assert Localised(chunks[k]) in rs;
      }
    }
    SlotOrderedUnique(rs, chunks);
  }

  /** When no slot below n fails, the read succeeds and holds every record those slots give. */
  lemma {:induction false} ReadSlotsCollects(data: seq<byte>, c: Codecs, n: nat)
    requires |data| >= HEADER_SIZE && n <= SLOTS
    requires forall i | 0 <= i < n :: SlotRecord(data, c, i).Ok?
    ensures ReadSlots(data, c, n).Ok?
    ensures forall i | 0 <= i < n && SlotRecord(data, c, i).value.Some? ::
      SlotRecord(data, c, i).value.value in ReadSlots(data, c, n).value
  {
    if n > 0 {
      ReadSlotsCollects(data, c, n - 1);
      var prev := ReadSlots(data, c, n - 1).value;
      assert forall r | r in prev :: r in ReadSlots(data, c, n).value;
    }
  }

  /** A sequence without repeats has as many distinct members as elements. */
  lemma {:induction false} DistinctCard<T>(s: seq<T>)
    requires forall i, j | 0 <= i < j < |s| :: s[i] != s[j]
    ensures |set r | r in s| == |s|
  {
    if s != [] {
      var init := s[..|s| - 1];
      DistinctCard(init);
      assert (set r | r in s) == (set r | r in init) + {s[|s| - 1]};
      assert s[|s| - 1] !in (set r | r in init);
    }
  }

  /** Two sequences without repeats and with the same members have the same length. */
  lemma SameMembersSameLength<T>(a: seq<T>, b: seq<T>)
    requires forall i, j | 0 <= i < j < |a| :: a[i] != a[j]
    requires forall i, j | 0 <= i < j < |b| :: b[i] != b[j]
    requires forall r :: r in a <==> r in b
    ensures |a| == |b|
  {
    DistinctCard(a);
    DistinctCard(b);
    assert (set r | r in a) == (set r | r in b);
  }

  /** Two slot-ordered sequences with the same members are equal. */
  lemma {:induction false} SlotOrderedUnique(a: seq<ChunkData>, b: seq<ChunkData>)
    requires SlotOrdered(a) && SlotOrdered(b)
    requires forall r :: r in a <==> r in b
    ensures a == b
    decreases |a|
  {
    assert a != [] ==> a[0] in b;
    assert b != [] ==> b[0] in a;
    if a != [] {
      assert b[0] in a && a[0] in b;
      var i :| 0 <= i < |a| && a[i] == b[0];
      var j :| 0 <= j < |b| && b[j] == a[0];
      assert i == 0 && j == 0 by {
        assert LocalSlot(a[0]) <= LocalSlot(a[i]) == LocalSlot(b[0]) <= LocalSlot(b[j]) == LocalSlot(a[0]);
      }
      forall r
        ensures r in a[1..] <==> r in b[1..]
      {
        if r in a[1..] {
          InTail(a, b, r);
        }
        if r in b[1..] {
          InTail(b, a, r);
        }
      }
      SlotOrderedUnique(a[1..], b[1..]);
      assert a == [a[0]] + a[1..] && b == [b[0]] + b[1..];
    }
  }

  /** A member of a's tail, when a and b start alike and b holds it, is in b's tail. */
  lemma InTail(a: seq<ChunkData>, b: seq<ChunkData>, r: ChunkData)
    requires SlotOrdered(a) && a != [] && b != [] && a[0] == b[0]
    requires r in a[1..] && r in b
    ensures r in b[1..]
  {
    var k :| 1 <= k < |a| && a[k] == r;
    assert LocalSlot(a[0]) < LocalSlot(a[k]);
    var m :| 0 <= m < |b| && b[m] == r;
    assert b[1..][m - 1] == r;
  }

  /** Every slot of the written file reads without error: the record written there, or nothing. */
  lemma SlotsOfWritten(chunks: seq<ChunkData>, c: Codecs, i: nat)
    requires Lawful(c) && Placeable(chunks, c) && i < SLOTS
    ensures SlotRecord(ContainerBytes(chunks, c), c, i).Ok?
    ensures SlotRecord(ContainerBytes(chunks, c), c, i).value.Some? ==>
      exists k | 0 <= k < |chunks| :: SlotRecord(ContainerBytes(chunks, c), c, i).value.value == Localised(chunks[k])
  {
    if k :| 0 <= k < |chunks| && SlotIndex(chunks[k].x, chunks[k].z) == i {
      SlotRecordWritten(chunks, c, k);
    } else {
      SlotRecordUnwritten(chunks, c, i);
    }
  }

  /** The records of the written file are the localised records, as members. */
  lemma ReadBackMembers(chunks: seq<ChunkData>, c: Codecs)
    requires Lawful(c) && Placeable(chunks, c)
    ensures ReadRegion(ContainerBytes(chunks, c), c).Ok?
    ensures var rs := ReadRegion(ContainerBytes(chunks, c), c).value;
      && SlotOrdered(rs)
      && (forall k | 0 <= k < |chunks| :: Localised(chunks[k]) in rs)
      && (forall r | r in rs :: exists k | 0 <= k < |chunks| :: r == Localised(chunks[k]))
  {
    var d := ContainerBytes(chunks, c);
    forall i | 0 <= i < SLOTS
      ensures SlotRecord(d, c, i).Ok?
    {
      SlotsOfWritten(chunks, c, i);
    }
    ReadSlotsCollects(d, c, SLOTS);
    assert ReadRegion(d, c) == ReadSlots(d, c, SLOTS);
    var rs := ReadRegion(d, c).value;
    ReadRegionShape(d, c);
    ReadSlotsShape(d, c, SLOTS);
    forall k | 0 <= k < |chunks|
      ensures Localised(chunks[k]) in rs
    {
      SlotRecordWritten(chunks, c, k);
    }
    forall r | r in rs
      ensures exists k | 0 <= k < |chunks| :: r == Localised(chunks[k])
    {
      assert ReadFromSlot(d, c, r, SLOTS);
      SlotsOfWritten(chunks, c, LocalSlot(r));
    }
  }

  /**
   * Records written in any order and at any position, on distinct slots,
   * read back as exactly their positions reduced to the region, one each, in
   * slot order; `SlotOrderedUnique` makes that sequence the only one.
   */
  lemma ContainerReadBack(chunks: seq<ChunkData>, c: Codecs)
    requires Lawful(c) && Placeable(chunks, c) && chunks != []
    ensures Container(chunks, c) == Ok(Some(ContainerBytes(chunks, c)))
    ensures ReadRegion(ContainerBytes(chunks, c), c).Ok?
    ensures var rs := ReadRegion(ContainerBytes(chunks, c), c).value;
      && SlotOrdered(rs)
      && |rs| == |chunks|
      && (forall k | 0 <= k < |chunks| :: Localised(chunks[k]) in rs)
      && (forall r | r in rs :: exists k | 0 <= k < |chunks| :: r == Localised(chunks[k]))
  {
    ReadBackMembers(chunks, c);
    ReadBackLength(chunks, ReadRegion(ContainerBytes(chunks, c), c).value);
  }

  /** Records on distinct slots, read back one each, number as many as were written. */
  lemma ReadBackLength(chunks: seq<ChunkData>, rs: seq<ChunkData>)
    requires forall j, k | 0 <= j < k < |chunks| :: SlotIndex(chunks[j].x, chunks[j].z) != SlotIndex(chunks[k].x, chunks[k].z)
    requires SlotOrdered(rs)
    requires forall k | 0 <= k < |chunks| :: Localised(chunks[k]) in rs
    requires forall r | r in rs :: exists k | 0 <= k < |chunks| :: r == Localised(chunks[k])
    ensures |rs| == |chunks|
  {
    var n := |chunks|;
    var ls := seq(n, k requires 0 <= k < n => Localised(chunks[k]));
    forall j, k | 0 <= j < k < n
      ensures ls[j] != ls[k]
    {
      assert LocalSlot(ls[j]) != LocalSlot(ls[k]);
    }
    forall j, k | 0 <= j < k < |rs|
      ensures rs[j] != rs[k]
    {
      assert LocalSlot(rs[j]) < LocalSlot(rs[k]);
    }
    forall r
      ensures r in ls <==> r in rs
    {
      if r in rs {
        var k :| 0 <= k < n && r == Localised(chunks[k]);
        assert ls[k] == r;
      }
    }
    SameMembersSameLength(ls, rs);
  }

  /**
   * A record whose sector count is a multiple of 256 gets count byte 0 from
   * `as u8`, so reading the file back skips its slot and the record is lost.
   */
  lemma OversizeRecordIsLost(chunk: ChunkData, c: Codecs)
    requires c.toBytes(chunk.data).Some? && 0 <= chunk.x < 32 && 0 <= chunk.z < 32
    requires SectorCount(|ZlibOf(c, chunk)|) % 256 == 0
    ensures LocalSlot(chunk) < SLOTS
    ensures SlotRecord(ContainerBytes([chunk], c), c, LocalSlot(chunk)) == Ok(None)
    ensures ReadRegion(ContainerBytes([chunk], c), c).Ok? ==> chunk !in ReadRegion(ContainerBytes([chunk], c), c).value
  {
    var chunks := [chunk];
    assert Encodes(chunks, c, 1);
    assert StartSector(chunks, c, 0) == 2;
    assert Pow256(3) > 2;
    EntryOfWritten(chunks, c, 0);
    SlotOfLocal(chunk);
    var d := ContainerBytes(chunks, c);
    ReadRegionShape(d, c);
    ReadSlotsShape(d, c, SLOTS);
  }
}
