# Region files to JSON slices and back, modelled in Dafny

The tool converts a world's region containers (`.mca` files) into JSON slice files and back. The export reads a container's chunk records. It keeps the fully generated chunks and optionally denoises their tags, which removes tick counters, timestamps and lighting caches. It encodes each tag as compact JSON, stamps it with its coordinates and prunes sections holding only air and empty values. It then packs the serialised chunks greedily into slices of at most 8 MiB, named `r.<x>.<z>.<n>.json`. The restore groups slice files by region, takes each chunk object's `x` and `z` back out and decodes the rest to a tag, optionally restores three default fields, and writes one container `r.<x>.<z>.mca` per region.

The model covers:
- the tag/JSON codec, including its escape rule and its markers for typed numbers, arrays and empty lists (`nbt_json.dfy`, `nbt_json_laws.dfy`, with base64 in `base64.dfy`);
- the container reader and writer over byte sequences (`mca.dfy`);
- the two file-name patterns (`region_names.dfy`);
- the denoise and restore-defaults transforms (`denoise.dfy`, `denoise_laws.dfy`);
- the configuration records and their defaults (`config.dfy`);
- the export pipeline (`export.dfy`) and the restore pipeline (`restore.dfy`).

Support modules hold the integer widths and big-endian encodings (`ints.dfy`), text formatting and parsing (`text.dfy`), float payloads (`floats.dfy`), the tag tree (`nbt.dfy`), the JSON tree (`json.dfy`) and `Option`/`Result` (`wrappers.dfy`).

The source's loops and in-place updates are methods with loops and invariants. The container writer fills a real `array` location table. Each method is proved equal to a specification function, and the laws are proved about those functions. The codec takes a `Revision` parameter: `AsWritten` is the code as it stands, and `Corrected` closes the three holes listed under Findings. Each pipeline takes the revision as a parameter, and the end-to-end round trips are proved for both revisions, each on the tags it writes faithfully (`NbtJsonLaws.Encodable`).

## Model

| member | source | states |
|---|---|---|
| NbtJson.NbtToJson | src/nbt_json.rs:10-66 | A non-empty list becomes an array of the same length. A compound becomes an object with the same keys. |
| NbtJson.PackArray | src/nbt_json.rs:37-50 | The int/long array loop yields the concatenated big-endian bytes of the elements (PackBe). |
| NbtJson.UnpackBe | src/nbt_json.rs:148-161 | Reading whole 4- or 8-byte big-endian chunks yields values within the element width. |
| NbtJson.ParseSuffixed | src/nbt_json.rs:166-197 | The suffix branch never fails. It yields a string only when that string is the input itself. |
| NbtJson.SuffixedNumber | src/nbt_json.rs:167-194 | A number comes only from a `b`/`s`/`L`/`f` suffix, and it is never a string tag. |
| NbtJson.ParseStringValue | src/nbt_json.rs:131-198 | Decoding a string fails only on an array text that is not escaped, and every such text with a non-base64 payload fails. |
| NbtJson.JsonToNbt | src/nbt_json.rs:94-128 | An object that is not the empty-list sentinel decodes, when it decodes, to a compound with the same key set. |
| NbtJson.DecodeObject | src/nbt_json.rs:96-105 | The object branch (sentinel check, then one insertion per member) equals the decoder on that object. |
| NbtJson.EmptyListMarker | src/nbt_json.rs:52-53 | The empty-list object is recognised by the decoder's sentinel test. |
| NbtJsonLaws.RoundTrip | src/nbt_json.rs:10-128 | Decoding the encoding of any tag the codec writes faithfully gives back the same tag. This holds for every variant and at any depth. |
| NbtJsonLaws.CorrectedRoundTrip | src/nbt_json.rs:24-50 | With the corrected codec, every string and every array, empty or not, reads back as itself. |
| NbtJsonLaws.StringRoundTrip | src/nbt_json.rs:24-31 | An escaped string is read back with exactly the escape removed. So is an unescaped string that neither ends with `\0` nor is a malformed array text. |
| NbtJsonLaws.StringSurvivesExactly | src/nbt_json.rs:24-31 | For the as-written codec, a string reads back as itself if and only if it satisfies StringSurvives (both directions). |
| NbtJsonLaws.ScalarRoundTrip | src/nbt_json.rs:12-16 | Byte, Short, Long and Float, written with their suffix, read back as the same variant and value. |
| NbtJsonLaws.SuffixedIntRoundTrip | src/nbt_json.rs:171-185 | A decimal integer followed by `b`, `s` or `L` decodes, in range, to that integer as a Byte, Short or Long. |
| NbtJsonLaws.NumbersAndFlagsDecode | src/nbt_json.rs:112-126 | `true`/`false` decode to Byte 1/0 and `null` to Byte 0. An integer in i32 range decodes to an Int, any other to a Long. An Int tag round-trips. |
| NbtJsonLaws.ArrayRoundTrip | src/nbt_json.rs:33-50 | Byte, int and long arrays read back as themselves, and for the as-written codec only when their text is longer than its prefix. |
| NbtJsonLaws.ArrayTextLength | src/nbt_json.rs:33-50 | An array's text is longer than two characters exactly when the array is not empty. |
| NbtJsonLaws.UnpackPackBe | src/nbt_json.rs:148-161 | Unpacking the big-endian bytes of in-width elements gives those elements back. |
| NbtJsonLaws.ElementRoundTrip | src/nbt_json.rs:151 | `from_be_bytes(v.to_be_bytes()) == v` for 32- and 64-bit values. |
| NbtJsonLaws.SignedBytesOfBytesOf | src/nbt_json.rs:145 | `as i8` undoes `as u8` on every byte of an array. |
| NbtJsonLaws.DecodeErrorsAreArrayTexts | src/nbt_json.rs:138-141 | Decoding fails only on a text of at least two bytes whose byte 1 is `;`. With the correction, it also needs a `B`, `I` or `L` first byte. |
| NbtJsonLaws.DecodeErrorsExactly | src/nbt_json.rs:138-164 | A string fails to decode if and only if it is an unescaped array text whose payload is not base64, or an `I` or `L` payload that is not a whole number of elements. As written, this holds for any first byte. |
| NbtJsonLaws.NonBase64TextIsRejected | src/nbt_json.rs:138-141 | As written, an unescaped text longer than two bytes with `;` at byte 1 and a non-base64 tail is rejected, whatever its first byte. |
| NbtJsonLaws.EscapedTailIsLost | src/nbt_json.rs:133-135 | The string `a\0` is not escaped, so it reads back as `a`. |
| NbtJsonLaws.SemicolonStringIsRejected | src/nbt_json.rs:138-141 | The string `x;a` is written unescaped and makes the decoder fail. |
| NbtJsonLaws.SemicolonTextIsRejected | src/nbt_json.rs:84-89 | The text `x;a` is not type-like, so it is written as is, and the decoder rejects it. |
| NbtJsonLaws.EmptyArrayBecomesString | src/nbt_json.rs:33-50 | Empty byte, int and long arrays read back as the strings `B;`, `I;`, `L;`. |
| NbtJsonLaws.EmptyArrayTextIsString | src/nbt_json.rs:138 | A bare two-character array prefix fails the `len > 2` test and decodes as a string. |
| NbtJsonLaws.MarkerCompoundBecomesList | src/nbt_json.rs:98-99 | A one-key compound whose key is `[]` reads back as the empty list, whatever its value. |
| NbtJsonLaws.MarkerObjectBecomesList | src/nbt_json.rs:98-99 | A JSON object decodes to the empty list if and only if its only member is `[]`, whatever that member holds. |
| NbtJsonLaws.NonFiniteDoubleBecomesString | src/nbt_json.rs:17-23 | A NaN or infinite double is written as text with a `d` suffix and reads back as a string. |
| Base64.DecodeEncode | src/nbt_json.rs:35 | Decoding the standard padded base64 of any bytes gives the bytes back. |
| Base64.EncodeDecode | src/nbt_json.rs:141 | The decoder accepts only canonical text: whatever it accepts re-encodes to the same text. |
| Mca.ReadMca | src/mca.rs:21-90 | The reader returns exactly ReadRegion of the file's bytes. |
| Mca.ReadSlot | src/mca.rs:33-86 | The loop body for slot i returns exactly that slot's outcome: skipped, a record, or an error. |
| Mca.SlotRecord | src/mca.rs:41-42 | A record read from slot i has local position x = i % 32 and z = i / 32. |
| Mca.Decompressed | src/mca.rs:64-81 | Compression 3 passes the payload through. An unknown compression skips the slot. Only gzip or zlib can fail, and that is a decompression error. |
| Mca.ErrorAborts | src/mca.rs:64-81 | An error at any slot is the outcome of the whole read. |
| Mca.ReadRegionShape | src/mca.rs:26-28 | A file shorter than the two tables reads as no records. Otherwise there are at most 1024 records, all in [0, 32) x [0, 32), in strictly increasing slot order. |
| Mca.ReadSlotsShape | src/mca.rs:32-87 | Every record read is what its slot holds, and the records come in slot order. |
| Mca.RecordIsFromItsSlot | src/mca.rs:41-42 | A slot's record occupies that very slot index. |
| Mca.SlotsBound | src/mca.rs:32 | Records with strictly increasing in-range slots number at most 1024. |
| Mca.WriteMca | src/mca.rs:93-147 | The writer returns exactly Container: nothing for no records, an error when the tag writer refuses one, else the file's bytes. |
| Mca.WriteRecords | src/mca.rs:98-133 | The loop fills a 4096-byte location array with TableAfter and the records with RecordsAfter, or reports the first tag the writer refuses. |
| Mca.WriteRecord | src/mca.rs:103-133 | One loop turn keeps the invariant that relates the table, the records and the sector counter to the records written so far. |
| Mca.WriteStep | src/mca.rs:112-132 | One more record sets its slot's entry to its start sector and count, appends its padded record, and advances the sector by its count. |
| Mca.PlaceRecord | src/mca.rs:112-132 | Framing, the location write and the sector advance, each stated on the array and the counter. |
| Mca.FrameRecord | src/mca.rs:112-120 | The record is the padded payload of the compressed tag, and the count is its sector count. |
| Mca.WriteLocation | src/mca.rs:123-129 | Only the slot's four bytes of the table change: the low three bytes of the sector, then the count `as u8`. |
| Mca.DropHighByte | src/mca.rs:125-128 | Dropping the top byte of a big-endian encoding leaves the encoding one byte shorter. |
| Mca.SectorCount | src/mca.rs:113 | The count is the least number of whole sectors holding the data plus its 5 header bytes. |
| Mca.Payload | src/mca.rs:116-120 | A record fills exactly its sector count of sectors. |
| Mca.FramedFields | src/mca.rs:117-119 | A record starts with `(n + 1)` as a 4-byte big-endian length, then the zlib marker 2, then the data. |
| Mca.PayloadStartsFramed | src/mca.rs:120 | Padding only appends after the framed record. |
| Mca.SetEntryFrame | src/mca.rs:126-129 | Writing slot s's entry changes slot s's four bytes and no other slot's. |
| Mca.SlotIndex | src/mca.rs:123 | `(x & 31) + (z & 31) * 32` lies in [0, 1024). |
| Mca.SlotIndexIsEuclidean | src/mca.rs:123 | The slot index is `x mod 32 + (z mod 32) * 32` under the Euclidean remainder, also for negative coordinates. |
| Mca.Low5IsEuclideanMod | src/mca.rs:123 | `v & 31` on an i32 is the Euclidean remainder of v modulo 32. |
| Mca.TableAtWritten | src/mca.rs:123-129 | A record's location entry survives later writes to other slots. A later record with the same slot overwrites it. |
| Mca.TableAtUnwritten | src/mca.rs:98 | A slot no record went to keeps count byte 0. |
| Mca.EntryOfWritten | src/mca.rs:123-129 | In the written file, the entry at a record's slot `(x & 31) + (z & 31) * 32` reads back as its start sector and its count modulo 256, at any position. |
| Mca.RecordOfWritten | src/mca.rs:112-120 | Reading at a record's start sector gives back its tag, at its position reduced to the region. |
| Mca.SlotRecordWritten | src/mca.rs:33-86 | In a file written from records on distinct slots, in any order and at any position, each record's slot reads back as its tag at its reduced position. |
| Mca.SlotRecordUnwritten | src/mca.rs:37-39 | A slot no record went to reads as nothing. |
| Mca.ReadSlotsCollects | src/mca.rs:32-87 | When no slot fails, the read succeeds and holds every record a slot gives. |
| Mca.SlotOrderedUnique | src/mca.rs:32 | Two sequences in strictly increasing slot order with the same members are equal, so the slot-order read is determined by its members. |
| Mca.ContainerReadBack | src/mca.rs:21-147 | Records on distinct slots, written in any order and at any position, read back as exactly their positions reduced to the region, one each, in slot order. |
| Mca.ContainerRoundTrip | src/mca.rs:21-147 | Records with local positions written in slot order read back as exactly those records. |
| Mca.OversizeRecordIsLost | src/mca.rs:129 | A record of 256 sectors gets count byte 0 from `as u8`. Its slot is then skipped on reading, and the record is lost. |
| RegionNames.MatchTokensSound | src/mca.rs:151-152 | A match spells its captures in order, and each capture fits its token (`-?\d+`, `\d+` or the literal). |
| RegionNames.MatchOfSpelling | src/mca.rs:151-152 | Conversely, text that spells a delimited pattern at a position matches there with exactly those captures. |
| RegionNames.FirstMatchIsLeftmost | src/mca.rs:152 | The search returns the leftmost start with a match, and reports none only when no start matches. |
| RegionNames.Captures | src/mca.rs:152 | The captures of a match have one text per token, each fitting it. |
| RegionNames.McaFileNameRoundTrip | src/mca.rs:150-156 | `r.<x>.<z>.mca` parses back to (x, z), also with any text after it, since the pattern is unanchored. |
| RegionNames.OutOfRangeCoordinate | src/mca.rs:153 | A coordinate outside i32 makes the name unusable, even though the pattern matches. |
| RegionNames.LeadingZeros | src/mca.rs:153 | Leading zeros are accepted and keep the value. |
| RegionNames.SliceFileNameRoundTrip | src/restore.rs:55-68 | For every slice number, `r.<x>.<z>.<n>.json` groups to region (x, z). |
| Text.FormatThenParse | src/mca.rs:153-154 | Parsing the decimal text of an in-range integer gives the integer back. |
| Text.ParseInt | src/nbt_json.rs:172 | Parsing gives a value only within the type's range. |
| Denoise.RemoveFields | src/denoise.rs:73-75 | The removal loop leaves exactly the keys not listed, with their values. |
| Denoise.StripSections | src/denoise.rs:81-89 | Every compound element of `sections` loses its light arrays. Other elements are kept, as are the order and the length. |
| Denoise.DenoiseChunkWithConfig | src/denoise.rs:71-92 | Equals DenoisedChunk with the configured lists. |
| Denoise.DenoiseChunk | src/denoise.rs:47-68 | Equals DenoisedChunk with the built-in field lists. |
| Denoise.DenoiseChunkFields | src/denoise.rs:47-92 | The shared body equals DenoisedChunk for any lists. |
| Denoise.DenoiseLevelWithConfig | src/denoise.rs:109-122 | Equals DenoisedLevel with the configured fields and weather flag. |
| Denoise.DenoiseLevel | src/denoise.rs:95-106 | Equals DenoisedLevel with `LEVEL_NOISE_FIELDS` and the weather reset. |
| Denoise.RestoreDefaults | src/denoise.rs:125-135 | Equals WithDefaults. |
| Denoise.Without | src/denoise.rs:73-75 | Exactly the keys not listed remain, each with its value. |
| DenoiseLaws.ChunkFrame | src/denoise.rs:71-90 | A compound root loses exactly the listed keys, plus the aggressive ones in aggressive mode. Every other key keeps its value, except an aggressive `sections` list, which is stripped. A non-compound root is untouched. |
| DenoiseLaws.SectionFrame | src/denoise.rs:83-87 | A stripped section loses exactly `BlockLight` and `SkyLight`. A non-compound section is untouched. |
| DenoiseLaws.ChunkIdempotent | src/denoise.rs:47-92 | Denoising a chunk twice is denoising it once. |
| DenoiseLaws.LevelFrame | src/denoise.rs:109-121 | Only a compound `Data` changes. It loses the listed fields, and with the flag set the weather flags become Byte 0. Every other key keeps its value. |
| DenoiseLaws.LevelIdempotent | src/denoise.rs:95-122 | Denoising a level twice is denoising it once. |
| DenoiseLaws.BuiltinLevelIsDefault | src/denoise.rs:95-106 | `denoise_level` is the configured version under the default level configuration. |
| DenoiseLaws.BuiltinChunkFieldsExtendDefaults | src/denoise.rs:7-23 | The built-in chunk lists contain the default ones, and more. |
| DenoiseLaws.DefaultsFrame | src/denoise.rs:125-135 | The three defaults are added only where absent, and every existing entry is kept. |
| DenoiseLaws.DefaultsIdempotent | src/denoise.rs:125-135 | Restoring defaults twice is restoring them once. |
| DenoiseLaws.DenoiseAfterDefaults | src/denoise.rs:125-135 | When the field list removes the three defaulted keys, denoising after restoring defaults equals denoising alone. |
| DenoiseLaws.DefaultDenoiseAfterDefaults | src/config.rs:109-115 | The default chunk list satisfies that condition. |
| Configuration.DefaultExport | src/config.rs:80-87 | Denoise on, aggressive off. |
| Configuration.DefaultRestore | src/config.rs:89-95 | Restoring defaults is on. |
| Configuration.DefaultChunkDenoise | src/config.rs:106-119 | Five fields, including the three defaulted keys, and the one aggressive field `Heightmaps`. |
| Configuration.DefaultLevelDenoise | src/config.rs:121-139 | Eleven fields, and the weather is reset. |
| Configuration.DefaultDenoise | src/config.rs:97-104 | The denoise defaults are the default chunk and level records. |
| Configuration.Default | src/config.rs:70-78 | The configuration defaults are the three records' defaults. |
| Configuration.EmptyPatchIsDefault | src/config.rs:10-60 | An empty file, or one whose tables are all empty, gives the default configuration. |
| Configuration.ResolveTakesGivenFields | src/config.rs:10-139 | Each of the eight fields is taken as written when present, and otherwise is its record's default. A missing table, including `chunk` or `level` inside `denoise`, is its default table. |
| Configuration.ResolveFull | src/config.rs:9-66 | A configuration written out in full reads back as itself. |
| Export.NameOf | src/export.rs:527 | A string `Name` member is returned, and anything else gives the empty string. |
| Export.NonEmptySections | src/export.rs:508 | Exactly the sections that are not empty are kept, each as often as before. |
| Export.NonEmptySectionsAppend | src/export.rs:508 | Filtering keeps order: it distributes over concatenation. |
| Export.WithoutEmptySections | src/export.rs:505-511 | Only an object's `sections` array changes, and it loses exactly its empty sections. Any other value is untouched. |
| Export.WithoutEmptySectionsIdempotent | src/export.rs:505-511 | Filtering the sections twice is filtering them once. |
| Export.PrunedIsClean | src/export.rs:541-558 | After pruning, no object anywhere holds an empty object, an empty array or the empty-list marker. |
| Export.CleanIsUnchanged | src/export.rs:541-558 | Pruning a clean tree changes nothing. |
| Export.PrunedIdempotent | src/export.rs:541-558 | Pruning twice is pruning once. |
| Export.PrunedMembers | src/export.rs:549 | A scalar member is always kept as it was, and an empty member is always dropped. |
| Export.FilterEmptyValues | src/export.rs:541-558 | The recursive loop returns exactly Pruned. |
| Export.Stamped | src/export.rs:407-410 | An object gets integer members `x` and `z`, replacing any there, and keeps every other member. Anything else is untouched. |
| Export.ChunkJson | src/export.rs:401-414 | A compound chunk gives an object carrying its coordinates, and the result is clean. |
| Export.ExportedChunk | src/export.rs:395-425 | A chunk is emitted if and only if it is fully generated and, when skipping is on, keeps sections or block entities. An emitted object is clean and carries the chunk's coordinates. |
| Export.ExportChunk | src/export.rs:395-425 | The loop body equals ExportedChunk. |
| Export.ExportChunks | src/export.rs:393-425 | The loop collects exactly ExportedAll. |
| Export.ExportedAllShape | src/export.rs:393-425 | An object is exported exactly when some chunk of the region produces it. Each one is clean and carries the coordinates of a fully generated chunk. |
| Export.SlicesLaws | src/export.rs:445-470 | The slices are the chunks in order. None is empty, one over 8 MiB holds a single chunk, and each closes only before the chunk that would take it over the limit. |
| Export.GreedyCutIsUnique | src/export.rs:453 | Two greedy, well-formed cuttings of the same chunks are equal. |
| Export.SlicesAreTheGreedyCut | src/export.rs:445-470 | The packer's slices are the only greedy, well-formed cutting. |
| Export.WriteChunksDirect | src/export.rs:475-491 | The text is `{"chunks":[` and a newline, the items joined by a comma and a newline, then a newline and `]}` and a newline. |
| Export.SliceDocuments | src/export.rs:454-468 | Slice i is named `r.<x>.<z>.<i>.json` and holds the document of the i-th slice. |
| Export.WriteRegionSliced | src/export.rs:438-472 | The files written are the documents of the greedy slices of the serialised chunks, numbered from 0. |
| Export.ExportedRegionLaws | src/export.rs:374-435 | A bad name or a read error stops the export. Otherwise there are no files exactly when no chunk was kept. Each file is named for its slice number and parses back to the region, and the files hold the kept chunks, serialised, in order, cut greedily. |
| Export.ExportMcaWithConfig | src/export.rs:374-435 | Equals ExportedRegion with the configured chunk lists and skip flag. |
| Export.ExportMca | src/export.rs:313-371 | Equals ExportedRegion with the built-in lists, always skipping chunks without data. |
| Export.ExportRegion | src/export.rs:383-432 | The shared body equals ExportedRegion. |
| Restore.GroupSliceFiles | src/restore.rs:55-71 | The grouping loop returns exactly Grouping of the file names, by the slice pattern. |
| Restore.GroupingLaws | src/restore.rs:59-71 | The grouping fails exactly when some name has an unparsable coordinate. Otherwise a region is a key exactly when some name belongs to it, and its list is those names in directory order. |
| Restore.GroupedErrLaw | src/restore.rs:67-68 | After n names, the grouping has failed if and only if one of them failed. |
| Restore.GroupedMapLaw | src/restore.rs:69 | After n names, each region's list is its names among them, in order. |
| Restore.GroupedStep | src/restore.rs:66-69 | One more name: a bad coordinate ends the grouping, a name that does not match is skipped, and a match is pushed onto its region's list. |
| Restore.GroupingOneRegion | src/restore.rs:69 | Names of one region group into that region alone, in order. |
| Restore.SliceNamesGroupBack | src/restore.rs:55-71 | The names the export gives a region's slices group back to that region, in slice order. |
| Restore.NamesOf | src/restore.rs:69 | A region's names are drawn from the directory and all belong to it. |
| Restore.IntMember | src/restore.rs:256-263 | An integer member is present exactly when the object has an integer node under that key. |
| Restore.RestoredChunkLaws | src/restore.rs:251-281 | A missing `x` or `z` is an error. The coordinates are cut to 32 bits. The tag is the decoded object without `x` and `z`, plus the defaults if and only if the flag is set. A restored compound never has `x` or `z` keys. |
| Restore.RestoreChunk | src/restore.rs:253-281 | The body for one chunk object equals RestoredChunk. |
| Restore.ChunkRoundTrip | src/restore.rs:251-281 | For either codec revision, restoring the exported JSON of a chunk that survives the trip gives back its coordinates and exported tag, with defaults if asked. |
| Restore.RegionRoundTrip | src/restore.rs:251-282 | For either codec revision, export without skipping, then restore: a region whose chunks all survive restores to its fully generated chunks, in order. |
| Restore.RestoreArray | src/restore.rs:251-282 | The inner loop returns exactly RestoredList: the chunks in array order, or the first error. |
| Restore.RestoredListAppend | src/restore.rs:251-282 | Restoring a concatenation restores the first part, then the second. |
| Restore.RestoredDocsFlatten | src/restore.rs:242-283 | How the records are split into files does not matter: the documents restore as the concatenation of their arrays. |
| Restore.MissingChunksAborts | src/restore.rs:246-249 | A slice without a `chunks` array stops its region's restore with that error. |
| Restore.DocumentFails | src/restore.rs:242-283 | A document that fails stops its region's restore with its error. |
| Restore.RestoredRegionLaws | src/restore.rs:285-288 | A file is written exactly when the documents restore to at least one record and the writer accepts them; the writer's refusal is the only other outcome. The file is named `r.<x>.<z>.mca`, its name parses back to the region, and an error is passed on. |
| Restore.RestoredFileReadsBack | src/restore.rs:242-288 | The file restore writes, with records in directory-listing order, reads back as those records at their reduced positions, one each, in slot order. |
| Restore.RestoreRegionSlices | src/restore.rs:233-291 | The method returns exactly RestoredRegion. |

## Left out

- Files, directories and the command line: reading and writing files, `create_dir_all`, and dimension and directory walking. The container functions take and return byte sequences. The slice writer returns the files it would write. Directory listings come in as name sequences.
- The level.dat export and restore: only the denoise transforms for levels are modelled.
- Parallelism: the `rayon` tasks are independent, and one task is modelled.
- Compression and the binary tag format: gzip, zlib and fastnbt's `from_bytes`/`to_bytes` are function values in `Mca.Codecs`. The container round trip requires `Mca.Lawful`, meaning zlib decompression undoes compression and the tag reader undoes the writer.
- JSON text: serde_json's `to_string` is a parameter (`serialize`), and `from_str` is not modelled. The restore takes the documents already parsed. The sizes the packer adds are the UTF-8 lengths of the serialised texts.
- JSON numbers above `i64::MAX`, which serde holds as u64, are not modelled. Integer nodes are i64.
- Floating point: an f32 payload is its display text, a float literal. An f64 payload is its bit pattern and is written as a JSON number exactly when finite. Float formatting and `parse::<f32>`/`parse::<f64>` are modelled only by which texts they accept, not by value.
- Regular expressions: the two file-name patterns are hand-written token matchers with leftmost-first search. `\d` is taken as ASCII digits, while the regex crate's Unicode `\d` also admits other decimal digits.
- TOML loading and saving of the configuration. Only serde's defaulting of missing fields is modelled, as patches.
- The field-name mapper (`shorten_json_keys`, `restore_json_keys`) is taken as the identity. `restore_region_slices_with_config` therefore has the same model as `restore_region_slices`. The export's area filter is not modelled, and `skip_empty_chunks` is a boolean parameter.
- The source updates the JSON tree and the tags through `&mut`. The model returns the new value, which does not capture aliasing.
- Panics are modelled as errors. A payload range inverted by a zero length field is `InvertedRange`. The `chunks(4)`/`chunks(8)` panic on a payload that is not whole elements is folded into `MalformedArray`.
- NbtJson.JsonToNbt: every decode failure is the single error `MalformedArray`. Which member's failure is reported first depends on serde's map iteration order, which is not modelled.
- The write timestamps are all zero, as in the source.
- Mca.ContainerRoundTrip: requires records with local coordinates in strictly increasing slot order, because only then is the read-back the same sequence; ContainerReadBack covers any order and position on distinct slots. Two records on one slot are excluded because the later overwrites the earlier's entry (TableAtWritten), so the earlier is lost by design.
- Mca.Placeable: requires each record under 256 sectors and the file within 2^24 sectors. The source leaves overlong records to `as u8` and a 3-byte offset; OversizeRecordIsLost shows a multiple of 256 is lost. The reader needs only a non-zero count byte, so a larger count that is not a multiple of 256 would also read back; the model keeps the single bound below 256.
- Restore.RegionRoundTrip: requires each chunk to be RoundTripReady. Pruning of empty values and the section filter are lossy by design, so a chunk they change cannot come back unchanged.
- The restore's file order is the order of the region's list, passed in. The source takes it from the directory listing.
- A compound whose only key is `[]` reads back as an empty list, and a non-finite double reads back as a string. Both revisions keep these gaps (MarkerCompoundBecomesList, NonFiniteDoubleBecomesString), because no single intended behaviour is evident.
- NbtJsonLaws.RoundTrip: requires Encodable, which excludes these two gaps. For the as-written codec it also excludes the strings and arrays under Findings.

## Findings

| source | as written | input that shows it | evidently intended | confidence | as-written member | corrected member |
|---|---|---|---|---|---|---|
| src/nbt_json.rs:24-31, src/nbt_json.rs:133-135 | a string ending in `\0` that is not type-like is written unescaped, and the decoder strips the two characters | the string `a\0` reads back as `a` | escape a string that already ends with `\0` | not executed | NbtJsonLaws.EscapedTailIsLost | NbtJsonLaws.CorrectedRoundTrip |
| src/nbt_json.rs:84-89, src/nbt_json.rs:138-141 | the decoder enters the array branch for any first byte when byte 1 is `;`, but the encoder escapes only `B`, `I`, `L` | the string `x;a` is written as is and fails to decode | enter the array branch only for the prefixes `B`, `I`, `L` | not executed | NbtJsonLaws.SemicolonStringIsRejected | NbtJsonLaws.CorrectedRoundTrip |
| src/nbt_json.rs:33-50, src/nbt_json.rs:138 | an empty array is written as its bare prefix, which fails the `len > 2` test | an empty ByteArray reads back as the string `B;` | accept an empty payload after an array prefix | not executed | NbtJsonLaws.EmptyArrayBecomesString | NbtJsonLaws.CorrectedRoundTrip |
