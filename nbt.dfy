/**
 * The binary-tag value model: twelve variants (four integer widths, two
 * float widths, a string, three numeric arrays, a list and a compound).
 * A compound maps keys to tags, so its keys are unique by construction.
 */
module Nbt {
  import opened Ints
  import opened Floats

  datatype Value =
    | Byte(b: i8)
    | Short(sh: i16)
    | Int(n: i32)
    | Long(l: i64)
    | Float(f: F32Text)
    | Double(d: F64)
    | String(str: string)
    | ByteArray(bytes: seq<i8>)
    | IntArray(ints: seq<i32>)
    | LongArray(longs: seq<i64>)
    | List(items: seq<Value>)
    | Compound(entries: map<string, Value>)
}
