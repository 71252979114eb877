/** The values every component passes around: changes, optional values, results. */
module Changes {

  datatype Option<+T> = None | Some(value: T)

  datatype Result<+T, +E> = Ok(value: T) | Err(error: E)

  type byte = b: int | 0 <= b < 256

  type Bytes = seq<byte>

  datatype ChangeOperation = Query | SetKey | DeleteKey | Commit | Schema | Auth | LiveNotify

  /** One change of the database (src/change.rs:16). The UUID is its 128-bit value. */
  datatype Change = Change(
    id: nat,
    timestamp: nat,
    namespace: string,
    database: string,
    table: Option<string>,
    operation: ChangeOperation,
    key: Option<Bytes>,
    value: Option<Bytes>,
    metadata: map<string, string>)

  /** Two changes that differ, for runs that need some change. */
  const SOME_CHANGE: Change := Change(0, 0, "", "", None, Query, None, None, map[])
  const OTHER_CHANGE: Change := SOME_CHANGE.(id := 1)

  /** The machine's 64-bit counters; additions on them wrap. */
  const U64: nat := 0x1_0000_0000_0000_0000

  type u64 = n: nat | n < U64

  /** A serialization library, as the code uses it: bincode for changes and snapshots, JSON for messages. */
  datatype Codec<!T> = Codec(encode: T -> Bytes, decode: Bytes -> Option<T>)

  ghost predicate Lossless<T(!new)>(codec: Codec<T>) {
    forall x: T :: codec.encode(x) != [] && codec.decode(codec.encode(x)) == Some(x)
  }

  function Max(a: int, b: int): int {
    if a < b then b else a
  }

  function Min(a: int, b: int): int {
    if a < b then a else b
  }
}
