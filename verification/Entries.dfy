/** Keys, values and the small datatypes shared by every other module. */
module Entries {
  type Byte = n: int | 0 <= n < 256
  type Bytes = seq<Byte>
  type Key = Bytes
  type Value = Bytes

  datatype Option<+T> = None | Some(value: T)
  datatype Result<+T> = Ok(value: T) | Err

  /** What one key is bound to: a sequence number and a value, or a tombstone (None). */
  datatype Cell = Cell(seqNo: nat, value: Option<Value>)
  type Mem = map<Key, Cell>

  /** One accepted write. */
  datatype Record = Record(seqNo: nat, key: Key, value: Option<Value>)

  /** usize::saturating_sub. */
  function SaturatingSub(a: nat, b: nat): nat { if a < b then 0 else a - b }

  function Max(a: nat, b: nat): nat { if a < b then b else a }

  function Get(m: Mem, k: Key): Option<Cell> {
    if k in m then Some(m[k]) else None
  }
}
