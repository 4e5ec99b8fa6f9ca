/** Hashes as parameters, and blocks closed by a checksum. */
module Sealing {
  import opened Entries
  import opened ByteSeqs

  /** The checksum of a block and the two hashes of a key. Nothing is assumed of them. */
  datatype Hashing = Hashing(sum: Bytes -> nat, first: Bytes -> nat, second: Bytes -> nat)

  /** calculate_checksum_32. */
  function Checksum(h: Hashing, payload: Bytes): (c: nat)
    ensures c < U32
  {
    h.sum(payload) % U32
  }

  /** The bytes and their trailing checksum. */
  function Seal(h: Hashing, body: Bytes): (b: Bytes)
    ensures |b| == |body| + 4
  {
    body + Le32(Checksum(h, body))
  }

  /** read_verified_block. */
  function ReadVerified(h: Hashing, file: Bytes, offset: nat, size: nat): Result<Bytes> {
    if size < 4 || offset + size > |file| then Err
    else
      var body := file[offset..offset + size - 4];
      var expected := U32At(file, offset + size - 4);
      if Checksum(h, body) != expected then Err else Ok(body)
  }

  /** A read succeeds exactly on a sealed block, and yields what was sealed. */
  lemma VerifiedExactly(h: Hashing, file: Bytes, offset: nat, size: nat, body: Bytes)
    ensures ReadVerified(h, file, offset, size) == Ok(body) <==> size == |body| + 4 && At(file, offset, Seal(h, body))
  {
    var check := Le32(Checksum(h, body));
    AtConcat(file, offset, body, check);
    if size >= 4 && offset + size <= |file| {
      Standing32(file, offset + size - 4);
    }
    if size == |body| + 4 && At(file, offset, Seal(h, body)) {
      Number32(file, offset + |body|, Checksum(h, body));
    }
  }
}
