/** Unsigned LEB128, as data blocks use it (section 7.6 of DWARF Version 5). */
module Varints {
  import opened Entries
  import opened ByteSeqs

  /** The encoding: seven bits a byte, lowest first, the top bit set on all but the last. */
  function Varint(n: nat): (b: Bytes)
    ensures |b| >= 1
    decreases n, 1
  {
    if n < 128 then [n] else Continued(n)
  }

  function Continued(n: nat): (b: Bytes)
    requires n >= 128
    ensures |b| >= 1
    decreases n, 0
  {
    [128 + n % 128] + Varint(n / 128)
  }

  /** The number that the seven-bit groups from i to j stand for, whatever their top bits. */
  function Groups(b: Bytes, i: nat, j: nat): nat
    requires i <= j <= |b|
    decreases j - i
  {
    if i == j then 0 else b[i] % 128 + 128 * Groups(b, i + 1, j)
  }

  /** The first byte from pos on without the top bit: where a varint ends. */
  function LastGroup(b: Bytes, pos: nat): (t: nat)
    requires pos <= |b|
    ensures pos <= t <= |b|
    decreases |b| - pos
  {
    if pos == |b| || b[pos] < 128 then pos else LastGroup(b, pos + 1)
  }

  /** What reading at pos yields: the value and the place behind it. Ten groups are the most
      that are read, and bits past the sixty-fourth are dropped. */
  function Parse(b: Bytes, pos: nat): (r: Result<(nat, nat)>)
    ensures r.Ok? ==> pos < r.value.1 <= |b| && r.value.1 <= pos + 10 && r.value.0 < U64
  {
    if pos > |b| then Err
    else
      var t := LastGroup(b, pos);
      if t < |b| && t < pos + 10 then Ok((Groups(b, pos, t + 1) % U64, t + 1)) else Err
  }

  function Pow128(n: nat): (p: nat)
    ensures p > 0
  {
    if n == 0 then 1 else 128 * Pow128(n - 1)
  }

  lemma Pow128Values()
    ensures Pow128(9) == U64 / 2 && Pow128(10) == 64 * U64
  {
    assert Pow128(1) == 128;
    assert Pow128(2) == 128 * Pow128(1);
    assert Pow128(3) == 128 * Pow128(2);
    assert Pow128(4) == 128 * Pow128(3);
    assert Pow128(5) == 128 * Pow128(4);
    assert Pow128(6) == 128 * Pow128(5);
    assert Pow128(7) == 128 * Pow128(6);
    assert Pow128(8) == 128 * Pow128(7);
    assert Pow128(9) == 128 * Pow128(8);
  }

  lemma {:induction false} PowMonotone(a: nat, b: nat)
    requires a <= b
    ensures Pow128(a) <= Pow128(b)
  {
    if a < b {
      PowMonotone(a, b - 1);
    }
  }

  lemma {:induction false} LastGroupStep(b: Bytes, pos: nat, i: nat)
    requires pos <= i < |b| && i <= LastGroup(b, pos)
    ensures b[i] < 128 ==> LastGroup(b, pos) == i
    ensures b[i] >= 128 ==> LastGroup(b, pos) >= i + 1
    decreases i - pos
  {
    if pos < i {
      LastGroupStep(b, pos + 1, i);
    }
  }

  lemma {:induction false} GroupsSnoc(b: Bytes, i: nat, j: nat)
    requires i <= j < |b|
    ensures Groups(b, i, j + 1) == Groups(b, i, j) + b[j] % 128 * Pow128(j - i)
    decreases j - i
  {
    if i == j {
      assert Groups(b, i + 1, j + 1) == 0;
    } else {
      GroupsSnoc(b, i + 1, j);
      Distribute(Groups(b, i + 1, j), b[j] % 128, Pow128(j - i - 1));
    }
  }

  lemma Distribute(g: nat, x: nat, p: nat)
    ensures 128 * (g + x * p) == 128 * g + x * (128 * p)
  {
  }

  lemma {:induction false} GroupsBound(b: Bytes, i: nat, j: nat)
    requires i <= j <= |b|
    ensures Groups(b, i, j) < Pow128(j - i)
    decreases j - i
  {
    if i < j {
      GroupsBound(b, i + 1, j);
    }
  }

  /** write_varint. */
  method WriteVarint(buf: Bytes, number: nat) returns (out: Bytes)
    ensures out == buf + Varint(number)
  {
    out := buf;
    var value := number;
    while true
      invariant out + Varint(value) == buf + Varint(number)
      decreases value
    {
      var byte := value % 128;
      var rest := value / 128;
      if rest != 0 {
        byte := byte + 128;
      }
      ghost var before := out;
      out := out + [byte];
      if rest == 0 {
        break;
      }
      assert before + Varint(value) == out + Varint(rest);
      value := rest;
    }
  }

  /** read_varint on the bytes from pos on. Each group lands on bits that the earlier ones
      left clear, so | is +. */
  method ReadVarint(buf: Bytes, pos: nat) returns (r: Result<(nat, nat)>)
    requires pos <= |buf|
    ensures r == Parse(buf, pos)
  {
    var result, shift, i := 0, 0, pos;
    while i < |buf|
      invariant pos <= i <= |buf| && i <= pos + 9 && shift == 7 * (i - pos)
      invariant LastGroup(buf, pos) >= i
      invariant result == Groups(buf, pos, i) < Pow128(i - pos)
    {
      var byte := buf[i];
      OneMoreGroup(buf, pos, i);
      LastGroupStep(buf, pos, i);
      result := result + ShiftedGroup(byte, shift);
      if byte < 128 {
        return Ok((result, i + 1));
      }
      shift := shift + 7;
      if shift >= 64 {
        return Err;
      }
      i := i + 1;
    }
    return Err;
  }

  /** ((byte & 0x7F) as u64) << shift: bits past the sixty-fourth are lost. */
  function ShiftedGroup(byte: Byte, shift: nat): nat
    requires shift % 7 == 0
  {
    byte % 128 * Pow128(shift / 7) % U64
  }

  /** The value after one more group of the loop. */
  lemma OneMoreGroup(b: Bytes, pos: nat, i: nat)
    requires pos <= i < |b| && i <= pos + 9
    ensures Groups(b, pos, i) + ShiftedGroup(b[i], 7 * (i - pos)) == Groups(b, pos, i + 1) % U64
    ensures i < pos + 9 ==> Groups(b, pos, i + 1) % U64 == Groups(b, pos, i + 1) < Pow128(i - pos + 1)
    ensures i == pos + 9 && b[i] < 128 ==> (Groups(b, pos, i + 1) < U64 <==> b[i] <= 1)
  {
    GroupsSnoc(b, pos, i);
    GroupsBound(b, pos, i);
    ReadGroup(Groups(b, pos, i), b[i], i - pos);
    if i < pos + 9 {
      EarlyGroup(Groups(b, pos, i), b[i] % 128, i - pos);
    } else {
      Pow128Values();
    }
  }

  lemma {:induction false} ReadGroup(result: nat, byte: Byte, i: nat)
    requires i <= 9 && result < Pow128(i)
    ensures result + ShiftedGroup(byte, 7 * i) == (result + byte % 128 * Pow128(i)) % U64
    ensures i < 9 ==> result + byte % 128 * Pow128(i) < U64
  {
    assert 7 * i / 7 == i;
    if i < 9 {
      EarlyGroup(result, byte % 128, i);
    } else {
      Pow128Values();
      HalfMultiple(byte % 128, result);
    }
  }

  lemma EarlyGroup(result: nat, x: nat, i: nat)
    requires i < 9 && result < Pow128(i) && x < 128
    ensures result + x * Pow128(i) < Pow128(i + 1) <= U64 / 2
    ensures x * Pow128(i) % U64 == x * Pow128(i) && (result + x * Pow128(i)) % U64 == result + x * Pow128(i)
  {
    PowMonotone(i + 1, 9);
    Pow128Values();
    TimesAtMost(x, 127, Pow128(i));
    SmallMod(x * Pow128(i), U64);
    SmallMod(result + x * Pow128(i), U64);
  }

  lemma TimesAtMost(x: nat, y: nat, p: nat)
    requires x <= y
    ensures 0 <= x * p <= y * p
  {
  }

  lemma SmallMod(x: nat, m: nat)
    requires x < m
    ensures x % m == x
  {
  }

  /** A multiple of 2^63, taken modulo 2^64, leaves room for anything below 2^63. */
  lemma HalfMultiple(x: nat, result: nat)
    requires result < U64 / 2
    ensures (result + x * (U64 / 2)) % U64 == result + x * (U64 / 2) % U64
  {
    assert x == 2 * (x / 2) + x % 2;
    assert x * (U64 / 2) == x / 2 * U64 + x % 2 * (U64 / 2);
  }

  /** Where an encoded number stands, its groups read back. */
  lemma {:induction false} VarintShape(b: Bytes, pos: nat, n: nat)
    requires At(b, pos, Varint(n))
    ensures LastGroup(b, pos) == pos + |Varint(n)| - 1
    ensures Groups(b, pos, pos + |Varint(n)|) == n
    decreases n
  {
    AtByte(b, pos, Varint(n)[0]);
    if n < 128 {
      assert Groups(b, pos + 1, pos + 1) == 0;
    } else {
      AtConcat(b, pos, [128 + n % 128], Varint(n / 128));
      VarintShape(b, pos + 1, n / 128);
    }
  }

  lemma {:induction false} VarintLength(n: nat, m: nat)
    requires n < Pow128(m) && m >= 1
    ensures |Varint(n)| <= m
  {
    if n >= 128 {
      VarintLength(n / 128, m - 1);
    }
  }

  /** Every u64 reads back wherever it stands, whatever bytes follow it. */
  lemma {:induction false} RoundTrip(b: Bytes, pos: nat, n: nat)
    requires n < U64 && At(b, pos, Varint(n))
    ensures Parse(b, pos) == Ok((n, pos + |Varint(n)|))
  {
    VarintShape(b, pos, n);
    Pow128Values();
    VarintLength(n, 10);
  }

  /** Reading is injective on exactly the encodings that write_varint emits: no trailing zero
      group, and a tenth group of at most one bit. */
  lemma CanonicalExactly(b: Bytes, pos: nat)
    requires Parse(b, pos).Ok?
    ensures var (v, next) := Parse(b, pos).value;
            At(b, pos, Varint(v)) && next == pos + |Varint(v)|
            <==> (next == pos + 1 || b[next - 1] != 0) && (next == pos + 10 ==> b[next - 1] <= 1)
  {
    var (v, next) := Parse(b, pos).value;
    OneMoreGroup(b, pos, next - 1);
    LastGroupStep(b, pos, next - 1);
    if (next == pos + 1 || b[next - 1] != 0) && (next == pos + 10 ==> b[next - 1] <= 1) {
      SmallMod(Groups(b, pos, next), U64);
      Rewritten(b, pos, next);
    }
    if At(b, pos, Varint(v)) && next == pos + |Varint(v)| {
      LastByte(v);
      assert b[pos..next][next - pos - 1] == b[next - 1];
      VarintShape(b, pos, v);
    }
  }

  lemma {:induction false} LastByte(n: nat)
    ensures |Varint(n)| > 1 ==> Varint(n)[|Varint(n)| - 1] != 0
  {
    if n >= 128 {
      LastByte(n / 128);
      assert Varint(n) == [128 + n % 128] + Varint(n / 128);
    }
  }

  lemma {:induction false} Rewritten(b: Bytes, pos: nat, next: nat)
    requires pos < next <= |b| && LastGroup(b, pos) == next - 1 && b[next - 1] < 128
    requires next == pos + 1 || b[next - 1] != 0
    ensures Varint(Groups(b, pos, next)) == b[pos..next]
    decreases next - pos
  {
    if next == pos + 1 {
      assert Groups(b, next, next) == 0;
    } else {
      Rewritten(b, pos + 1, next);
      NonZero(b, pos + 1, next);
      LastGroupStep(b, pos, pos);
      var n, rest := Groups(b, pos, next), Groups(b, pos + 1, next);
      assert n / 128 == rest && n % 128 == b[pos] - 128 && Varint(n) == Continued(n);
      assert b[pos..next] == [b[pos]] + b[pos + 1..next];
    }
  }

  lemma {:induction false} NonZero(b: Bytes, i: nat, j: nat)
    requires i < j <= |b| && b[j - 1] < 128 && b[j - 1] != 0
    ensures Groups(b, i, j) > 0
    decreases j - i
  {
    if i + 1 < j {
      NonZero(b, i + 1, j);
    }
  }
}
