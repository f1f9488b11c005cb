/**
 * EggBuffer: a growing byte array written at its end and read from a position that advances. Varints and zigzag follow
 * the Protocol Buffers encoding, sections "Base 128 Varints" and "Signed Integers".
 */
module EggBuffers {
  type Byte = b: int | 0 <= b < 256

  /** The contents of a GByteArray, whose length is a `guint`. */
  type ByteArray = s: seq<Byte> | |s| < TWO_32

  const TWO_31 := 0x8000_0000
  const TWO_32 := 0x1_0000_0000
  const TWO_63 := 0x8000_0000_0000_0000
  const TWO_64 := 0x1_0000_0000_0000_0000

  /** What a read gives: a value, failure, or a write through NULL; and the bytes left unread. */
  datatype Read<T> = Got(value: T, rest: seq<Byte>) | Failed(rest: seq<Byte>) | Faulted(rest: seq<Byte>)

  // ---------------------------------------------------------------- varints

  /** Seven bits a byte, least significant first; the top bit says that more follow. */
  function Varint(i: nat): seq<Byte> {
    if i <= 0x7F then [i] else [0x80 + i % 0x80] + Varint(i / 0x80)
  }

  function Pow128(k: nat): nat { if k == 0 then 1 else 0x80 * Pow128(k - 1) }

  /** The bits of byte `k`, or of a number from there on, in their place within the word. */
  function Shifted(b: nat, k: nat, modulus: nat): nat
    requires modulus > 0
  {
    b * Pow128(k) % modulus
  }

  /**
   * The read loop, from byte `k` of the varint with the value `u` so far. The bits of a byte are shifted to the left
   * within the unsigned type, whose size is `modulus`, and joined to bits below them.
   */
  function VarintFrom(s: seq<Byte>, k: nat, u: nat, limit: nat, modulus: nat): Read<nat>
    requires modulus > 0
  {
    if s == [] || k >= limit then Failed(s)
    else
      var v := u + Shifted(s[0] % 0x80, k, modulus);
      if s[0] >= 0x80 then VarintFrom(s[1..], k + 1, v, limit, modulus) else Got(v, s[1..])
  }

  function ReadVarint32(s: seq<Byte>): Read<nat> { VarintFrom(s, 0, 0, 5, TWO_32) }
  function ReadVarint64(s: seq<Byte>): Read<nat> { VarintFrom(s, 0, 0, 10, TWO_64) }

  /** A varint takes at most `n` bytes exactly when the value has at most 7 * n bits. */
  lemma {:induction false} VarintLength(i: nat, n: nat)
    requires n >= 1
    ensures 1 <= |Varint(i)|
    ensures |Varint(i)| <= n <==> i < Pow128(n)
  {
    if i > 0x7F {
      VarintLength(i / 0x80, 1);
      if n >= 2 {
        VarintLength(i / 0x80, n - 1);
        assert Pow128(n) == 0x80 * Pow128(n - 1);
      } else {
        assert Pow128(1) == 0x80 * Pow128(0);
      }
    } else {
      Pow128Grows(1, n);
      assert Pow128(1) == 0x80 * Pow128(0);
    }
  }

  lemma {:induction false} Pow128Grows(m: nat, n: nat)
    requires m <= n
    ensures 0 < Pow128(m) <= Pow128(n)
    decreases n
  {
    if m < n {
      Pow128Grows(m, n - 1);
    } else if n > 0 {
      Pow128Grows(m - 1, n - 1);
    }
  }

  /** One byte of a varint: the low seven bits now, the rest 128 places on. */
  lemma ByteStep(i: nat, p: nat, modulus: nat)
    requires i * p < modulus
    ensures i % 0x80 * p + i / 0x80 * (0x80 * p) == i * p
    ensures 0 <= i % 0x80 * p && i / 0x80 * (0x80 * p) < modulus
    ensures i % 0x80 * p % modulus == i % 0x80 * p
  {
    var q, r := i / 0x80, i % 0x80;
    assert i == 0x80 * q + r;
    assert i * p == r * p + q * (0x80 * p);
    assert r * p >= 0 && q * (0x80 * p) >= 0;
    SmallMod(r * p, modulus);
  }

  lemma SmallMod(x: nat, m: nat)
    requires x < m
    ensures x % m == x
  {
  }

  lemma {:induction false} VarintReadBack(i: nat, tail: seq<Byte>, k: nat, u: nat, limit: nat, modulus: nat)
    requires k + |Varint(i)| <= limit && i * Pow128(k) < modulus
    ensures VarintFrom(Varint(i) + tail, k, u, limit, modulus) == Got(u + i * Pow128(k), tail)
    decreases i
  {
    var s := Varint(i) + tail;
    var p := Pow128(k);
    ByteStep(i, p, modulus);
    VarintLength(i, 1);
    if i > 0x7F {
      assert s[0] == 0x80 + i % 0x80 && s[1..] == Varint(i / 0x80) + tail;
      assert s[0] % 0x80 == i % 0x80;
      assert Pow128(k + 1) == 0x80 * p;
      VarintReadBack(i / 0x80, tail, k + 1, u + i % 0x80 * p, limit, modulus);
    } else {
      assert s[0] == i && s[1..] == tail;
      assert i % 0x80 == i;
    }
  }

  lemma Pow128Values()
    ensures Pow128(0) == 1 && Pow128(5) > TWO_32 && Pow128(10) > TWO_64
  {
    assert Pow128(1) == 0x80 && Pow128(2) == 0x4000 && Pow128(3) == 0x20_0000 && Pow128(4) == 0x1000_0000;
    assert Pow128(5) == 0x8_0000_0000;
    assert Pow128(6) == 0x80 * Pow128(5) && Pow128(7) == 0x80 * Pow128(6) && Pow128(8) == 0x80 * Pow128(7);
    assert Pow128(9) == 0x80 * Pow128(8) && Pow128(10) == 0x80 * Pow128(9);
  }

  lemma Uint32ReadBack(i: nat, tail: seq<Byte>)
    requires i < TWO_32
    ensures ReadVarint32(Varint(i) + tail) == Got(i, tail) && |Varint(i)| <= 5
  {
    hide Varint, VarintFrom, Pow128;
    Pow128Values();
    VarintLength(i, 5);
    VarintReadBack(i, tail, 0, 0, 5, TWO_32);
  }

  lemma Uint64ReadBack(i: nat, tail: seq<Byte>)
    requires i < TWO_64
    ensures ReadVarint64(Varint(i) + tail) == Got(i, tail) && |Varint(i)| <= 10
  {
    hide Varint, VarintFrom, Pow128;
    Pow128Values();
    VarintLength(i, 10);
    VarintReadBack(i, tail, 0, 0, 10, TWO_64);
  }

  /** How many bytes, from the first on, say that more follow. */
  function Continued(s: seq<Byte>): (n: nat)
    ensures n <= |s|
  {
    if s == [] || s[0] < 0x80 then 0 else 1 + Continued(s[1..])
  }

  /** The number that bytes spell by their low seven bits, least significant first. */
  function Bits(s: seq<Byte>): nat { if s == [] then 0 else s[0] % 0x80 + 0x80 * Bits(s[1..]) }

  lemma {:induction false} VarintShape(s: seq<Byte>, k: nat, u: nat, limit: nat, modulus: nat)
    requires modulus > 0 && k <= limit
    ensures var n := Continued(s);
      if n < |s| && k + n < limit
      then VarintFrom(s, k, u, limit, modulus).Got? && VarintFrom(s, k, u, limit, modulus).rest == s[n + 1..]
      else VarintFrom(s, k, u, limit, modulus) == Failed(s[if |s| <= limit - k then |s| else limit - k..])
    decreases |s|
  {
    hide Shifted;
    if s != [] && k < limit && s[0] >= 0x80 {
      VarintShape(s[1..], k + 1, u + Shifted(s[0] % 0x80, k, modulus), limit, modulus);
    }
  }

  /** Lower bits leave a remainder of higher ones alone. */
  lemma AddBelow(low: nat, a: nat, rest: nat, q: nat)
    requires low < a && q > 0
    ensures a * q > 0 && (low + a * rest) % (a * q) == low + a * rest % (a * q) && low % (a * q) == low
  {
    var d, r := rest / q, rest % q;
    ScaledMod(a, rest, q);
    BelowProduct(low, a, r, q);
    BelowProduct(low, a, 0, q);
    assert rest == q * d + r;
    Spread(a, q, d, r);
    ModInRange(low + a * rest, d, a * q);
    SmallMod(low, a * q);
  }

  lemma BelowProduct(low: nat, a: nat, r: nat, q: nat)
    requires low < a && r < q
    ensures low + a * r < a * q
  {
    MultipleBounds(q - r, a);
    Split(a, r, q - r);
  }

  lemma Split(a: nat, r: nat, m: nat)
    ensures a * (r + m) == a * r + m * a
  {
  }

  lemma Spread(a: nat, q: nat, d: nat, r: nat)
    ensures a * (q * d + r) == d * (a * q) + a * r
  {
  }

  lemma ScaledMod(a: nat, x: nat, q: nat)
    requires a > 0 && q > 0
    ensures a * q > 0 && a * x % (a * q) == a * (x % q)
  {
    var d, r := x / q, x % q;
    assert x == q * d + r;
    Spread(a, q, d, r);
    BelowProduct(0, a, r, q);
    ModInRange(a * x, d, a * q);
  }

  /** One byte that says that more follow, where `high` is the place of the next one. */
  lemma ValueStep(p: nat, high: nat, b: nat, rest: nat, q: nat, modulus: nat)
    requires p > 0 && high == 0x80 * p && b < 0x80 && q > 0 && modulus == high * q > 0
    ensures b * p % modulus + rest * high % modulus == (b + 0x80 * rest) * p % modulus
  {
    BelowProduct(0, p, b, 0x80);
    AddBelow(b * p, high, rest, q);
    Distribute(p, b, rest);
  }

  lemma Distribute(p: nat, b: nat, rest: nat)
    ensures (b + 0x80 * rest) * p == b * p + 0x80 * p * rest
  {
  }

  lemma StepAt(k: nat, limit: nat, q: nat, modulus: nat, b: nat, rest: nat)
    requires k + 1 < limit && q > 0 && modulus == Pow128(limit - 1) * q > 0 && b < 0x80
    ensures Shifted(b, k, modulus) + Shifted(rest, k + 1, modulus) == Shifted(b + 0x80 * rest, k, modulus)
  {
    var more := StepModulus(k, limit, q);
    hide Pow128;
    ValueStep(Pow128(k), Pow128(k + 1), b, rest, more, modulus);
  }

  lemma StepModulus(k: nat, limit: nat, q: nat) returns (more: nat)
    requires k + 1 < limit && q > 0
    ensures more > 0 && Pow128(limit - 1) * q == Pow128(k + 1) * more
    ensures Pow128(k) > 0 && Pow128(k + 1) == 0x80 * Pow128(k)
  {
    Pow128Grows(0, k);
    var less := Pow128Divides(k + 1, limit - 1);
    more := less * q;
    Reassociate(Pow128(k + 1), less, q);
    PositiveProduct(less, q);
  }

  lemma {:induction false} VarintValue(s: seq<Byte>, k: nat, u: nat, limit: nat, q: nat, modulus: nat)
    requires k + Continued(s) < limit && Continued(s) < |s| && q > 0 && modulus == Pow128(limit - 1) * q > 0
    ensures var n := Continued(s);
      VarintFrom(s, k, u, limit, modulus) == Got(u + Shifted(Bits(s[..n + 1]), k, modulus), s[n + 1..])
    decreases |s|
  {
    hide Pow128, Shifted;
    var n := Continued(s);
    if s[0] >= 0x80 {
      var b, rest := s[0] % 0x80, Bits(s[1..][..n]);
      assert Continued(s[1..]) == n - 1 && s[1..][n..] == s[n + 1..];
      BitsStep(s[..n + 1], s[1..][..n]);
      VarintValue(s[1..], k + 1, u + Shifted(b, k, modulus), limit, q, modulus);
      StepAt(k, limit, q, modulus, b, rest);
    } else {
      assert s[..1][1..] == [];
    }
  }

  lemma BitsStep(s: seq<Byte>, rest: seq<Byte>)
    requires s != [] && s[1..] == rest
    ensures Bits(s) == s[0] % 0x80 + 0x80 * Bits(rest)
  {
  }

  lemma Pow128Zero()
    ensures Pow128(0) == 1
  {
  }

  lemma PositiveProduct(a: nat, b: nat)
    requires a > 0 && b > 0
    ensures a * b > 0
  {
  }

  lemma Reassociate(a: nat, b: nat, c: nat)
    ensures a * b * c == a * (b * c)
  {
  }

  lemma {:induction false} Pow128Divides(m: nat, n: nat) returns (more: nat)
    requires m <= n
    ensures more > 0 && Pow128(n) == Pow128(m) * more
    decreases n
  {
    if m == n {
      more := 1;
    } else {
      var less := Pow128Divides(m, n - 1);
      more := 0x80 * less;
      assert 0x80 * (Pow128(m) * less) == Pow128(m) * more;
    }
  }

  /**
   * What is read from any bytes at all: a varint ends with the first byte below 0x80, which must be among the first
   * five or ten, and is the number spelled by the low bits, cut to 32 or 64 bits. Otherwise the read fails behind the
   * limit, or at the end if that comes first.
   */
  lemma ForeignVarint(s: seq<Byte>)
    ensures var n := Continued(s);
      && ReadVarint32(s) == (if n < |s| && n < 5 then Got(Bits(s[..n + 1]) % TWO_32, s[n + 1..])
                             else Failed(s[if |s| <= 5 then |s| else 5..]))
      && ReadVarint64(s) == (if n < |s| && n < 10 then Got(Bits(s[..n + 1]) % TWO_64, s[n + 1..])
                             else Failed(s[if |s| <= 10 then |s| else 10..]))
  {
    hide VarintFrom, Bits, Continued, Pow128;
    Pow128Limits();
    ForeignFrom(s, 5, 16, TWO_32);
    ForeignFrom(s, 10, 2, TWO_64);
  }

  lemma ForeignFrom(s: seq<Byte>, limit: nat, q: nat, modulus: nat)
    requires limit > 0 && q > 0 && modulus == Pow128(limit - 1) * q > 0
    ensures var n := Continued(s);
      VarintFrom(s, 0, 0, limit, modulus) == if n < |s| && n < limit then Got(Bits(s[..n + 1]) % modulus, s[n + 1..])
                                             else Failed(s[if |s| <= limit then |s| else limit..])
  {
    hide VarintFrom, Bits, Continued, Pow128;
    var n := Continued(s);
    VarintShape(s, 0, 0, limit, modulus);
    if n < |s| && n < limit {
      Pow128Zero();
      VarintValue(s, 0, 0, limit, q, modulus);
      assert Bits(s[..n + 1]) * 1 == Bits(s[..n + 1]);
    }
  }

  lemma Pow128Limits()
    ensures Pow128(0) == 1 && Pow128(4) * 16 == TWO_32 && Pow128(9) * 2 == TWO_64
  {
    assert Pow128(1) == 0x80 && Pow128(2) == 0x4000 && Pow128(3) == 0x20_0000 && Pow128(4) == 0x1000_0000;
    assert Pow128(5) == 0x8_0000_0000;
    assert Pow128(6) == 0x80 * Pow128(5) && Pow128(7) == 0x80 * Pow128(6) && Pow128(8) == 0x80 * Pow128(7);
  }

  // ---------------------------------------------------------------- zigzag

  /** Exclusive or with a mask that is all zeros or all ones, in a word of `size` values. */
  function XorMask(x: int, ones: bool, size: int): int { if ones then size - 1 - x else x }

  /** `(i << 1) ^ (i >> 31)`, or 63: the arithmetic shift repeats the sign bit. */
  function ZigZag(i: int, size: int): int
    requires size > 0
  {
    XorMask(2 * i % size, i < 0, size)
  }

  /** `(u >> 1) ^ -(u & 1)`, taken as a signed number. */
  function UnZigZag(u: int, size: int): int {
    var x := XorMask(u / 2, u % 2 == 1, size);
    if x >= size / 2 then x - size else x
  }

  /** The encoding is the one of the Protocol Buffers specification, fits the word, and is undone by the decoding. */
  lemma ZigZagRoundTrip(i: int, half: int)
    requires half > 0 && -half <= i < half
    ensures ZigZag(i, 2 * half) == if i >= 0 then 2 * i else -2 * i - 1
    ensures 0 <= ZigZag(i, 2 * half) < 2 * half
    ensures UnZigZag(ZigZag(i, 2 * half), 2 * half) == i
  {
    if i >= 0 {
      ModInRange(2 * i, 0, 2 * half);
    } else {
      ModInRange(2 * i, -1, 2 * half);
    }
  }

  /** Every word is the encoding of one number. */
  lemma ZigZagIsOnto(u: int, half: int)
    requires half > 0 && 0 <= u < 2 * half
    ensures -half <= UnZigZag(u, 2 * half) < half && ZigZag(UnZigZag(u, 2 * half), 2 * half) == u
  {
    var i := if u % 2 == 0 then u / 2 else -(u / 2) - 1;
    ZigZagRoundTrip(i, half);
  }

  lemma MultipleBounds(m: int, size: int)
    requires size > 0
    ensures m >= 1 ==> m * size >= size
    ensures m <= -1 ==> m * size <= -size
  {
  }

  lemma ModInRange(x: int, q: int, size: int)
    requires size > 0 && 0 <= x - q * size < size
    ensures x % size == x - q * size
  {
    var d := x / size;
    MultipleBounds(d - q, size);
    assert (d - q) * size == x - q * size - x % size;
  }

  // ---------------------------------------------------------------- tags

  /** `(field << 3) | tag` in 32 bits. */
  function TagWord(field: nat, tag: nat): nat { field * 8 % TWO_32 + tag }

  predicate IsTag(tag: nat) { tag == 0 || tag == 1 || tag == 2 || tag == 5 }

  /** A tag survives exactly when its field number has at most 29 bits. */
  lemma TagExact(field: nat, tag: nat)
    requires field < TWO_32 && IsTag(tag)
    ensures TagWord(field, tag) < TWO_32
    ensures TagWord(field, tag) / 8 == field && TagWord(field, tag) % 8 == tag <==> field < 0x2000_0000
  {
    var low := field % 0x2000_0000;
    assert field * 8 % TWO_32 == low * 8;
  }

  // ---------------------------------------------------------------- typed values

  datatype Kind = KUint | KInt | KUint64 | KInt64 | KBoolean | KTag | KString | KData | KDouble | KFloat

  /** A value handed to one of the writers, or returned by the reader of its kind. */
  datatype Item =
    | Number(kind: Kind, value: int)
    | Tag(field: nat, tag: nat)
    | Blob(kind: Kind, bytes: seq<Byte>)

  function KindOf(item: Item): Kind { if item.Tag? then KTag else item.kind }

  /** The values the C types can hold; strings have no NUL, and `egg_buffer_write_data` asks for a length below 2^32. */
  predicate WellTyped(item: Item) {
    match item
    case Tag(field, tag) => field < TWO_32 && IsTag(tag)
    case Number(KUint, v) => 0 <= v < TWO_32
    case Number(KInt, v) => -TWO_31 <= v < TWO_31
    case Number(KUint64, v) => 0 <= v < TWO_64
    case Number(KInt64, v) => -TWO_63 <= v < TWO_63
    case Number(KBoolean, v) => 0 <= v <= 1
    case Blob(KString, b) => 0 !in b
    case Blob(KData, b) => |b| < TWO_32
    case Blob(KDouble, b) => |b| == 8
    case Blob(KFloat, b) => |b| == 4
    case _ => false
  }

  /** A length passed as a `guint`: the bytes appended are cut like it. */
  function Cut(s: seq<Byte>): (c: seq<Byte>)
    ensures |c| < TWO_32 && (c == s <==> |s| < TWO_32)
  {
    s[..|s| % TWO_32]
  }

  /** `egg_buffer_write_string`: length and bytes both go through a `guint`. */
  function StringBytes(s: seq<Byte>): seq<Byte> { Varint(|Cut(s)|) + Cut(s) }

  /** `egg_buffer_write_data`: nothing at all is written when the length does not fit. */
  function DataBytes(s: seq<Byte>): seq<Byte> { if |s| < TWO_32 then Varint(|s|) + s else [] }

  function Encode(item: Item): seq<Byte>
    requires WellTyped(item)
  {
    match item
    case Tag(field, tag) => Varint(TagWord(field, tag))
    case Number(kind, v) =>
      if kind == KInt then (ZigZagRoundTrip(v, TWO_31); Varint(ZigZag(v, TWO_32)))
      else if kind == KInt64 then (ZigZagRoundTrip(v, TWO_63); Varint(ZigZag(v, TWO_64)))
      else if kind == KBoolean then [v]
      else Varint(v)
    case Blob(KString, b) => StringBytes(b)
    case Blob(KData, b) => DataBytes(b)
    case Blob(_, b) => b
  }

  function ReadTag(s: seq<Byte>): Read<Item> {
    var r := ReadVarint32(s);
    if !r.Got? then Failed(r.rest) else Got(Tag(r.value / 8, r.value % 8), r.rest)
  }

  /** `egg_buffer_read_string`: a length, consumed in any case, and that many bytes if there are so many. */
  function ReadBlob(s: seq<Byte>): Read<seq<Byte>> {
    var r := ReadVarint32(s);
    if !r.Got? then Failed(r.rest)
    else if r.value <= |r.rest| then Got(r.rest[..r.value], r.rest[r.value..])
    else Failed(r.rest)
  }

  /**
   * `egg_buffer_read_data`: it ends the bytes with a zero like a string, but makes no room for it. An allocation of no
   * bytes is NULL, and so an empty blob makes it write there.
   */
  function ReadData(s: seq<Byte>): Read<seq<Byte>> {
    var r := ReadBlob(s);
    if r.Got? && r.value == [] then Faulted(r.rest) else r
  }

  function ReadFixed(s: seq<Byte>, n: nat): Read<seq<Byte>> {
    if n <= |s| then Got(s[..n], s[n..]) else Failed(s)
  }

  /**
   * What the other reads make of any bytes: a blob is a varint and as many bytes as it says, a tag is a varint of field
   * and type. What is read and what is left make up the input.
   */
  lemma ForeignBlob(s: seq<Byte>)
    ensures var n := Continued(s) + 1; var b := ReadBlob(s); var t := ReadTag(s);
      if n > |s| || n > 5 then b == Failed(s[if |s| <= 5 then |s| else 5..]) && t == Failed(b.rest)
      else
        var u := Bits(s[..n]) % TWO_32;
        && t == Got(Tag(u / 8, u % 8), s[n..])
        && (if n + u > |s| then b == Failed(s[n..])
            else b.Got? && |b.value| == u && s == s[..n] + b.value + b.rest)
  {
    hide Bits, VarintFrom;
    ForeignVarint(s);
  }

  lemma ForeignFixed(s: seq<Byte>, n: nat)
    ensures var r := ReadFixed(s, n);
      if n > |s| then r == Failed(s) else r.Got? && |r.value| == n && s == r.value + r.rest
  {
  }

  function ReadNumber(kind: Kind, s: seq<Byte>): Read<int> {
    var r := if kind == KUint64 || kind == KInt64 then ReadVarint64(s) else ReadVarint32(s);
    if !r.Got? then Failed(r.rest)
    else Got(if kind == KInt then UnZigZag(r.value, TWO_32)
             else if kind == KInt64 then UnZigZag(r.value, TWO_64)
             else r.value, r.rest)
  }

  function Decode(kind: Kind, s: seq<Byte>): Read<Item> {
    match kind
    case KTag => ReadTag(s)
    case KString => BlobItem(kind, ReadBlob(s))
    case KData => BlobItem(kind, ReadData(s))
    case KDouble => BlobItem(kind, ReadFixed(s, 8))
    case KFloat => BlobItem(kind, ReadFixed(s, 4))
    case _ =>
      var r := ReadNumber(kind, s);
      if !r.Got? then Failed(r.rest) else Got(Number(kind, r.value), r.rest)
  }

  function BlobItem(kind: Kind, r: Read<seq<Byte>>): Read<Item> {
    if r.Failed? then Failed(r.rest) else if r.Faulted? then Faulted(r.rest) else Got(Blob(kind, r.value), r.rest)
  }

  lemma BlobReadBack(b: seq<Byte>, tail: seq<Byte>)
    requires |b| < TWO_32
    ensures ReadBlob(Varint(|b|) + b + tail) == Got(b, tail)
  {
    hide Varint, ReadVarint32;
    Uint32ReadBack(|b|, b + tail);
    Regroup(Varint(|b|), b, tail);
  }

  lemma Regroup(a: seq<Byte>, b: seq<Byte>, tail: seq<Byte>)
    ensures a + b + tail == a + (b + tail)
    ensures (b + tail)[..|b|] == b && (b + tail)[|b|..] == tail
  {
  }

  lemma NumberReadBack(kind: Kind, v: int, tail: seq<Byte>)
    requires WellTyped(Number(kind, v))
    ensures ReadNumber(kind, Encode(Number(kind, v)) + tail) == Got(v, tail)
  {
    hide Varint, VarintFrom, Pow128, ZigZag, UnZigZag, ReadVarint32, ReadVarint64;
    match kind {
      case KInt =>
        ZigZagRoundTrip(v, TWO_31);
        Uint32ReadBack(ZigZag(v, TWO_32), tail);
      case KInt64 =>
        ZigZagRoundTrip(v, TWO_63);
        Uint64ReadBack(ZigZag(v, TWO_64), tail);
      case KUint64 =>
        Uint64ReadBack(v, tail);
      case KUint =>
        Uint32ReadBack(v, tail);
      case KBoolean =>
        SmallVarint(v);
        Uint32ReadBack(v, tail);
      case _ =>
    }
  }

  lemma SmallVarint(v: nat)
    requires v <= 0x7F
    ensures Varint(v) == [v]
  {
  }

  predicate EmptyData(item: Item) { item == Blob(KData, []) }

  /** A field number has 29 bits, a string's length 32, and data must not be empty. */
  predicate FitsEncoding(item: Item) {
    && (item.Tag? ==> item.field < 0x2000_0000)
    && (item.Blob? && item.kind == KString ==> |item.bytes| < TWO_32)
    && !EmptyData(item)
  }

  /**
   * Every typed value reads back, whatever follows it, if and only if it fits its encoding. The reads end where the
   * writes did in any case, and fault if and only if the value is empty data.
   */
  lemma ItemReadBack(item: Item, tail: seq<Byte>)
    requires WellTyped(item)
    ensures Decode(KindOf(item), Encode(item) + tail) == Got(item, tail) <==> FitsEncoding(item)
    ensures Decode(KindOf(item), Encode(item) + tail).rest == tail
    ensures var r := Decode(KindOf(item), Encode(item) + tail); if EmptyData(item) then r.Faulted? else r.Got?
  {
    hide Varint, VarintFrom, Pow128, TagWord, ReadBlob, ReadNumber, ReadVarint32;
    if item.Tag? {
      TagExact(item.field, item.tag);
      Uint32ReadBack(TagWord(item.field, item.tag), tail);
    } else if item.Number? {
      NumberReadBack(item.kind, item.value, tail);
    } else {
      var b := item.bytes;
      assert (b + tail)[..|b|] == b && (b + tail)[|b|..] == tail;
      if item.kind == KString {
        BlobReadBack(Cut(b), tail);
      } else if item.kind == KData {
        BlobReadBack(b, tail);
      }
    }
  }

  // ---------------------------------------------------------------- sequences of values

  function EncodeAll(items: seq<Item>): seq<Byte>
    requires forall i | i in items :: WellTyped(i)
  {
    if items == [] then [] else Encode(items[0]) + EncodeAll(items[1..])
  }

  function Kinds(items: seq<Item>): seq<Kind> {
    if items == [] then [] else [KindOf(items[0])] + Kinds(items[1..])
  }

  function DecodeAll(kinds: seq<Kind>, s: seq<Byte>): Read<seq<Item>> {
    if kinds == [] then Got([], s)
    else
      var r := Decode(kinds[0], s);
      if r.Failed? then Failed(r.rest)
      else if r.Faulted? then Faulted(r.rest)
      else
        var more := DecodeAll(kinds[1..], r.rest);
        if !more.Got? then more else Got([r.value] + more.value, more.rest)
  }

  /**
   * Any sequence of writes is read back by the same sequence of reads, which ends where the writes ended, if and only
   * if every value fits its encoding.
   */
  lemma {:induction false} SequenceReadBack(items: seq<Item>, tail: seq<Byte>)
    requires forall i | i in items :: WellTyped(i)
    ensures DecodeAll(Kinds(items), EncodeAll(items) + tail) == Got(items, tail)
       <==> forall i | i in items :: FitsEncoding(i)
  {
    hide Decode, Encode, WellTyped, FitsEncoding;
    if items == [] {
      assert EncodeAll(items) + tail == tail;
    } else {
      var more := EncodeAll(items[1..]) + tail;
      SequenceReadBack(items[1..], tail);
      ItemReadBack(items[0], more);
      assert EncodeAll(items) + tail == Encode(items[0]) + more;
      assert Kinds(items)[1..] == Kinds(items[1..]);
      assert items == [items[0]] + items[1..];
      var r := DecodeAll(Kinds(items[1..]), more);
      var all := DecodeAll(Kinds(items), EncodeAll(items) + tail);
      if all == Got(items, tail) {
        assert all.value[0] == items[0] && all.value[1..] == items[1..];
        assert r.Got? && all.value[1..] == r.value;
      }
    }
  }

  /** Reading back a single empty blob faults. */
  lemma EmptyDataFaults(tail: seq<Byte>)
    ensures DecodeAll([KData], EncodeAll([Blob(KData, [])]) + tail) == Faulted(tail)
  {
    var item := Blob(KData, []);
    ItemReadBack(item, tail);
    assert EncodeAll([item]) == Encode(item) + EncodeAll([item][1..]) == Encode(item);
  }

  // ---------------------------------------------------------------- the buffer object

  class EggBuffer {
    var ar: seq<Byte>
    var pos: nat

    predicate Valid()
      reads this
    {
      pos <= |ar|
    }

    /** The bytes not yet read. */
    function Unread(): seq<Byte>
      requires Valid()
      reads this
    {
      ar[pos..]
    }

    constructor ()
      ensures Valid() && ar == [] && pos == 0
    {
      ar, pos := [], 0;
    }

    constructor FromData(data: seq<Byte>)
      ensures Valid() && ar == Cut(data) && pos == 0
    {
      ar, pos := Cut(data), 0;
    }

    /** `egg_buffer_write_uint` and `egg_buffer_write_uint64`: the same loop at two widths. */
    method WriteVarint(value: nat)
      requires Valid()
      modifies this`ar
      ensures Valid() && ar == old(ar) + Varint(value)
    {
      var i := value;
      var more := true;
      while more
        invariant old(ar) <= ar
        invariant more ==> ar + Varint(i) == old(ar) + Varint(value)
        invariant !more ==> i == 0 && ar == old(ar) + Varint(value)
        decreases more, i
      {
        var b := (if i > 0x7F then 0x80 else 0) + i % 0x80;
        assert i > 0x7F ==> ar + [b] + Varint(i / 0x80) == ar + Varint(i);
        ar := ar + [b];
        i := i / 0x80;
        more := i > 0;
      }
    }

    /** `egg_buffer_read_uint` and `egg_buffer_read_uint64`. */
    method ReadVarint(limit: nat, modulus: nat) returns (ok: bool, value: nat)
      requires Valid() && modulus > 0
      modifies this`pos
      ensures Valid()
      ensures var r := VarintFrom(old(Unread()), 0, 0, limit, modulus);
        ok == r.Got? && (ok ==> value == r.value) && Unread() == r.rest
    {
      var u: nat, k: nat, p: nat := 0, 0, 1;
      var b: Byte := 0x80;
      while b >= 0x80
        invariant Valid() && p == Pow128(k)
        invariant b >= 0x80 ==>
          VarintFrom(old(Unread()), 0, 0, limit, modulus) == VarintFrom(Unread(), k, u, limit, modulus)
        invariant b < 0x80 ==> VarintFrom(old(Unread()), 0, 0, limit, modulus) == Got(u, Unread())
        decreases b >= 0x80, |ar| - pos
      {
        if pos >= |ar| || k >= limit {
          return false, 0;
        }
        b := ar[pos];
        assert ar[pos..][0] == b && ar[pos..][1..] == ar[pos + 1..];
        pos := pos + 1;
        u := u + b % 0x80 * p % modulus;
        k, p := k + 1, 0x80 * p;
      }
      return true, u;
    }

    method WriteInt(i: int)
      requires Valid() && -TWO_31 <= i < TWO_31
      modifies this`ar
      ensures Valid() && ar == old(ar) + Encode(Number(KInt, i))
    {
      ZigZagRoundTrip(i, TWO_31);
      WriteVarint(ZigZag(i, TWO_32));
    }

    method WriteInt64(i: int)
      requires Valid() && -TWO_63 <= i < TWO_63
      modifies this`ar
      ensures Valid() && ar == old(ar) + Encode(Number(KInt64, i))
    {
      ZigZagRoundTrip(i, TWO_63);
      WriteVarint(ZigZag(i, TWO_64));
    }

    /** One byte; any true value is written as 1. */
    method WriteBoolean(b: int)
      requires Valid()
      modifies this`ar
      ensures Valid() && ar == old(ar) + Encode(Number(KBoolean, if b != 0 then 1 else 0))
    {
      ar := ar + [if b != 0 then 1 else 0];
    }

    method WriteTag(field: nat, tag: nat)
      requires Valid() && field < TWO_32 && IsTag(tag)
      modifies this`ar
      ensures Valid() && ar == old(ar) + Encode(Tag(field, tag))
    {
      WriteVarint(TagWord(field, tag));
    }

    method WriteString(s: seq<Byte>)
      requires Valid()
      modifies this`ar
      ensures Valid() && ar == old(ar) + StringBytes(s)
    {
      WriteVarint(|s| % TWO_32);
      ar := ar + s[..|s| % TWO_32];
    }

    method WriteData(data: seq<Byte>)
      requires Valid()
      modifies this`ar
      ensures Valid() && ar == old(ar) + DataBytes(data)
    {
      if |data| < TWO_32 {
        WriteVarint(|data|);
        ar := ar + data;
      }
    }

    /** `egg_buffer_write_double` and `_float` on a little-endian host: the bytes of the value, 8 or 4. */
    method WriteFixed(bytes: seq<Byte>)
      requires Valid() && (|bytes| == 8 || |bytes| == 4)
      modifies this`ar
      ensures Valid() && ar == old(ar) + Encode(Blob(if |bytes| == 8 then KDouble else KFloat, bytes))
    {
      ar := ar + bytes;
    }

    method ReadNumberAs(kind: Kind) returns (ok: bool, value: int)
      requires Valid()
      modifies this`pos
      ensures Valid()
      ensures var r := ReadNumber(kind, old(Unread()));
        ok == r.Got? && (ok ==> value == r.value) && Unread() == r.rest
    {
      var wide := kind == KUint64 || kind == KInt64;
      var good, u := ReadVarint(if wide then 10 else 5, if wide then TWO_64 else TWO_32);
      if !good {
        return false, 0;
      }
      value := if kind == KInt then UnZigZag(u, TWO_32) else if kind == KInt64 then UnZigZag(u, TWO_64) else u;
      ok := true;
    }

    method ReadTagItem() returns (ok: bool, field: nat, tag: nat)
      requires Valid()
      modifies this`pos
      ensures Valid()
      ensures var r := ReadTag(old(Unread()));
        ok == r.Got? && (ok ==> r.value == Tag(field, tag)) && Unread() == r.rest
    {
      var good, u := ReadVarint(5, TWO_32);
      return good, u / 8, u % 8;
    }

    method ReadString() returns (ok: bool, bytes: seq<Byte>)
      requires Valid()
      modifies this`pos
      ensures Valid()
      ensures var r := ReadBlob(old(Unread()));
        ok == r.Got? && (ok ==> bytes == r.value) && Unread() == r.rest
    {
      var good, n := ReadVarint(5, TWO_32);
      if good && pos + n <= |ar| {
        bytes := ar[pos..pos + n];
        assert bytes == Unread()[..n] && ar[pos + n..] == Unread()[n..];
        pos := pos + n;
        return true, bytes;
      }
      return false, [];
    }

    /** With no bytes the block allocated is NULL, and ending it with a zero is a fault. */
    method ReadDataBytes() returns (ok: bool, bytes: seq<Byte>, fault: bool)
      requires Valid()
      modifies this`pos
      ensures Valid()
      ensures var r := ReadData(old(Unread()));
        fault == r.Faulted? && ok == r.Got? && (ok ==> bytes == r.value) && Unread() == r.rest
    {
      var good, n := ReadVarint(5, TWO_32);
      if good && pos + n <= |ar| {
        if n == 0 {
          assert Unread()[..0] == [] && Unread()[0..] == Unread();
          return false, [], true;
        }
        bytes := ar[pos..pos + n];
        assert bytes == Unread()[..n] && ar[pos + n..] == Unread()[n..];
        pos := pos + n;
        return true, bytes, false;
      }
      return false, [], false;
    }

    /** `egg_buffer_read_double` and `_float`. */
    method ReadFixedBytes(n: nat) returns (ok: bool, bytes: seq<Byte>)
      requires Valid()
      modifies this`pos
      ensures Valid()
      ensures var r := ReadFixed(old(Unread()), n);
        ok == r.Got? && (ok ==> bytes == r.value) && Unread() == r.rest
    {
      if pos + n <= |ar| {
        bytes := ar[pos..pos + n];
        assert bytes == Unread()[..n] && ar[pos + n..] == Unread()[n..];
        pos := pos + n;
        return true, bytes;
      }
      return false, [];
    }
  }
}
