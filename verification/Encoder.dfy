/**
 * PkaEncoder: manifests and samples as nested EggBuffer messages. The readers below are the compositions of the
 * EggBuffer reads that undo them.
 */
module Encoders {
  import opened EggBuffers
  import opened Options
  import T = Timespecs

  // Tags: variable-length numbers, and length-prefixed bytes.
  const VARINT_TAG := 0
  const BYTES_TAG := 2

  datatype Resolution = Usec | Msec | Second | Minute | Hour

  function ResolutionCode(r: Resolution): nat {
    match r case Usec => 0 case Msec => 1 case Second => 2 case Minute => 3 case Hour => 4
  }

  /** Microseconds in one unit of a resolution. */
  function UnitOf(r: Resolution): nat {
    match r case Usec => 1 case Msec => 1000 case Second => 1000000 case Minute => 60000000 case Hour => 3600000000
  }

  /** `pka_resolution_apply`. */
  function ResolutionApply(r: Resolution, ts: T.Timespec): nat {
    var usec := T.ToUsec(ts);
    match r
    case Usec => usec
    case Msec => usec / 1000
    case Second => usec / T.USEC_PER_SEC
    case Minute => usec / (60 * T.USEC_PER_SEC)
    case Hour => usec / (3600 * T.USEC_PER_SEC)
  }

  /** A row's type is one of the nine GLib fundamental types that `pka_manifest_append` lets through. */
  datatype Row = Row(name: seq<Byte>, rowType: nat)

  datatype Manifest = Manifest(ts: T.Timespec, resolution: Resolution, sourceId: int, rows: seq<Row>)

  /** The data of a sample is what a GByteArray holds. */
  datatype Sample = Sample(ts: T.Timespec, sourceId: int, data: ByteArray)

  predicate ValidRow(r: Row) {
    r.rowType in {12, 20, 24, 28, 32, 36, 56, 60, 64} && 0 !in r.name
  }

  predicate ValidManifest(m: Manifest) {
    T.Normal(m.ts) && -TWO_31 <= m.sourceId < TWO_31 && |m.rows| < TWO_31 && forall r | r in m.rows :: ValidRow(r)
  }

  /** A `gint` passed where a `guint` is expected. */
  function AsUint(i: int): nat { i % TWO_32 }

  /** A number under a tag, and bytes under a tag. */
  function NumberField(field: nat, value: nat): seq<Byte> { Varint(TagWord(field, VARINT_TAG)) + Varint(value) }

  function BytesField(field: nat, blob: seq<Byte>): seq<Byte> { Varint(TagWord(field, BYTES_TAG)) + blob }

  method WriteNumberField(buf: EggBuffer, field: nat, value: nat)
    requires buf.Valid() && field < 8
    modifies buf`ar
    ensures buf.Valid() && buf.ar == old(buf.ar) + NumberField(field, value)
  {
    hide Varint, TagWord;
    buf.WriteTag(field, VARINT_TAG);
    buf.WriteVarint(value);
  }

  method WriteDataField(buf: EggBuffer, field: nat, data: seq<Byte>)
    requires buf.Valid() && field < 8
    modifies buf`ar
    ensures buf.Valid() && buf.ar == old(buf.ar) + BytesField(field, DataBytes(data))
  {
    hide Varint, TagWord, DataBytes;
    buf.WriteTag(field, BYTES_TAG);
    buf.WriteData(data);
  }

  // ---------------------------------------------------------------- manifests

  /** One row as a message of its own. */
  function RowBytes(id: nat, r: Row): seq<Byte> {
    NumberField(1, id) + (NumberField(2, r.rowType) + BytesField(3, StringBytes(r.name)))
  }

  /** The rows from `i` on, each embedded as a blob; the identifiers count from 1. */
  function RowsBytes(rows: seq<Row>, i: nat): seq<Byte>
    decreases |rows| - i
  {
    if i >= |rows| then [] else DataBytes(RowBytes(i + 1, rows[i])) + RowsBytes(rows, i + 1)
  }

  function ManifestBytes(m: Manifest): seq<Byte> {
    NumberField(1, T.ToUsec(m.ts))
    + (NumberField(2, ResolutionCode(m.resolution))
       + (NumberField(3, AsUint(m.sourceId))
          + BytesField(4, DataBytes(RowsBytes(m.rows, 0)))))
  }

  lemma Joined(a: seq<Byte>, b: seq<Byte>, c: seq<Byte>, d: seq<Byte>)
    ensures [] + a + b + c + d == a + (b + (c + d))
    ensures [] + a + b + c == a + (b + c)
  {
  }

  /** `pka_encoder_real_encode_manifest`, with a buffer for each row and one for all rows. */
  method EncodeManifest(m: Manifest) returns (data: seq<Byte>)
    ensures data == ManifestBytes(m)
  {
    hide NumberField, BytesField, DataBytes, RowsBytes;
    var buf := new EggBuffer();
    WriteNumberField(buf, 1, T.ToUsec(m.ts));
    WriteNumberField(buf, 2, ResolutionCode(m.resolution));
    WriteNumberField(buf, 3, AsUint(m.sourceId));
    var rows := EncodeRows(m.rows);
    WriteDataField(buf, 4, rows);
    Joined(NumberField(1, T.ToUsec(m.ts)), NumberField(2, ResolutionCode(m.resolution)),
           NumberField(3, AsUint(m.sourceId)), BytesField(4, DataBytes(rows)));
    return buf.ar;
  }

  /** The loop over the rows. */
  method EncodeRows(rows: seq<Row>) returns (data: seq<Byte>)
    ensures data == RowsBytes(rows, 0)
  {
    hide RowBytes, DataBytes;
    var ebuf := new EggBuffer();
    var i := 0;
    while i < |rows|
      invariant 0 <= i <= |rows| && ebuf.Valid() && fresh(ebuf)
      invariant ebuf.ar + RowsBytes(rows, i) == RowsBytes(rows, 0)
    {
      var row := EncodeRow(i + 1, rows[i]);
      ghost var before := ebuf.ar;
      ebuf.WriteData(row);
      assert ebuf.ar + RowsBytes(rows, i + 1) == before + RowsBytes(rows, i);
      i := i + 1;
    }
    return ebuf.ar;
  }

  method EncodeRow(id: nat, r: Row) returns (data: seq<Byte>)
    ensures data == RowBytes(id, r)
  {
    hide NumberField, Varint, TagWord, StringBytes;
    var mbuf := new EggBuffer();
    WriteNumberField(mbuf, 1, id);
    WriteNumberField(mbuf, 2, r.rowType);
    mbuf.WriteTag(3, BYTES_TAG);
    mbuf.WriteString(r.name);
    Joined(NumberField(1, id), NumberField(2, r.rowType), Varint(TagWord(3, BYTES_TAG)), StringBytes(r.name));
    return mbuf.ar;
  }

  // ---------------------------------------------------------------- samples

  /** Time since the manifest, in the manifest's resolution. */
  function RelativeTime(m: Manifest, s: Sample): nat {
    ResolutionApply(m.resolution, T.Subtract(s.ts, m.ts))
  }

  function SampleBytes(m: Manifest, s: Sample): seq<Byte> {
    NumberField(1, AsUint(s.sourceId))
    + (NumberField(2, RelativeTime(m, s))
       + BytesField(3, DataBytes(s.data)))
  }

  function SamplesBytes(m: Manifest, samples: seq<Sample>, i: nat): seq<Byte>
    decreases |samples| - i
  {
    if i >= |samples| then [] else SampleBytes(m, samples[i]) + SamplesBytes(m, samples, i + 1)
  }

  /** `pka_encoder_real_encode_samples`. */
  method EncodeSamples(m: Manifest, samples: seq<Sample>) returns (data: seq<Byte>)
    ensures data == SamplesBytes(m, samples, 0)
  {
    hide NumberField, BytesField, DataBytes, RelativeTime;
    var buf := new EggBuffer();
    var i := 0;
    while i < |samples|
      invariant 0 <= i <= |samples| && buf.Valid() && fresh(buf)
      invariant buf.ar + SamplesBytes(m, samples, i) == SamplesBytes(m, samples, 0)
    {
      ghost var before := buf.ar;
      WriteNumberField(buf, 1, AsUint(samples[i].sourceId));
      WriteNumberField(buf, 2, RelativeTime(m, samples[i]));
      WriteDataField(buf, 3, samples[i].data);
      assert buf.ar == before + SampleBytes(m, samples[i]);
      assert buf.ar + SamplesBytes(m, samples, i + 1) == before + SamplesBytes(m, samples, i);
      i := i + 1;
    }
    return buf.ar;
  }

  // ---------------------------------------------------------------- reading back

  /** A tag and a number: the tag must be the expected one. */
  function ReadNumberField(field: nat, kind: Kind, s: seq<Byte>): Read<int> {
    var t := ReadTag(s);
    if !t.Got? || t.value != Tag(field, VARINT_TAG) then Failed(t.rest) else ReadNumber(kind, t.rest)
  }

  /**
   * A tag, a length and so many bytes: a string read by `egg_buffer_read_string`, or the data section of a sample, of
   * which pk_sample reads the length by `egg_buffer_read_uint` and the bytes where they lie.
   */
  function ReadBytesField(field: nat, s: seq<Byte>): Read<seq<Byte>> {
    var t := ReadTag(s);
    if !t.Got? || t.value != Tag(field, BYTES_TAG) then Failed(t.rest) else ReadBlob(t.rest)
  }

  lemma TagReadBack(field: nat, tag: nat, tail: seq<Byte>)
    requires field < 8 && IsTag(tag)
    ensures ReadTag(Varint(TagWord(field, tag)) + tail) == Got(Tag(field, tag), tail)
  {
    hide Varint, ReadVarint32, TagWord;
    TagExact(field, tag);
    Uint32ReadBack(TagWord(field, tag), tail);
  }

  lemma NumberFieldReadBack(field: nat, kind: Kind, value: nat, tail: seq<Byte>)
    requires field < 8 && (kind == KUint || kind == KUint64) && value < (if kind == KUint then TWO_32 else TWO_64)
    ensures ReadNumberField(field, kind, NumberField(field, value) + tail) == Got(value, tail)
  {
    hide Varint, ReadVarint32, ReadVarint64, TagWord, ReadTag, ReadNumber;
    var t := Varint(TagWord(field, VARINT_TAG));
    assert NumberField(field, value) + tail == t + (Varint(value) + tail);
    TagReadBack(field, VARINT_TAG, Varint(value) + tail);
    NumberReadBack(kind, value, tail);
  }

  lemma BytesFieldReadBack(field: nat, b: seq<Byte>, tail: seq<Byte>)
    requires field < 8 && |b| < TWO_32
    ensures ReadBytesField(field, BytesField(field, Varint(|b|) + b) + tail) == Got(b, tail)
  {
    hide Varint, TagWord, ReadTag, ReadBlob;
    var blob := Varint(|b|) + b;
    assert BytesField(field, blob) + tail == Varint(TagWord(field, BYTES_TAG)) + (blob + tail);
    TagReadBack(field, BYTES_TAG, blob + tail);
    BlobReadBack(b, tail);
  }

  datatype DecodedRow = DecodedRow(id: int, rowType: int, name: seq<Byte>)

  datatype Decoded = Decoded(usec: int, resolution: int, sourceId: int, rows: seq<DecodedRow>)

  /** A `guint` stored into a `gint`. */
  function AsGint(u: int): int { if u >= TWO_31 then u - TWO_32 else u }

  /** A row in the client: a length that is not used, and the fields. */
  function ReadRow(s: seq<Byte>): Read<DecodedRow> {
    var length := ReadVarint32(s);
    var id := ReadNumberField(1, KUint, length.rest);
    var rowType := ReadNumberField(2, KUint, id.rest);
    var name := ReadBytesField(3, rowType.rest);
    if !length.Got? || !id.Got? || !rowType.Got? || !name.Got? then Failed(name.rest)
    else Got(DecodedRow(AsGint(id.value), rowType.value, name.value), name.rest)
  }

  /** Appending a row and sorting by identifier again. */
  function InsertRow(rows: seq<DecodedRow>, row: DecodedRow): seq<DecodedRow> {
    if rows == [] || rows[|rows| - 1].id <= row.id then rows + [row]
    else InsertRow(rows[..|rows| - 1], row) + [rows[|rows| - 1]]
  }

  /** The client's loop over the rows, `left` bytes before their end. */
  function ReadRows(s: seq<Byte>, left: int, rows: seq<DecodedRow>): Read<seq<DecodedRow>>
    decreases |s|
  {
    if left <= 0 then Got(rows, s)
    else
      var row := ReadRow(s);
      if !row.Got? then Failed(row.rest)
      else
        RowConsumes(s);
        ReadRows(row.rest, left - (|s| - |row.rest|), InsertRow(rows, row.value))
  }

  /** All rows were sent. */
  predicate AllSent(rows: seq<DecodedRow>) { forall i | 0 <= i < |rows| :: rows[i].id == i + 1 }

  /** The last of the client's own numbers for resolutions. */
  const PK_RESOLUTION_HOUR := 4

  /** The client's `decode` of a manifest. */
  function ReadManifest(s: seq<Byte>): Read<Decoded> {
    var usec := ReadNumberField(1, KUint64, s);
    var resolution := ReadNumberField(2, KUint, usec.rest);
    var sourceId := ReadNumberField(3, KUint, resolution.rest);
    var columns := ReadTag(sourceId.rest);
    var length := ReadVarint32(columns.rest);
    if !usec.Got? || !resolution.Got? || resolution.value > PK_RESOLUTION_HOUR || !sourceId.Got?
       || !columns.Got? || columns.value != Tag(4, BYTES_TAG) || !length.Got? then Failed(length.rest)
    else
      var rows := ReadRows(length.rest, length.value, []);
      if !rows.Got? || !AllSent(rows.value) then Failed(rows.rest)
      else Got(Decoded(usec.value, resolution.value, AsGint(sourceId.value), rows.value), rows.rest)
  }

  lemma {:induction false} VarintConsumes(s: seq<Byte>, k: nat, u: nat, limit: nat, modulus: nat)
    requires modulus > 0
    ensures var r := VarintFrom(s, k, u, limit, modulus); |r.rest| <= |s| && (r.Got? ==> |r.rest| < |s|)
    decreases |s|
  {
    if s != [] && k < limit && s[0] >= 0x80 {
      VarintConsumes(s[1..], k + 1, u + Shifted(s[0] % 0x80, k, modulus), limit, modulus);
    }
  }

  lemma TagConsumes(s: seq<Byte>)
    ensures |ReadTag(s).rest| <= |s|
  {
    hide VarintFrom;
    VarintConsumes(s, 0, 0, 5, TWO_32);
  }

  lemma NumberFieldConsumes(field: nat, kind: Kind, s: seq<Byte>)
    ensures |ReadNumberField(field, kind, s).rest| <= |s|
  {
    hide VarintFrom, ReadTag;
    TagConsumes(s);
    VarintConsumes(ReadTag(s).rest, 0, 0, 5, TWO_32);
    VarintConsumes(ReadTag(s).rest, 0, 0, 10, TWO_64);
  }

  lemma BytesFieldConsumes(field: nat, s: seq<Byte>)
    ensures |ReadBytesField(field, s).rest| <= |s|
  {
    hide VarintFrom, ReadTag;
    TagConsumes(s);
    VarintConsumes(ReadTag(s).rest, 0, 0, 5, TWO_32);
  }

  lemma RowConsumes(s: seq<Byte>)
    ensures ReadRow(s).Got? ==> |ReadRow(s).rest| < |s|
  {
    hide ReadNumberField, ReadBytesField, VarintFrom;
    VarintConsumes(s, 0, 0, 5, TWO_32);
    var length := ReadVarint32(s);
    var id := ReadNumberField(1, KUint, length.rest);
    var rowType := ReadNumberField(2, KUint, id.rest);
    NumberFieldConsumes(1, KUint, length.rest);
    NumberFieldConsumes(2, KUint, id.rest);
    BytesFieldConsumes(3, rowType.rest);
  }

  // ---------------------------------------------------------------- what comes back

  /** The message of row `i` fits a GByteArray, as any that the encoder has built does. */
  predicate RowFits(rows: seq<Row>, i: nat)
    requires i < |rows|
  {
    |RowBytes(i + 1, rows[i])| < TWO_32
  }

  /** Rows `i` on, numbered from 1, with their names as they are. */
  function Numbered(rows: seq<Row>, i: nat): seq<DecodedRow>
    decreases |rows| - i
  {
    if i >= |rows| then [] else [DecodedRow(i + 1, rows[i].rowType, rows[i].name)] + Numbered(rows, i + 1)
  }

  /** The same with the names cut to a 32-bit length. */
  function CutRows(rows: seq<Row>, i: nat): seq<DecodedRow>
    decreases |rows| - i
  {
    if i >= |rows| then [] else [DecodedRow(i + 1, rows[i].rowType, Cut(rows[i].name))] + CutRows(rows, i + 1)
  }

  /** Those of the latter whose messages fit. */
  function Written(rows: seq<Row>, i: nat): seq<DecodedRow>
    decreases |rows| - i
  {
    if i >= |rows| then []
    else if RowFits(rows, i) then [DecodedRow(i + 1, rows[i].rowType, Cut(rows[i].name))] + Written(rows, i + 1)
    else Written(rows, i + 1)
  }

  lemma SameHeadAndTail(a: DecodedRow, x: seq<DecodedRow>, b: DecodedRow, y: seq<DecodedRow>)
    ensures [a] + x == [b] + y <==> a == b && x == y
  {
    if [a] + x == [b] + y {
      assert ([a] + x)[0] == ([b] + y)[0] && ([a] + x)[1..] == x && ([b] + y)[1..] == y;
    }
  }

  lemma {:induction false} CutRowsExact(rows: seq<Row>, i: nat)
    requires i <= |rows|
    ensures |Numbered(rows, i)| == |CutRows(rows, i)| == |rows| - i
    ensures CutRows(rows, i) == Numbered(rows, i) <==> forall j | i <= j < |rows| :: |rows[j].name| < TWO_32
    decreases |rows| - i
  {
    if i < |rows| {
      CutRowsExact(rows, i + 1);
      var cut, full := Cut(rows[i].name), rows[i].name;
      hide Cut;
      SameHeadAndTail(DecodedRow(i + 1, rows[i].rowType, cut), CutRows(rows, i + 1),
                      DecodedRow(i + 1, rows[i].rowType, full), Numbered(rows, i + 1));
    }
  }

  /** All rows come through if and only if their messages fit. */
  lemma {:induction false} WrittenAll(rows: seq<Row>, i: nat)
    requires i <= |rows|
    ensures |Written(rows, i)| <= |rows| - i
    ensures |Written(rows, i)| == |rows| - i <==> forall j | i <= j < |rows| :: RowFits(rows, j)
    ensures |Written(rows, i)| == |rows| - i ==> Written(rows, i) == CutRows(rows, i)
    decreases |rows| - i
  {
    hide RowFits, Cut;
    if i < |rows| {
      WrittenAll(rows, i + 1);
    }
  }

  lemma RowReadBack(n: nat, id: nat, r: Row, more: seq<Byte>)
    requires n < TWO_32 && id < TWO_31 && r.rowType < TWO_32
    ensures ReadRow(Varint(n) + RowBytes(id, r) + more) == Got(DecodedRow(id, r.rowType, Cut(r.name)), more)
  {
    hide ReadNumberField, ReadBytesField, NumberField, BytesField, Varint, ReadVarint32, Cut;
    var name := BytesField(3, StringBytes(r.name)) + more;
    var body := NumberField(1, id) + (NumberField(2, r.rowType) + name);
    assert Varint(n) + RowBytes(id, r) + more == Varint(n) + body;
    Uint32ReadBack(n, body);
    NumberFieldReadBack(1, KUint, id, NumberField(2, r.rowType) + name);
    NumberFieldReadBack(2, KUint, r.rowType, name);
    BytesFieldReadBack(3, Cut(r.name), more);
  }

  lemma OneRowRead(id: nat, r: Row, more: seq<Byte>, left: nat, before: seq<DecodedRow>)
    requires id < TWO_31 && r.rowType < TWO_32 && |RowBytes(id, r)| < TWO_32
    requires before == [] || before[|before| - 1].id <= id
    ensures var s := Varint(|RowBytes(id, r)|) + RowBytes(id, r);
      ReadRows(s + more, |s| + left, before)
      == ReadRows(more, left, before + [DecodedRow(id, r.rowType, Cut(r.name))])
  {
    hide RowBytes, ReadRow, Varint, Cut;
    RowReadBack(|RowBytes(id, r)|, id, r, more);
    VarintNonEmpty(|RowBytes(id, r)|);
  }

  lemma NoRowLeft(s: seq<Byte>, before: seq<DecodedRow>)
    ensures ReadRows(s, 0, before) == Got(before, s)
  {
  }

  /** The client's rows are those written, which come in the order of their identifiers. */
  lemma {:induction false} RowsReadBack(rows: seq<Row>, i: nat, before: seq<DecodedRow>, tail: seq<Byte>)
    requires i <= |rows| < TWO_31 && forall r | r in rows :: r.rowType < TWO_32
    requires before == [] || before[|before| - 1].id <= i
    ensures ReadRows(RowsBytes(rows, i) + tail, |RowsBytes(rows, i)|, before) == Got(before + Written(rows, i), tail)
    decreases |rows| - i
  {
    hide RowBytes, ReadRows, Varint, Cut;
    if i < |rows| {
      var b := RowBytes(i + 1, rows[i]);
      var rest := RowsBytes(rows, i + 1);
      var row := DecodedRow(i + 1, rows[i].rowType, Cut(rows[i].name));
      if RowFits(rows, i) {
        OneRowRead(i + 1, rows[i], rest + tail, |rest|, before);
        Regrouped(Varint(|b|) + b, rest, tail);
        RowsReadBack(rows, i + 1, before + [row], tail);
        assert before + [row] + Written(rows, i + 1) == before + ([row] + Written(rows, i + 1));
      } else {
        assert RowsBytes(rows, i) == rest;
        RowsReadBack(rows, i + 1, before, tail);
      }
    } else {
      NoRowLeft(tail, before);
      assert [] + tail == tail && before + [] == before;
    }
  }

  lemma Regrouped(a: seq<Byte>, b: seq<Byte>, c: seq<Byte>)
    ensures a + b + c == a + (b + c) && |a + b| == |a| + |b|
  {
  }

  lemma VarintNonEmpty(i: nat)
    ensures |Varint(i)| >= 1
  {
  }

  /** Every embedded message fits a GByteArray: that of each row, and that of all rows. */
  predicate Fits(m: Manifest) {
    (forall i | 0 <= i < |m.rows| :: RowFits(m.rows, i)) && |RowsBytes(m.rows, 0)| < TWO_32
  }

  lemma HeaderReadBack(m: Manifest, tail: seq<Byte>)
    ensures var s := NumberField(1, T.ToUsec(m.ts)) + (NumberField(2, ResolutionCode(m.resolution))
                     + (NumberField(3, AsUint(m.sourceId)) + tail));
      var usec := ReadNumberField(1, KUint64, s);
      var resolution := ReadNumberField(2, KUint, usec.rest);
      var sourceId := ReadNumberField(3, KUint, resolution.rest);
      && usec.Got? && usec.value == T.ToUsec(m.ts)
      && resolution.Got? && resolution.value == ResolutionCode(m.resolution)
      && sourceId == Got(AsUint(m.sourceId), tail)
  {
    hide ReadNumberField, NumberField;
    var t3 := NumberField(3, AsUint(m.sourceId)) + tail;
    var t2 := NumberField(2, ResolutionCode(m.resolution)) + t3;
    NumberFieldReadBack(1, KUint64, T.ToUsec(m.ts), t2);
    NumberFieldReadBack(2, KUint, ResolutionCode(m.resolution), t3);
    NumberFieldReadBack(3, KUint, AsUint(m.sourceId), tail);
  }

  lemma NothingToRead()
    ensures !ReadVarint32([]).Got?
  {
  }

  /** The rows of a manifest, from their tag on; the message ends with them. */
  lemma ColumnsReadBack(m: Manifest)
    requires ValidManifest(m)
    ensures var blob := RowsBytes(m.rows, 0);
      var columns := ReadTag(BytesField(4, DataBytes(blob)));
      var length := ReadVarint32(columns.rest);
      && columns.Got? && columns.value == Tag(4, BYTES_TAG)
      && (length.Got? <==> |blob| < TWO_32)
      && (length.Got? ==> ReadRows(length.rest, length.value, []) == Got(Written(m.rows, 0), []))
  {
    hide Varint, TagWord, ReadTag, ReadVarint32, RowsBytes, ReadRows, Written;
    var blob := RowsBytes(m.rows, 0);
    TagReadBack(4, BYTES_TAG, DataBytes(blob));
    if |blob| < TWO_32 {
      Uint32ReadBack(|blob|, blob);
      RowsReadBack(m.rows, 0, [], []);
      assert blob + [] == blob && [] + Written(m.rows, 0) == Written(m.rows, 0);
    } else {
      NothingToRead();
    }
  }

  lemma {:induction false} CutRowsSent(rows: seq<Row>, i: nat, k: nat)
    requires i + k < |rows| == i + |CutRows(rows, i)| == i + |Numbered(rows, i)|
    ensures CutRows(rows, i)[k].id == Numbered(rows, i)[k].id == i + k + 1
    decreases k
  {
    hide Cut;
    if k > 0 {
      CutRowsSent(rows, i + 1, k - 1);
    }
  }

  lemma CutRowsAllSent(rows: seq<Row>)
    requires |rows| == |CutRows(rows, 0)| == |Numbered(rows, 0)|
    ensures AllSent(CutRows(rows, 0)) && AllSent(Numbered(rows, 0))
  {
    hide CutRows, Numbered;
    forall k | 0 <= k < |rows| ensures CutRows(rows, 0)[k].id == Numbered(rows, 0)[k].id == k + 1 {
      CutRowsSent(rows, 0, k);
    }
  }

  /** What the client makes of a manifest whose rows come back as `rows`. */
  function ReadAs(m: Manifest, rows: seq<DecodedRow>): Decoded {
    Decoded(T.ToUsec(m.ts), ResolutionCode(m.resolution), m.sourceId, rows)
  }

  /**
   * The client decodes what the agent encoded: microsecond timestamp, resolution, source and rows in order numbered
   * from 1, to the end of the message, if and only if the messages fit the arrays that hold them and the names are
   * shorter than 2^32 bytes. As long as the messages fit, a longer name only comes back cut.
   */
  lemma ManifestReadBack(m: Manifest)
    requires ValidManifest(m)
    ensures Fits(m) ==> ReadManifest(ManifestBytes(m)) == Got(ReadAs(m, CutRows(m.rows, 0)), [])
    ensures ReadManifest(ManifestBytes(m)) == Got(ReadAs(m, Numbered(m.rows, 0)), [])
       <==> Fits(m) && forall r | r in m.rows :: |r.name| < TWO_32
  {
    hide ReadNumberField, NumberField, BytesField, DataBytes, RowsBytes, ReadRows, RowFits, Numbered, Written, CutRows,
      ReadTag, ReadVarint32, AllSent;
    HeaderReadBack(m, BytesField(4, DataBytes(RowsBytes(m.rows, 0))));
    ColumnsReadBack(m);
    WrittenAll(m.rows, 0);
    CutRowsExact(m.rows, 0);
    CutRowsAllSent(m.rows);
  }

  /** Reading the rows by `egg_buffer_read_data` instead would fault on a manifest without rows, and on no other. */
  lemma RowsByReadData(m: Manifest)
    requires Fits(m)
    ensures ReadData(DataBytes(RowsBytes(m.rows, 0))).Faulted? <==> m.rows == []
  {
    hide RowBytes, RowsBytes, RowFits, ReadBlob, Varint;
    var blob := RowsBytes(m.rows, 0);
    BlobReadBack(blob, []);
    assert DataBytes(blob) + [] == DataBytes(blob);
    RowsNonEmpty(m);
  }

  lemma RowsNonEmpty(m: Manifest)
    requires Fits(m)
    ensures RowsBytes(m.rows, 0) == [] <==> m.rows == []
  {
    hide RowBytes, Varint;
    if m.rows != [] {
      assert RowFits(m.rows, 0);
      VarintNonEmpty(|RowBytes(1, m.rows[0])|);
    }
  }

  // ---------------------------------------------------------------- samples back

  datatype DecodedSample = DecodedSample(sourceId: int, relative: int, data: seq<Byte>)

  /** Samples follow each other to the end of the buffer. */
  function ReadSamples(s: seq<Byte>): Option<seq<DecodedSample>>
    decreases |s|
  {
    if s == [] then Some([])
    else
      var sourceId := ReadNumberField(1, KUint, s);
      var relative := ReadNumberField(2, KUint64, sourceId.rest);
      var data := ReadBytesField(3, relative.rest);
      if !sourceId.Got? || !relative.Got? || !data.Got? || |data.rest| >= |s| then None
      else
        var more := ReadSamples(data.rest);
        if more.None? then None
        else Some([DecodedSample(sourceId.value, relative.value, data.value)] + more.value)
  }

  function Expected(m: Manifest, samples: seq<Sample>, i: nat): seq<DecodedSample>
    decreases |samples| - i
  {
    if i >= |samples| then []
    else [DecodedSample(AsUint(samples[i].sourceId), RelativeTime(m, samples[i]), samples[i].data)]
         + Expected(m, samples, i + 1)
  }

  lemma RelativeTimeFits(m: Manifest, s: Sample)
    ensures RelativeTime(m, s) < TWO_64
  {
  }

  lemma SampleLength(m: Manifest, s: Sample)
    ensures |SampleBytes(m, s)| >= 1
  {
    hide DataBytes, RelativeTime, AsUint;
    VarintNonEmpty(TagWord(1, VARINT_TAG));
  }

  /** Any batch of samples is read back in order, with source, relative time and data. */
  lemma {:induction false} SamplesReadBack(m: Manifest, samples: seq<Sample>, i: nat)
    requires i <= |samples|
    ensures ReadSamples(SamplesBytes(m, samples, i)) == Some(Expected(m, samples, i))
    decreases |samples| - i
  {
    hide ReadNumberField, ReadBytesField, NumberField, BytesField, RelativeTime, Varint;
    if i < |samples| {
      SamplesReadBack(m, samples, i + 1);
      var s := samples[i];
      var more := SamplesBytes(m, samples, i + 1);
      var data := BytesField(3, DataBytes(s.data));
      RelativeTimeFits(m, s);
      SampleLength(m, s);
      BytesFieldReadBack(3, s.data, more);
      NumberFieldReadBack(2, KUint64, RelativeTime(m, s), data + more);
      NumberFieldReadBack(1, KUint, AsUint(s.sourceId), NumberField(2, RelativeTime(m, s)) + (data + more));
      assert SamplesBytes(m, samples, i)
          == NumberField(1, AsUint(s.sourceId)) + (NumberField(2, RelativeTime(m, s)) + (data + more));
    }
  }

  /** The time that comes back is the elapsed time, rounded down to the manifest's resolution. */
  lemma RelativeTimeIsFloor(m: Manifest, s: Sample)
    requires T.Normal(m.ts) && T.Normal(s.ts)
    requires 0 <= T.Total(s.ts) - T.Total(m.ts) < 1000 * TWO_64
    ensures var elapsed := T.Total(s.ts) - T.Total(m.ts); var unit := 1000 * UnitOf(m.resolution);
      RelativeTime(m, s) * unit <= elapsed < (RelativeTime(m, s) + 1) * unit
  {
    var rel := T.Subtract(s.ts, m.ts);
    T.SubtractTotal(s.ts, m.ts);
    hide T.ToUsec, T.FromUsec;
    T.UsecIsFloor(rel);
    FloorOfFloor(T.Total(rel), UnitOf(m.resolution));
  }

  lemma FloorOfFloor(nsec: nat, unit: nat)
    requires unit > 0
    ensures nsec / 1000 / unit * (1000 * unit) <= nsec < (nsec / 1000 / unit + 1) * (1000 * unit)
  {
    var u := nsec / 1000;
    assert u == u / unit * unit + u % unit;
  }

  /** The client's microseconds in one unit of a resolution, by the number that arrived. */
  function ClientUnit(resolution: int): nat
    requires 0 <= resolution <= PK_RESOLUTION_HOUR
  {
    match resolution case 0 => 1 case 1 => 1000 case 2 => 1000000 case 3 => 60000000 case _ => 3600000000
  }

  /** The client's time of a sample: `pk_sample_decode_timespec`, in 64 bits. */
  function ClientTime(m: Decoded, s: DecodedSample): T.Timespec
    requires 0 <= m.resolution <= PK_RESOLUTION_HOUR && m.usec >= 0 && s.relative >= 0
  {
    T.Add(T.FromUsec(s.relative * ClientUnit(m.resolution) % T.TWO_64), T.FromUsec(m.usec))
  }

  /** The time is not after the sample's, and before it by less than the resolution and a microsecond. */
  predicate TimeSurvives(m: Manifest, s: Sample, t: T.Timespec) {
    T.Total(t) <= T.Total(s.ts) < T.Total(t) + 1000 * UnitOf(m.resolution) + 1000
  }

  predicate TimesFit(m: Manifest, s: Sample) {
    && T.Normal(m.ts) && T.Normal(s.ts) && 0 <= m.ts.sec && T.Total(m.ts) < 1000 * TWO_64
    && 0 <= T.Total(s.ts) - T.Total(m.ts) < 1000 * TWO_64
  }

  lemma OneTimeSurvives(m: Manifest, s: Sample, rows: seq<DecodedRow>)
    requires TimesFit(m, s)
    ensures var d, e := ReadAs(m, rows), DecodedSample(AsUint(s.sourceId), RelativeTime(m, s), s.data);
      0 <= d.resolution <= PK_RESOLUTION_HOUR && d.usec >= 0 && TimeSurvives(m, s, ClientTime(d, e))
  {
    hide T.ToUsec, RelativeTime, UnitOf;
    var rel, unit := RelativeTime(m, s), UnitOf(m.resolution);
    var mts := T.FromUsec(T.ToUsec(m.ts));
    SameUnit(m.resolution);
    hide ResolutionCode, ClientUnit;
    RelativeTimeIsFloor(m, s);
    T.UsecIsFloor(m.ts);
    assert (rel * unit) * 1000 == rel * (1000 * unit) && (rel + 1) * (1000 * unit) == rel * (1000 * unit) + 1000 * unit;
    SmallMod(rel * unit, T.TWO_64);
    FromUsecTotal(rel * unit);
    hide T.FromUsec, T.Add;
    T.AddTotal(T.FromUsec(rel * unit), mts);
  }

  /** Agent and client mean the same by the number of a resolution. */
  lemma SameUnit(r: Resolution)
    ensures 0 <= ResolutionCode(r) <= PK_RESOLUTION_HOUR && ClientUnit(ResolutionCode(r)) == UnitOf(r)
  {
  }

  lemma {:induction false} ExpectedAt(m: Manifest, samples: seq<Sample>, i: nat, k: nat)
    requires i + k < |samples|
    ensures |Expected(m, samples, i)| == |samples| - i
    ensures var s := samples[i + k];
      Expected(m, samples, i)[k] == DecodedSample(AsUint(s.sourceId), RelativeTime(m, s), s.data)
    decreases |samples| - i
  {
    hide RelativeTime, AsUint;
    if i + 1 < |samples| {
      ExpectedAt(m, samples, i + 1, if k > 0 then k - 1 else 0);
    }
  }

  /**
   * From end to end: the client decodes manifest and samples from the agent's bytes, and the time it computes from them
   * for any sample is that of the sample, up to the resolution and a microsecond.
   */
  lemma SampleTimeSurvives(m: Manifest, samples: seq<Sample>, k: nat)
    requires ValidManifest(m) && Fits(m) && k < |samples| && TimesFit(m, samples[k])
    ensures var d, e := ReadManifest(ManifestBytes(m)), ReadSamples(SamplesBytes(m, samples, 0));
      && d.Got? && e.Some? && |e.value| == |samples|
      && 0 <= d.value.resolution <= PK_RESOLUTION_HOUR && d.value.usec >= 0 && e.value[k].relative >= 0
      && TimeSurvives(m, samples[k], ClientTime(d.value, e.value[k]))
  {
    hide ReadManifest, ManifestBytes, ReadSamples, SamplesBytes, Fits, CutRows, RelativeTime, TimeSurvives, ClientTime,
      ReadAs, TimesFit, ValidManifest;
    ManifestReadBack(m);
    SamplesReadBack(m, samples, 0);
    ExpectedAt(m, samples, 0, k);
    OneTimeSurvives(m, samples[k], CutRows(m.rows, 0));
  }

  // ---------------------------------------------------------------- the layout on the wire

  lemma KeyBytes()
    ensures Varint(TagWord(1, VARINT_TAG)) == [8] && Varint(TagWord(2, VARINT_TAG)) == [16]
    ensures Varint(TagWord(3, VARINT_TAG)) == [24]
    ensures Varint(TagWord(3, BYTES_TAG)) == [26] && Varint(TagWord(4, BYTES_TAG)) == [34]
  {
  }

  /**
   * The bytes of the messages, with the keys and resolutions as the client's headers number them: 8 times the field,
   * with 0 for a number and 2 for bytes whose length comes first.
   */
  lemma WireLayout(m: Manifest, s: Sample, id: nat, r: Row)
    ensures ManifestBytes(m)
      == [8] + Varint(T.ToUsec(m.ts))
         + [16, match m.resolution case Usec => 0 case Msec => 1 case Second => 2 case Minute => 3 case Hour => 4]
         + [24] + Varint(AsUint(m.sourceId)) + [34] + DataBytes(RowsBytes(m.rows, 0))
    ensures RowBytes(id, r) == [8] + Varint(id) + [16] + Varint(r.rowType) + [26] + StringBytes(r.name)
    ensures SampleBytes(m, s)
      == [8] + Varint(AsUint(s.sourceId)) + [16] + Varint(RelativeTime(m, s)) + [26] + DataBytes(s.data)
  {
    KeyBytes();
    assert Varint(ResolutionCode(m.resolution)) == [ResolutionCode(m.resolution)];
    hide Varint, TagWord, T.ToUsec, DataBytes, RowsBytes, StringBytes, RelativeTime, AsUint;
  }

  lemma FromUsecTotal(u: nat)
    ensures T.Normal(T.FromUsec(u)) && T.Total(T.FromUsec(u)) == 1000 * u
  {
    assert u == u / T.USEC_PER_SEC * T.USEC_PER_SEC + u % T.USEC_PER_SEC;
  }

  // ---------------------------------------------------------------- the client's decoder

  method ReadNumberFieldOf(buffer: EggBuffer, field: nat, kind: Kind) returns (ok: bool, value: int)
    requires buffer.Valid()
    modifies buffer`pos
    ensures buffer.Valid()
    ensures var r := ReadNumberField(field, kind, old(buffer.Unread()));
      ok == r.Got? && (ok ==> value == r.value && buffer.Unread() == r.rest)
  {
    hide ReadTag, ReadNumber;
    var good, f, t := buffer.ReadTagItem();
    if !good || f != field || t != VARINT_TAG {
      return false, 0;
    }
    ok, value := buffer.ReadNumberAs(kind);
  }

  method ReadRowOf(buffer: EggBuffer) returns (ok: bool, row: DecodedRow)
    requires buffer.Valid()
    modifies buffer`pos
    ensures buffer.Valid()
    ensures var r := ReadRow(old(buffer.Unread())); ok == r.Got? && (ok ==> row == r.value && buffer.Unread() == r.rest)
  {
    hide ReadTag, ReadBlob, ReadNumberField, VarintFrom;
    row := DecodedRow(0, 0, []);
    var good, length := buffer.ReadVarint(5, TWO_32);
    if !good {
      return false, row;
    }
    var id, rowType;
    good, id := ReadNumberFieldOf(buffer, 1, KUint);
    if !good {
      return false, row;
    }
    good, rowType := ReadNumberFieldOf(buffer, 2, KUint);
    if !good {
      return false, row;
    }
    var field, tag;
    good, field, tag := buffer.ReadTagItem();
    if !good || field != 3 || tag != BYTES_TAG {
      return false, row;
    }
    var name;
    good, name := buffer.ReadString();
    return good, DecodedRow(AsGint(id), rowType, name);
  }

  /** Whether all rows were sent: each stands at the place of its number. */
  method RowsSent(rows: seq<DecodedRow>) returns (sent: bool)
    ensures sent == AllSent(rows)
  {
    var i := 0;
    while i < |rows|
      invariant 0 <= i <= |rows| && forall k | 0 <= k < i :: rows[k].id == k + 1
    {
      if rows[i].id != i + 1 {
        return false;
      }
      i := i + 1;
    }
    return true;
  }

  /** `decode` of pk-manifest.c, with its loop over the rows up to the end of their data. */
  method Decode(buffer: EggBuffer) returns (ok: bool, manifest: Decoded)
    requires buffer.Valid()
    modifies buffer`pos
    ensures buffer.Valid()
    ensures var r := ReadManifest(old(buffer.Unread()));
      ok == r.Got? && (ok ==> manifest == r.value && buffer.Unread() == r.rest)
  {
    hide ReadNumberField, ReadRow, ReadTag, VarintFrom, InsertRow, AllSent;
    manifest := Decoded(0, 0, 0, []);
    var good, usec, resolution, sourceId;
    good, usec := ReadNumberFieldOf(buffer, 1, KUint64);
    if !good {
      return false, manifest;
    }
    good, resolution := ReadNumberFieldOf(buffer, 2, KUint);
    if !good || resolution > PK_RESOLUTION_HOUR {
      return false, manifest;
    }
    good, sourceId := ReadNumberFieldOf(buffer, 3, KUint);
    if !good {
      return false, manifest;
    }
    var field, tag;
    good, field, tag := buffer.ReadTagItem();
    if !good || field != 4 || tag != BYTES_TAG {
      return false, manifest;
    }
    var length;
    good, length := buffer.ReadVarint(5, TWO_32);
    if !good {
      return false, manifest;
    }
    var end := buffer.pos + length;
    var rows: seq<DecodedRow> := [];
    ghost var all := ReadRows(buffer.Unread(), length, []);
    while buffer.pos < end
      invariant buffer.Valid() && buffer.ar == old(buffer.ar)
      invariant all == ReadRows(buffer.Unread(), end - buffer.pos, rows)
      decreases |buffer.ar| - buffer.pos
    {
      RowConsumes(buffer.Unread());
      var row;
      good, row := ReadRowOf(buffer);
      if !good {
        return false, manifest;
      }
      rows := InsertRow(rows, row);
    }
    var sent := RowsSent(rows);
    if !sent {
      return false, manifest;
    }
    return true, Decoded(usec, resolution, AsGint(sourceId), rows);
  }
}
