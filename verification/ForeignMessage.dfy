/** The client's decoders on messages that the agent's encoder need not have written. */
module ForeignMessages {
  import opened EggBuffers
  import opened Encoders
  import opened Options

  // ---------------------------------------------------------------- rows in any order

  predicate SortedById(rows: seq<DecodedRow>) { forall i, j | 0 <= i <= j < |rows| :: rows[i].id <= rows[j].id }

  predicate AtMost(rows: seq<DecodedRow>, bound: int) { forall i | 0 <= i < |rows| :: rows[i].id <= bound }

  lemma AppendSorted(rows: seq<DecodedRow>, row: DecodedRow, bound: int)
    requires SortedById(rows) && AtMost(rows, row.id) && row.id <= bound
    ensures SortedById(rows + [row]) && AtMost(rows + [row], bound)
  {
  }

  lemma {:induction false} InsertInPlace(rows: seq<DecodedRow>, row: DecodedRow, bound: int)
    requires SortedById(rows) && AtMost(rows, bound) && row.id <= bound
    ensures SortedById(InsertRow(rows, row)) && AtMost(InsertRow(rows, row), bound)
  {
    if rows == [] || rows[|rows| - 1].id <= row.id {
      AppendSorted(rows, row, bound);
    } else {
      var n := |rows| - 1;
      InsertInPlace(rows[..n], row, rows[n].id);
      AppendSorted(InsertRow(rows[..n], row), rows[n], bound);
    }
  }

  lemma {:induction false} InsertCounts(rows: seq<DecodedRow>, row: DecodedRow)
    ensures multiset(InsertRow(rows, row)) == multiset(rows) + multiset{row}
    ensures multiset(IdsOf(InsertRow(rows, row))) == multiset(IdsOf(rows)) + multiset{row.id}
  {
    if rows == [] || rows[|rows| - 1].id <= row.id {
      IdsAppend(rows, row);
    } else {
      var n := |rows| - 1;
      InsertCounts(rows[..n], row);
      IdsAppend(InsertRow(rows[..n], row), rows[n]);
      IdsAppend(rows[..n], rows[n]);
      assert rows == rows[..n] + [rows[n]];
    }
  }

  function IdsOf(rows: seq<DecodedRow>): seq<int> { seq(|rows|, i requires 0 <= i < |rows| => rows[i].id) }

  lemma IdsAppend(rows: seq<DecodedRow>, row: DecodedRow)
    ensures IdsOf(rows + [row]) == IdsOf(rows) + [row.id]
  {
  }

  /** Appending a row and sorting again puts it in its place. */
  lemma InsertSorts(rows: seq<DecodedRow>, row: DecodedRow)
    requires SortedById(rows)
    ensures SortedById(InsertRow(rows, row)) && multiset(InsertRow(rows, row)) == multiset(rows) + multiset{row}
    ensures multiset(IdsOf(InsertRow(rows, row))) == multiset(IdsOf(rows)) + multiset{row.id}
  {
    hide InsertRow, IdsOf;
    InsertCounts(rows, row);
    InsertInPlace(rows, row, if rows == [] || rows[|rows| - 1].id <= row.id then row.id else rows[|rows| - 1].id);
  }

  /** A row under any number, with any length in front. */
  datatype Sent = Sent(length: nat, id: nat, row: Row)

  predicate Sendable(r: Sent) { r.length < TWO_32 && r.id < TWO_31 && r.row.rowType < TWO_32 }

  function SentBytes(rows: seq<Sent>): seq<Byte> {
    if rows == [] then []
    else Varint(rows[0].length) + RowBytes(rows[0].id, rows[0].row) + SentBytes(rows[1..])
  }

  function Received(r: Sent): DecodedRow { DecodedRow(r.id, r.row.rowType, Cut(r.row.name)) }

  /** The rows as they come in. */
  function AllReceived(rows: seq<Sent>): seq<DecodedRow> {
    if rows == [] then [] else [Received(rows[0])] + AllReceived(rows[1..])
  }

  /** Their numbers. */
  function SentIds(rows: seq<Sent>): seq<int> { if rows == [] then [] else [rows[0].id] + SentIds(rows[1..]) }

  function Inserted(before: seq<DecodedRow>, rows: seq<Sent>): seq<DecodedRow>
    decreases |rows|
  {
    if rows == [] then before else Inserted(InsertRow(before, Received(rows[0])), rows[1..])
  }

  lemma {:induction false} InsertedSorts(before: seq<DecodedRow>, rows: seq<Sent>)
    requires SortedById(before)
    ensures SortedById(Inserted(before, rows))
    ensures multiset(Inserted(before, rows)) == multiset(before) + multiset(AllReceived(rows))
    ensures multiset(IdsOf(Inserted(before, rows))) == multiset(IdsOf(before)) + multiset(SentIds(rows))
    decreases |rows|
  {
    hide InsertRow, SortedById, IdsOf;
    if rows != [] {
      InsertSorts(before, Received(rows[0]));
      InsertedSorts(InsertRow(before, Received(rows[0])), rows[1..]);
    }
  }

  /** The client's loop takes each row for what it is, and its length for nothing. */
  lemma {:induction false} SentRowsRead(rows: seq<Sent>, before: seq<DecodedRow>, tail: seq<Byte>)
    requires forall r | r in rows :: Sendable(r)
    ensures ReadRows(SentBytes(rows) + tail, |SentBytes(rows)|, before) == Got(Inserted(before, rows), tail)
    decreases |rows|
  {
    hide RowBytes, ReadRow, Varint, InsertRow, Cut;
    if rows == [] {
      assert [] + tail == tail;
    } else {
      var r, rest := rows[0], SentBytes(rows[1..]);
      var one := Varint(r.length) + RowBytes(r.id, r.row);
      assert Sendable(r);
      RowReadBack(r.length, r.id, r.row, rest + tail);
      VarintNonEmpty(r.length);
      Regrouped(one, rest, tail);
      SentRowsRead(rows[1..], InsertRow(before, Received(r)), tail);
    }
  }

  // ---------------------------------------------------------------- the numbers of the rows

  predicate Ascending(s: seq<int>) { forall i, j | 0 <= i <= j < |s| :: s[i] <= s[j] }

  lemma LastIsGreatest(s: seq<int>, x: int)
    requires Ascending(s) && x in multiset(s)
    ensures s != [] && x <= s[|s| - 1]
  {
    assert x in s;
  }

  lemma WithoutLast(s: seq<int>)
    requires s != []
    ensures multiset(s[..|s| - 1]) == multiset(s) - multiset{s[|s| - 1]} && s[|s| - 1] in multiset(s)
    ensures Ascending(s) ==> Ascending(s[..|s| - 1])
  {
    assert s == s[..|s| - 1] + [s[|s| - 1]];
  }

  lemma SameLength(a: seq<int>, b: seq<int>)
    requires multiset(a) == multiset(b)
    ensures |a| == |b|
  {
    assert |a| == |multiset(a)| == |multiset(b)| == |b|;
  }

  lemma SameLast(a: seq<int>, b: seq<int>)
    requires Ascending(a) && Ascending(b) && multiset(a) == multiset(b) && a != []
    ensures |a| == |b| && a[|a| - 1] == b[|b| - 1] && multiset(a[..|a| - 1]) == multiset(b[..|b| - 1])
    ensures Ascending(a[..|a| - 1]) && Ascending(b[..|b| - 1])
  {
    hide Ascending;
    SameLength(a, b);
    WithoutLast(a);
    WithoutLast(b);
    LastIsGreatest(b, a[|a| - 1]);
    LastIsGreatest(a, b[|b| - 1]);
  }

  lemma {:induction false} SortedIsUnique(a: seq<int>, b: seq<int>)
    requires Ascending(a) && Ascending(b) && multiset(a) == multiset(b)
    ensures a == b
    decreases |a|
  {
    hide Ascending;
    SameLength(a, b);
    if a != [] {
      var n := |a| - 1;
      SameLast(a, b);
      SortedIsUnique(a[..n], b[..n]);
      assert a == a[..n] + [a[n]] && b == b[..n] + [b[n]];
    }
  }

  /** The numbers from 1 to `n`. */
  function Counted(n: nat): seq<int> { seq(n, i => i + 1) }

  /** All rows were sent if and only if their numbers are those from 1 on, each once. */
  lemma AllSentExact(rows: seq<DecodedRow>, ids: seq<int>)
    requires SortedById(rows) && multiset(IdsOf(rows)) == multiset(ids)
    ensures |rows| == |ids| && (AllSent(rows) <==> multiset(ids) == multiset(Counted(|ids|)))
  {
    SameLength(IdsOf(rows), ids);
    AllSentIds(rows);
    hide AllSent;
    if multiset(ids) == multiset(Counted(|ids|)) {
      SortedIsUnique(IdsOf(rows), Counted(|rows|));
    }
  }

  lemma AllSentIds(rows: seq<DecodedRow>)
    ensures AllSent(rows) <==> IdsOf(rows) == Counted(|rows|)
  {
    if IdsOf(rows) == Counted(|rows|) {
      forall i | 0 <= i < |rows| ensures rows[i].id == i + 1 {
        assert IdsOf(rows)[i] == Counted(|rows|)[i];
      }
    }
  }

  // ---------------------------------------------------------------- manifests

  function SentManifest(usec: nat, resolution: nat, sourceId: nat, rows: seq<Sent>): seq<Byte> {
    NumberField(1, usec)
    + (NumberField(2, resolution)
       + (NumberField(3, sourceId) + BytesField(4, Varint(|SentBytes(rows)|) + SentBytes(rows))))
  }

  lemma SentHeaderRead(usec: nat, resolution: nat, sourceId: nat, tail: seq<Byte>)
    requires usec < TWO_64 && resolution < TWO_32 && sourceId < TWO_32
    ensures var s := NumberField(1, usec) + (NumberField(2, resolution) + (NumberField(3, sourceId) + tail));
      var a := ReadNumberField(1, KUint64, s);
      var b := ReadNumberField(2, KUint, a.rest);
      && a.Got? && a.value == usec && b.Got? && b.value == resolution
      && ReadNumberField(3, KUint, b.rest) == Got(sourceId, tail)
  {
    hide ReadNumberField, NumberField;
    var t3 := NumberField(3, sourceId) + tail;
    NumberFieldReadBack(1, KUint64, usec, NumberField(2, resolution) + t3);
    NumberFieldReadBack(2, KUint, resolution, t3);
    NumberFieldReadBack(3, KUint, sourceId, tail);
  }

  lemma SentColumnsRead(rows: seq<Sent>)
    requires |SentBytes(rows)| < TWO_32 && forall r | r in rows :: Sendable(r)
    ensures var blob := SentBytes(rows);
      var columns := ReadTag(BytesField(4, Varint(|blob|) + blob));
      var length := ReadVarint32(columns.rest);
      && columns.Got? && columns.value == Tag(4, 2) && length == Got(|blob|, blob)
      && ReadRows(length.rest, length.value, []) == Got(Inserted([], rows), [])
  {
    hide Varint, TagWord, ReadTag, ReadVarint32, SentBytes, ReadRows, Inserted;
    var blob := SentBytes(rows);
    TagReadBack(4, BYTES_TAG, Varint(|blob|) + blob);
    Uint32ReadBack(|blob|, blob);
    SentRowsRead(rows, [], []);
    assert blob + [] == blob;
  }

  lemma SentIdsLength(rows: seq<Sent>)
    ensures |SentIds(rows)| == |rows|
  {
  }

  lemma NoIds()
    ensures IdsOf([]) == []
  {
  }

  /**
   * A manifest from any writer, with rows in any order and under any numbers: the client takes it if and only if the
   * resolution is one of its five and the rows are numbered from 1 on, each number once. Then it has all rows, in the
   * order of their numbers.
   */
  lemma SentManifestExact(usec: nat, resolution: nat, sourceId: nat, rows: seq<Sent>)
    requires usec < TWO_64 && resolution < TWO_32 && sourceId < TWO_32
    requires |SentBytes(rows)| < TWO_32 && forall r | r in rows :: Sendable(r)
    ensures var d := ReadManifest(SentManifest(usec, resolution, sourceId, rows));
      && (d.Got? <==> resolution <= 4 && multiset(SentIds(rows)) == multiset(Counted(|rows|)))
      && (d.Got? ==>
            && d.rest == [] && d.value.usec == usec && d.value.resolution == resolution
            && d.value.sourceId == (if sourceId < 0x8000_0000 then sourceId else sourceId - 0x1_0000_0000)
            && SortedById(d.value.rows) && multiset(d.value.rows) == multiset(AllReceived(rows)))
  {
    hide ReadNumberField, NumberField, BytesField, Varint, ReadTag, ReadVarint32, ReadRows, SentBytes, Inserted,
      AllReceived, IdsOf, Counted, AllSent, SentIds;
    var blob := SentBytes(rows);
    SentHeaderRead(usec, resolution, sourceId, BytesField(4, Varint(|blob|) + blob));
    SentColumnsRead(rows);
    InsertedSorts([], rows);
    SentIdsLength(rows);
    NoIds();
    AllSentExact(Inserted([], rows), SentIds(rows));
  }

  // ---------------------------------------------------------------- the keys

  /** The next value is a number with field number `field`. */
  predicate NumberKey(field: nat, s: seq<Byte>) { ReadTag(s).Got? && ReadTag(s).value == Tag(field, 0) }

  /** The next value is a string or bytes with field number `field`. */
  predicate BytesKey(field: nat, s: seq<Byte>) { ReadTag(s).Got? && ReadTag(s).value == Tag(field, 2) }

  /** No message is taken whose keys are not the four of a manifest, in order. */
  lemma ManifestHasKeys(s: seq<Byte>)
    requires ReadManifest(s).Got?
    ensures NumberKey(1, s)
    ensures var a := ReadNumber(KUint64, ReadTag(s).rest); NumberKey(2, a.rest)
    ensures var a := ReadNumber(KUint64, ReadTag(s).rest); var b := ReadNumber(KUint, ReadTag(a.rest).rest);
      && NumberKey(3, b.rest)
      && var c := ReadNumber(KUint, ReadTag(b.rest).rest); BytesKey(4, c.rest)
  {
    hide ReadTag, ReadNumber, ReadRows, AllSent, ReadVarint32;
  }

  lemma RowHasKeys(s: seq<Byte>)
    requires ReadRow(s).Got?
    ensures ReadVarint32(s).Got? && NumberKey(1, ReadVarint32(s).rest)
    ensures var a := ReadNumber(KUint, ReadTag(ReadVarint32(s).rest).rest);
      && NumberKey(2, a.rest)
      && var b := ReadNumber(KUint, ReadTag(a.rest).rest); BytesKey(3, b.rest)
  {
    hide ReadTag, ReadNumber, ReadBlob, ReadVarint32;
  }

  lemma SampleHasKeys(s: seq<Byte>)
    requires s != [] && ReadSamples(s).Some?
    ensures NumberKey(1, s)
    ensures var a := ReadNumber(KUint, ReadTag(s).rest);
      && NumberKey(2, a.rest)
      && var b := ReadNumber(KUint64, ReadTag(a.rest).rest); BytesKey(3, b.rest)
  {
    hide ReadTag, ReadNumber, ReadBlob;
  }
}
