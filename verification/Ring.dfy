/** The ring of graph values of uber-buffer.c as a value, with the laws that say which value is how old. */
module Rings {
  /** A double of the graph: minus infinity stands for no value. */
  datatype Val = NegInf | Fin(value: real)

  const DEFAULT_SIZE := 64

  /** `pos` is where the next value goes. */
  datatype Ring = Ring(buf: seq<Val>, pos: nat)

  predicate Valid(r: Ring) { r.pos < |r.buf| }

  function Blanks(n: nat): seq<Val> { seq(n, _ => NegInf) }

  function New(): Ring { Ring(Blanks(DEFAULT_SIZE), 0) }

  function Append(r: Ring, v: Val): Ring
    requires Valid(r)
  {
    Ring(r.buf[r.pos := v], if r.pos + 1 >= |r.buf| then 0 else r.pos + 1)
  }

  function GetIndex(r: Ring, i: nat): Val
    requires Valid(r)
  {
    if i >= |r.buf| then NegInf
    else if r.pos > i then r.buf[r.pos - i - 1]
    else r.buf[|r.buf| - (i - r.pos) - 1]
  }

  /** `count` slots from `src` on are copied to `dst`, as `memmove` does. */
  function Moved(buf: seq<Val>, dst: nat, src: nat, count: nat): seq<Val>
    requires dst + count <= |buf| && src + count <= |buf|
  {
    buf[..dst] + buf[src..src + count] + buf[dst + count..]
  }

  /** The slots from `begin` to `end` are emptied. */
  function Cleared(buf: seq<Val>, begin: nat, end: nat): seq<Val>
    requires begin <= end <= |buf|
  {
    buf[..begin] + Blanks(end - begin) + buf[end..]
  }

  function Grow(r: Ring, size: nat): (t: Ring)
    requires Valid(r) && size > |r.buf|
    ensures |t.buf| == size && t.pos == r.pos
  {
    var count := |r.buf| - r.pos;
    var moved := Moved(r.buf + Blanks(size - |r.buf|), size - count, r.pos, count);
    Ring(Cleared(moved, 0, size - count - r.pos), r.pos)
  }

  function Shrink(r: Ring, size: nat): (t: Ring)
    requires Valid(r) && 0 < size < |r.buf|
    ensures |t.buf| == size
  {
    if size >= r.pos then Ring(Moved(r.buf, r.pos, size, |r.buf| - size)[..size], r.pos)
    else Ring(Moved(r.buf, 0, r.pos - size, size)[..size], 0)
  }

  function SetSize(r: Ring, size: nat): Ring
    requires Valid(r) && size > 0
  {
    if size == |r.buf| then r else if size > |r.buf| then Grow(r, size) else Shrink(r, size)
  }

  lemma ClearedBlanks(buf: seq<Val>, more: nat)
    ensures Cleared(buf + Blanks(more), |buf|, |buf| + more) == buf + Blanks(more)
  {
  }

  // ---------------------------------------------------------------- how old a value is

  /** The values from the newest to the oldest. */
  function Recent(r: Ring): (s: seq<Val>)
    requires Valid(r)
    ensures |s| == |r.buf|
  {
    seq(|r.buf|, i requires 0 <= i < |r.buf| => GetIndex(r, i))
  }

  /** The age of a slot: below `pos` they get older going down, and so do the rest after them. */
  lemma SlotByAge(r: Ring, k: nat)
    requires Valid(r) && k < |r.buf|
    ensures Recent(r)[if k < r.pos then r.pos - 1 - k else |r.buf| - 1 - k + r.pos] == r.buf[k]
  {
  }

  /** Appending puts one value in front and drops the oldest. */
  lemma AppendIsNewest(r: Ring, v: Val)
    requires Valid(r)
    ensures Valid(Append(r, v)) && Recent(Append(r, v)) == [v] + Recent(r)[..|r.buf| - 1]
  {
    var t := Append(r, v);
    forall i | 0 <= i < |r.buf| ensures Recent(t)[i] == ([v] + Recent(r)[..|r.buf| - 1])[i] {
    }
  }

  function AppendAll(r: Ring, values: seq<Val>): (t: Ring)
    requires Valid(r)
    ensures Valid(t) && |t.buf| == |r.buf|
    decreases |values|
  {
    if values == [] then r else Append(AppendAll(r, values[..|values| - 1]), values[|values| - 1])
  }

  /** After any number of appends the values read back newest first, followed by what was there before. */
  lemma {:induction false} AppendsReadBack(r: Ring, values: seq<Val>, i: nat)
    requires Valid(r) && i < |r.buf|
    ensures GetIndex(AppendAll(r, values), i)
      == if i < |values| then values[|values| - 1 - i] else GetIndex(r, i - |values|)
    decreases |values|
  {
    hide Append;
    if values != [] {
      var n := |values| - 1;
      var before := AppendAll(r, values[..n]);
      AppendIsNewest(before, values[n]);
      assert GetIndex(AppendAll(r, values), i) == Recent(Append(before, values[n]))[i];
      if i > 0 {
        AppendsReadBack(r, values[..n], i - 1);
      }
    }
  }

  /** In a fresh buffer there is nothing older than the values appended. */
  lemma FreshReadBack(values: seq<Val>, i: nat)
    ensures GetIndex(AppendAll(New(), values), i)
      == if i < |values| && i < DEFAULT_SIZE then values[|values| - 1 - i] else NegInf
  {
    if i < DEFAULT_SIZE {
      AppendsReadBack(New(), values, i);
    }
  }

  // ---------------------------------------------------------------- resizing

  /** Shrinking below `pos` keeps the newest values. */
  lemma ShrinkBelowPosKeepsNewest(r: Ring, size: nat)
    requires Valid(r) && 0 < size < r.pos
    ensures KeepsNewest(r, size)
  {
    var t := SetSize(r, size);
    forall i | 0 <= i < size ensures Recent(t)[i] == Recent(r)[i] {
    }
  }

  lemma ShrunkAt(r: Ring, size: nat, k: nat)
    requires Valid(r) && 0 < size < |r.buf| && k < size
    ensures Shrink(r, size).pos == if size >= r.pos then r.pos else 0
    ensures Shrink(r, size).buf[k] ==
      if size < r.pos then r.buf[r.pos - size + k]
      else if r.pos <= k < r.pos + |r.buf| - size then r.buf[size + k - r.pos] else r.buf[k]
  {
  }

  predicate KeepsNewest(r: Ring, size: nat)
    requires Valid(r) && 0 < size < |r.buf| && size != r.pos
  {
    Valid(SetSize(r, size)) && Recent(SetSize(r, size)) == Recent(r)[..size]
  }

  /** The value that lands in slot `k` beyond `pos`: the tail is moved up to `pos`, and what it does not reach stays. */
  function Landed(r: Ring, size: nat, k: nat): Val
    requires r.pos <= k < size < |r.buf|
  {
    if k < r.pos + |r.buf| - size then r.buf[size + k - r.pos] else r.buf[k]
  }

  /** Slot `k` of a shrunken ring, by age. */
  lemma LandedByAge(r: Ring, size: nat, k: nat)
    requires Valid(r) && r.pos < size < |r.buf| && k < size
    ensures Valid(Shrink(r, size))
    ensures var age := if k < r.pos then r.pos - 1 - k else size - 1 - k + r.pos;
      && 0 <= age < size
      && Recent(Shrink(r, size))[age] == (if k < r.pos then r.buf[k] else Landed(r, size, k))
      && Recent(r)[age] == if k < r.pos then r.buf[k] else r.buf[|r.buf| - size + k]
  {
    hide Shrink, Recent;
    var t := Shrink(r, size);
    ShrunkAt(r, size, k);
    SlotByAge(t, k);
    SlotByAge(r, if k < r.pos then k else |r.buf| - size + k);
  }

  /**
   * Shrinking to a size above `pos` keeps the newest values if and only if each slot beyond `pos` is left with the
   * value that belongs there, as many slots before the end as it now lies.
   */
  lemma ShrinkKeepsNewest(r: Ring, size: nat)
    requires Valid(r) && r.pos < size < |r.buf|
    ensures KeepsNewest(r, size)
       <==> forall k | r.pos <= k < size :: Landed(r, size, k) == r.buf[|r.buf| - size + k]
  {
    hide Shrink, Landed, Recent;
    var t := Shrink(r, size);
    LandedByAge(r, size, 0);
    if forall k | r.pos <= k < size :: Landed(r, size, k) == r.buf[|r.buf| - size + k] {
      forall i | 0 <= i < size ensures Recent(t)[i] == Recent(r)[i] {
        LandedByAge(r, size, if i < r.pos then r.pos - 1 - i else size - 1 - i + r.pos);
      }
      assert Recent(t) == Recent(r)[..size];
    }
    if KeepsNewest(r, size) {
      forall k | r.pos <= k < size ensures Landed(r, size, k) == r.buf[|r.buf| - size + k] {
        LandedByAge(r, size, k);
        assert Recent(t)[size - 1 - k + r.pos] == Recent(r)[..size][size - 1 - k + r.pos];
      }
    }
  }

  predicate AllDifferent(buf: seq<Val>) { forall i, j | 0 <= i < j < |buf| :: buf[i] != buf[j] }

  /**
   * So it does when as many slots are cut off as remain beyond `pos`, or when all slots beyond `pos` hold one value, as
   * in a ring not yet full; if no value occurs twice, only in the first of these cases.
   */
  lemma ShrinkAbovePos(r: Ring, size: nat)
    requires Valid(r) && r.pos < size < |r.buf|
    ensures |r.buf| - size == size - r.pos ==> KeepsNewest(r, size)
    ensures (forall k | r.pos <= k < |r.buf| :: r.buf[k] == r.buf[r.pos]) ==> KeepsNewest(r, size)
    ensures AllDifferent(r.buf) && KeepsNewest(r, size) ==> |r.buf| - size == size - r.pos
  {
    hide KeepsNewest;
    ShrinkKeepsNewest(r, size);
    assert Landed(r, size, r.pos) == r.buf[size];
  }

  /** Shrinking to exactly `pos` leaves a position outside the buffer. */
  lemma ShrinkToPosBreaks(r: Ring, size: nat)
    requires Valid(r) && 0 < size < |r.buf|
    ensures |SetSize(r, size).buf| == size && (Valid(SetSize(r, size)) <==> size != r.pos)
  {
  }

  /** The slots whose values a growing buffer loses, or leaves where the new oldest values should be missing. */
  predicate Exposed(r: Ring, size: nat, k: nat)
    requires Valid(r) && size > |r.buf|
  {
    var more := size - |r.buf|;
    (k < r.pos && k < more) || (r.pos <= k < |r.buf| && more <= k < r.pos + more)
  }

  predicate KeepsHistory(r: Ring, size: nat)
    requires Valid(r) && size > |r.buf|
  {
    Valid(SetSize(r, size)) && Recent(SetSize(r, size)) == Recent(r) + Blanks(size - |r.buf|)
  }

  lemma GrownAt(r: Ring, size: nat, k: nat)
    requires Valid(r) && size > |r.buf| && k < size
    ensures var more := size - |r.buf|;
      Grow(r, size).buf[k] ==
        if k >= r.pos + more then r.buf[k - more] else if k < more || k >= |r.buf| then NegInf else r.buf[k]
  {
  }

  /** What slot `k` of the grown buffer must hold to keep the history. */
  function Wanted(r: Ring, size: nat, k: nat): Val
    requires Valid(r) && size > |r.buf| && k < size
  {
    var more := size - |r.buf|;
    if k < r.pos then r.buf[k] else if k >= r.pos + more then r.buf[k - more] else NegInf
  }

  /** The age of slot `k`, and the value that the history has at that age. */
  lemma WantedByAge(r: Ring, t: Ring, k: nat)
    requires Valid(r) && |t.buf| > |r.buf| && t.pos == r.pos && k < |t.buf|
    ensures var age := if k < r.pos then r.pos - 1 - k else |t.buf| - 1 - k + r.pos;
      && 0 <= age < |t.buf| && Recent(t)[age] == t.buf[k]
      && (Recent(r) + Blanks(|t.buf| - |r.buf|))[age] == Wanted(r, |t.buf|, k)
  {
  }

  lemma KeepsAreWanted(r: Ring, size: nat)
    requires Valid(r) && size > |r.buf|
    ensures KeepsHistory(r, size) <==> forall k | 0 <= k < size :: Grow(r, size).buf[k] == Wanted(r, size, k)
  {
    hide Wanted, Grow, Recent, GetIndex;
    var t := Grow(r, size);
    var all := Recent(r) + Blanks(size - |r.buf|);
    if forall k | 0 <= k < size :: t.buf[k] == Wanted(r, size, k) {
      forall i | 0 <= i < size ensures Recent(t)[i] == all[i] {
        WantedByAge(r, t, if i < r.pos then r.pos - 1 - i else size - 1 - i + r.pos);
      }
      assert Recent(t) == all;
    }
    if KeepsHistory(r, size) {
      forall k | 0 <= k < size ensures t.buf[k] == Wanted(r, size, k) {
        WantedByAge(r, t, k);
      }
    }
  }

  /** Growing keeps the history if and only if the exposed slots are empty; with `pos` at 0 there are none. */
  lemma GrowKeepsHistory(r: Ring, size: nat)
    requires Valid(r) && size > |r.buf|
    ensures KeepsHistory(r, size) <==> forall k | 0 <= k < |r.buf| && Exposed(r, size, k) :: r.buf[k] == NegInf
    ensures r.pos == 0 ==> KeepsHistory(r, size)
  {
    hide KeepsHistory, Grow;
    KeepsAreWanted(r, size);
    forall k | 0 <= k < size
      ensures Grow(r, size).buf[k] == Wanted(r, size, k)
        <==> (k < |r.buf| && Exposed(r, size, k) ==> r.buf[k] == NegInf)
    {
      GrownAt(r, size, k);
    }
  }

  // ---------------------------------------------------------------- values image by image

  /** The ring of the images of the values. */
  function Map(f: Val -> Val, r: Ring): Ring {
    Ring(seq(|r.buf|, i requires 0 <= i < |r.buf| => f(r.buf[i])), r.pos)
  }

  /** Appending and resizing commute with taking images, as long as minus infinity is its own image. */
  lemma AppendCommutes(f: Val -> Val, r: Ring, v: Val)
    requires Valid(r)
    ensures Append(Map(f, r), f(v)) == Map(f, Append(r, v))
  {
  }

  lemma SetSizeCommutes(f: Val -> Val, r: Ring, size: nat)
    requires Valid(r) && f(NegInf) == NegInf && size > 0
    ensures SetSize(Map(f, r), size) == Map(f, SetSize(r, size))
  {
    hide Grow, Shrink;
    var m := Map(f, r);
    if size > |r.buf| {
      forall k | 0 <= k < size ensures Grow(m, size).buf[k] == f(Grow(r, size).buf[k]) {
        GrownAt(r, size, k);
        GrownAt(m, size, k);
      }
    } else if size < |r.buf| {
      forall k | 0 <= k < size
        ensures Shrink(m, size).buf[k] == f(Shrink(r, size).buf[k]) && Shrink(m, size).pos == Shrink(r, size).pos
      {
        ShrunkAt(r, size, k);
        ShrunkAt(m, size, k);
      }
      assert Shrink(m, size).buf[0] == f(Shrink(r, size).buf[0]);
    }
  }
}
