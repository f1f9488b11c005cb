/**
 * The cooperative sampling thread of pka-source-simple.c: a list of sources kept in order of their deadlines, scanned
 * from the front while the deadlines have passed. A method stands for what is done under one holding of the mutex.
 */
module Scheduler {
  import opened Options
  import T = Timespecs
  import L = Lifecycle

  type SourceId = L.SourceId
  type Deadlines = map<SourceId, T.Timespec>

  predicate Ordered(d: Deadlines, a: SourceId, b: SourceId) {
    a in d && b in d && T.Compare(d[a], d[b]) <= 0
  }

  predicate Sorted(list: seq<SourceId>, d: Deadlines) {
    forall i, j | 0 <= i <= j < |list| :: Ordered(d, list[i], list[j])
  }

  predicate Distinct(list: seq<SourceId>) { forall i, j | 0 <= i < j < |list| :: list[i] != list[j] }

  predicate AllKnown(list: seq<SourceId>, d: Deadlines) { forall id | id in list :: id in d }

  // ---------------------------------------------------------------- sorting

  lemma CompareIsTotal(a: T.Timespec, b: T.Timespec, c: T.Timespec)
    ensures T.Compare(a, b) <= 0 || T.Compare(b, a) <= 0
    ensures T.Compare(a, b) <= 0 && T.Compare(b, c) <= 0 ==> T.Compare(a, c) <= 0
  {
  }

  function Insert(id: SourceId, list: seq<SourceId>, d: Deadlines): seq<SourceId> {
    if list == [] || Ordered(d, id, list[0]) then [id] + list else [list[0]] + Insert(id, list[1..], d)
  }

  /** `g_ptr_array_sort` with `pka_source_simple_compare_func`, as an insertion sort. */
  function SortByDeadline(list: seq<SourceId>, d: Deadlines): seq<SourceId> {
    if list == [] then [] else Insert(list[0], SortByDeadline(list[1..], d), d)
  }

  lemma PutFirst(id: SourceId, list: seq<SourceId>, d: Deadlines)
    requires Sorted(list, d) && id in d && forall x | x in list :: Ordered(d, id, x)
    ensures Sorted([id] + list, d)
  {
    CompareIsTotal(d[id], d[id], d[id]);
    hide Ordered;
    var all := [id] + list;
    forall i, j | 0 <= i <= j < |all| ensures Ordered(d, all[i], all[j]) {
      if i > 0 { assert Ordered(d, list[i - 1], list[j - 1]); }
    }
  }

  lemma {:induction false} InsertKeepsSorted(id: SourceId, list: seq<SourceId>, d: Deadlines)
    requires Sorted(list, d) && id in d
    ensures Sorted(Insert(id, list, d), d) && multiset(Insert(id, list, d)) == multiset(list) + multiset{id}
  {
    hide T.Compare;
    if list == [] || Ordered(d, id, list[0]) {
      forall x | x in list ensures Ordered(d, id, x) {
        assert Ordered(d, list[0], x);
        CompareIsTotal(d[id], d[list[0]], d[x]);
      }
      PutFirst(id, list, d);
    } else {
      assert Ordered(d, list[0], list[0]);
      var rest := Insert(id, list[1..], d);
      InsertKeepsSorted(id, list[1..], d);
      CompareIsTotal(d[id], d[list[0]], d[id]);
      assert list == [list[0]] + list[1..];
      forall x | x in rest ensures Ordered(d, list[0], x) {
        assert x in multiset(rest);
        assert x == id || x in list[1..];
      }
      PutFirst(list[0], rest, d);
    }
  }

  lemma {:induction false} SortSorts(list: seq<SourceId>, d: Deadlines)
    requires AllKnown(list, d)
    ensures Sorted(SortByDeadline(list, d), d) && multiset(SortByDeadline(list, d)) == multiset(list)
  {
    if list != [] {
      SortSorts(list[1..], d);
      InsertKeepsSorted(list[0], SortByDeadline(list[1..], d), d);
      assert list == [list[0]] + list[1..];
    }
  }

  /** `g_ptr_array_remove` */
  function RemoveFirst(list: seq<SourceId>, id: SourceId): seq<SourceId> {
    if list == [] then [] else if list[0] == id then list[1..] else [list[0]] + RemoveFirst(list[1..], id)
  }

  lemma CutLater(list: seq<SourceId>, i: nat)
    requires 0 < i < |list|
    ensures Cut(list, i) == [list[0]] + Cut(list[1..], i - 1)
  {
  }

  lemma {:induction false} RemoveFirstAt(list: seq<SourceId>, id: SourceId, i: nat)
    requires i <= |list| && id !in list[..i] && (i < |list| ==> list[i] == id)
    ensures RemoveFirst(list, id) == if i < |list| then Cut(list, i) else list
  {
    if i > 0 {
      assert list[0] in list[..i];
      assert list[1..][..i - 1] == list[1..i];
      RemoveFirstAt(list[1..], id, i - 1);
      if i < |list| {
        CutLater(list, i);
      }
    }
  }

  lemma {:induction false} FirstPlace(list: seq<SourceId>, id: SourceId) returns (i: nat)
    ensures i <= |list| && id !in list[..i] && (i < |list| ==> list[i] == id)
  {
    if list == [] || list[0] == id {
      i := 0;
    } else {
      i := FirstPlace(list[1..], id);
      assert list[..i + 1] == [list[0]] + list[1..][..i];
      i := i + 1;
    }
  }

  function Cut(list: seq<SourceId>, i: nat): seq<SourceId>
    requires i < |list|
  {
    list[..i] + list[i + 1..]
  }

  lemma CutCounts(list: seq<SourceId>, i: nat)
    requires i < |list|
    ensures multiset(Cut(list, i)) == multiset(list) - multiset{list[i]}
  {
    assert list == list[..i] + [list[i]] + list[i + 1..];
  }

  lemma CutSorted(list: seq<SourceId>, i: nat, d: Deadlines)
    requires i < |list| && Sorted(list, d)
    ensures Sorted(Cut(list, i), d)
  {
    hide Ordered;
    var cut := Cut(list, i);
    forall k, m | 0 <= k <= m < |cut| ensures Ordered(d, cut[k], cut[m]) {
      assert Ordered(d, list[if k < i then k else k + 1], list[if m < i then m else m + 1]);
    }
  }

  lemma CutDistinct(list: seq<SourceId>, i: nat)
    requires i < |list| && Distinct(list)
    ensures Distinct(Cut(list, i))
  {
    var cut := Cut(list, i);
    forall k, m | 0 <= k < m < |cut| ensures cut[k] != cut[m] {
      assert list[if k < i then k else k + 1] != list[if m < i then m else m + 1];
    }
  }

  /** Removing takes one occurrence away, if there is one, and keeps the order. */
  lemma RemoveFirstKeeps(list: seq<SourceId>, id: SourceId, d: Deadlines)
    requires Sorted(list, d)
    ensures multiset(RemoveFirst(list, id)) == multiset(list) - multiset{id}
    ensures Sorted(RemoveFirst(list, id), d) && (Distinct(list) ==> Distinct(RemoveFirst(list, id)))
  {
    hide Sorted, Distinct, RemoveFirst;
    var i := FirstPlace(list, id);
    RemoveFirstAt(list, id, i);
    if i < |list| {
      CutCounts(list, i);
      CutSorted(list, i, d);
      if Distinct(list) { CutDistinct(list, i); }
    } else {
      assert list[..i] == list;
      assert id !in multiset(list);
    }
  }

  /** Distinctness is a matter of the multiset, and so survives sorting. */
  lemma DistinctByCount(list: seq<SourceId>)
    ensures Distinct(list) <==> forall id | id in list :: multiset(list)[id] == 1
  {
    if Distinct(list) {
      forall id | id in list ensures multiset(list)[id] == 1 {
        CountDistinct(list, id);
      }
    } else {
      var i, j :| 0 <= i < j < |list| && list[i] == list[j];
      assert list == list[..j] + [list[j]] + list[j + 1..];
      assert list[i] in list[..j];
      assert multiset(list)[list[j]] >= multiset(list[..j])[list[j]] + 1;
      assert list[j] in list;
    }
  }

  lemma {:induction false} CountDistinct(list: seq<SourceId>, id: SourceId)
    requires Distinct(list) && id in list
    ensures multiset(list)[id] == 1
  {
    assert list == [list[0]] + list[1..];
    if list[0] == id {
      assert id !in list[1..];
      assert id !in multiset(list[1..]);
    } else {
      CountDistinct(list[1..], id);
    }
  }

  lemma SameCountsDistinct(a: seq<SourceId>, b: seq<SourceId>)
    requires multiset(a) == multiset(b)
    ensures Distinct(a) == Distinct(b)
  {
    DistinctByCount(a);
    DistinctByCount(b);
    forall id ensures id in a <==> id in b {
      assert id in a <==> id in multiset(a);
      assert id in b <==> id in multiset(b);
    }
  }

  // ---------------------------------------------------------------- the rate of invocations

  /** An invocation: when the deadline was moved on, and by how much, in nanoseconds. */
  datatype Call = Call(source: SourceId, at: int, freq: nat)

  /** Two invocations of a source lie apart by at least the frequency that the earlier one was given. */
  predicate Spaced(calls: seq<Call>) {
    forall i, j | 0 <= i < j < |calls| && calls[i].source == calls[j].source ::
      calls[j].at >= calls[i].at + calls[i].freq
  }

  /** A source's deadline is not before any invocation of it plus its frequency. */
  predicate Armed(calls: seq<Call>, d: Deadlines) {
    forall i | 0 <= i < |calls| :: calls[i].source in d && calls[i].at + calls[i].freq <= T.Total(d[calls[i].source])
  }

  /** `after` adds to `before` one invocation of each of `list`, in that order. */
  predicate InvokedInTurn(before: seq<Call>, after: seq<Call>, list: seq<SourceId>) {
    && |after| == |before| + |list| && before <= after
    && forall j | 0 <= j < |list| :: after[|before| + j].source == list[j]
  }

  function TimesOf(calls: seq<Call>, id: SourceId): seq<int> {
    if calls == [] then []
    else TimesOf(calls[..|calls| - 1], id) + if calls[|calls| - 1].source == id then [calls[|calls| - 1].at] else []
  }

  lemma {:induction false} TimesAreCalls(calls: seq<Call>, id: SourceId, k: nat)
    requires k < |TimesOf(calls, id)|
    ensures exists i :: 0 <= i < |calls| && calls[i].source == id && calls[i].at == TimesOf(calls, id)[k]
  {
    var n := |calls| - 1;
    if k < |TimesOf(calls[..n], id)| {
      TimesAreCalls(calls[..n], id, k);
    }
  }

  /** `k` invocations of a source span at least `k - 1` times the least frequency it had. */
  lemma {:induction false} RateBound(calls: seq<Call>, id: SourceId, f: nat)
    requires Spaced(calls)
    requires forall i | 0 <= i < |calls| && calls[i].source == id :: calls[i].freq >= f
    ensures var t := TimesOf(calls, id); t != [] ==> t[|t| - 1] - t[0] >= (|t| - 1) * f
  {
    if calls != [] {
      var n := |calls| - 1;
      RateBound(calls[..n], id, f);
      var t := TimesOf(calls[..n], id);
      if calls[n].source == id && t != [] {
        TimesAreCalls(calls[..n], id, |t| - 1);
        assert calls[n].at - t[|t| - 1] >= f;
        assert |t| * f == (|t| - 1) * f + f;
      }
    }
  }

  /** What one more invocation needs and leaves. */
  lemma CallKeepsRate(calls: seq<Call>, d: Deadlines, call: Call, next: T.Timespec)
    requires Spaced(calls) && Armed(calls, d) && call.source in d
    requires call.at >= T.Total(d[call.source]) && T.Total(next) == call.at + call.freq
    ensures Spaced(calls + [call]) && Armed(calls + [call], d[call.source := next])
  {
    hide T.Total;
  }

  // ---------------------------------------------------------------- the worker

  /** The deadlines of all of `list` had passed at `now`. */
  predicate PassedAt(list: seq<SourceId>, d: Deadlines, now: T.Timespec) {
    forall id | id in list :: id in d && T.Total(d[id]) <= T.Total(now)
  }

  lemma PassedLater(list: seq<SourceId>, d: Deadlines, now: T.Timespec, later: T.Timespec)
    requires T.Total(now) <= T.Total(later)
    ensures PassedAt(list, d, now) ==> PassedAt(list, d, later)
  {
  }

  lemma NothingYet(calls: seq<Call>, d: Deadlines, now: T.Timespec)
    ensures InvokedInTurn(calls, calls, []) && PassedAt([], d, now)
  {
  }

  lemma OneMore(before: seq<Call>, after: seq<Call>, more: seq<Call>, list: seq<SourceId>, i: nat, d: Deadlines,
                now: T.Timespec)
    requires i < |list| && InvokedInTurn(before, after, list[..i])
    requires |more| == |after| + 1 && after <= more && more[|after|].source == list[i]
    ensures InvokedInTurn(before, more, list[..i + 1])
    ensures PassedAt(list[..i], d, now) && list[i] in d && T.Total(d[list[i]]) <= T.Total(now)
      ==> PassedAt(list[..i + 1], d, now)
  {
    assert list[..i + 1] == list[..i] + [list[i]];
    forall j | 0 <= j <= i ensures more[|before| + j].source == list[j] {
      if j < i { assert after[|before| + j].source == list[..i][j]; }
    }
  }

  lemma NotBefore(list: seq<SourceId>, i: nat)
    requires i < |list|
    ensures Distinct(list) ==> list[i] !in list[..i]
  {
  }

  /** A sorted list of deadlines of which just the first `i` had passed. */
  lemma ScanExact(list: seq<SourceId>, d: Deadlines, i: nat, now: T.Timespec)
    requires Sorted(list, d) && i <= |list| && PassedAt(list[..i], d, now)
    requires forall id | id in list :: id in d && T.Deadline(d[id])
    requires i < |list| ==> T.Total(d[list[i]]) > T.Total(now)
    ensures forall id | id in list :: id in list[..i] <==> T.Total(d[id]) <= T.Total(now)
  {
    hide T.Total, T.Compare;
    forall k | i <= k < |list| ensures T.Total(d[list[k]]) > T.Total(now) {
      assert Ordered(d, list[i], list[k]);
      T.DeadlineOrder(d[list[i]], d[list[k]]);
    }
    assert list == list[..i] + list[i..];
  }

  /** A frequency of whole seconds never leaves a deadline that the wait refuses. */
  lemma WholeSecondsAreAccepted(now: T.Timespec, freq: T.Timespec)
    requires T.Normal(now) && freq.nsec == 0
    ensures T.Normal(T.Add(now, freq))
  {
  }

  /**
   * A run into a refused wait: at 1.5 seconds a fresh source is due and, with a frequency of half a second, gets such a
   * deadline. It is not due again at any reading before 2 seconds.
   */
  lemma WaitIsRefused(id: SourceId, now: T.Timespec)
    requires T.Normal(now)
    ensures var first, freq := T.Timespec(1, 500000000), T.Timespec(0, 500000000);
      var d := map[id := T.Timespec(0, 0)];
      var next := d[id := T.Add(first, freq)];
      && T.Compare(first, d[id]) >= 0
      && Sorted([id], next) && next[id] == T.Timespec(1, T.NSEC_PER_SEC) && !T.Normal(next[id])
      && (T.Compare(now, next[id]) < 0 <==> now.sec < 2)
  {
  }

  /** The head of the list has the least deadline. */
  lemma HeadIsLeast(list: seq<SourceId>, d: Deadlines)
    requires Sorted(list, d) && list != [] && forall id | id in list :: id in d && T.Deadline(d[id])
    ensures forall id | id in list :: T.Total(d[list[0]]) <= T.Total(d[id])
  {
    hide T.Total, T.Compare;
    forall k | 0 <= k < |list| ensures T.Total(d[list[0]]) <= T.Total(d[list[k]]) {
      assert Ordered(d, list[0], list[k]);
      T.DeadlineOrder(d[list[0]], d[list[k]]);
    }
  }

  class SharedWorker {
    var sources: seq<SourceId>
    var deadline: Deadlines
    var freq: map<SourceId, T.Timespec>
    var clock: T.Timespec   // the last reading
    ghost var calls: seq<Call>

    ghost predicate Valid()
      reads this
    {
      Sorted(sources, deadline) && ValidUnsorted()
    }

    /** As between an invocation and the sorting. */
    ghost predicate ValidUnsorted()
      reads this
    {
      && AllKnown(sources, deadline)
      && deadline.Keys == freq.Keys
      && (forall id | id in deadline :: T.Deadline(deadline[id]))
      && (forall id | id in freq :: T.Normal(freq[id]) && T.Total(freq[id]) >= 0)
      && T.Normal(clock)
      && Spaced(calls) && Armed(calls, deadline)
    }

    /** Sources start with a zero deadline. */
    constructor (freq: map<SourceId, T.Timespec>, clock: T.Timespec)
      requires T.Normal(clock) && forall id | id in freq :: T.Normal(freq[id]) && T.Total(freq[id]) >= 0
      ensures Valid() && sources == [] && this.freq == freq && calls == [] && this.clock == clock
      ensures deadline.Keys == freq.Keys && forall id | id in freq :: deadline[id] == T.Timespec(0, 0)
    {
      sources := [];
      deadline := map id | id in freq :: T.Timespec(0, 0);
      this.freq, this.clock := freq, clock;
      calls := [];
    }

    /** CLOCK_MONOTONIC: any normal reading that is not before the last one. */
    method ReadClock() returns (now: T.Timespec)
      requires T.Normal(clock)
      modifies this`clock
      ensures now == clock && T.Normal(now) && T.Total(now) >= T.Total(old(clock))
    {
      var elapsed: int :| 0 <= elapsed;
      var total := T.Total(clock) + elapsed;
      TotalOfParts(total);
      now := T.Timespec(total / T.NSEC_PER_SEC, total % T.NSEC_PER_SEC);
      assert T.Total(now) == total;
      clock := now;
    }

    /** `pka_source_simple_add_to_shared` */
    method AddToShared(id: SourceId)
      requires Valid() && id in deadline
      modifies this`sources
      ensures Valid() && multiset(sources) == multiset(old(sources)) + multiset{id}
      ensures Distinct(sources) <==> Distinct(old(sources)) && id !in old(sources)
    {
      sources := sources + [id];
      SortSorts(sources, deadline);
      SameCountsDistinct(sources, SortByDeadline(sources, deadline));
      sources := SortByDeadline(sources, deadline);
      SameMembers(sources, old(sources) + [id]);
      assert Distinct(old(sources) + [id]) ==> Distinct(old(sources)) && id !in old(sources) by {
        assert (old(sources) + [id])[..|old(sources)|] == old(sources);
      }
    }

    /** `pka_source_simple_remove_from_shared`: the first occurrence goes, the order stays. */
    method RemoveFromShared(id: SourceId)
      requires Valid()
      modifies this`sources
      ensures Valid() && sources == RemoveFirst(old(sources), id)
      ensures Distinct(old(sources)) ==> Distinct(sources)
    {
      hide Sorted, Distinct, AllKnown, RemoveFirst, Spaced, Armed;
      var i := 0;
      while i < |sources| && sources[i] != id
        invariant 0 <= i <= |sources| && id !in sources[..i]
      {
        i := i + 1;
      }
      RemoveFirstAt(sources, id, i);
      RemoveFirstKeeps(sources, id, deadline);
      SortedKnown(RemoveFirst(sources, id), deadline);
      if i < |sources| {
        sources := sources[..i] + sources[i + 1..];
      }
    }

    /** The shared-mode handlers do to the list what the life cycle says. */
    method Handle(id: SourceId, e: L.Event)
      requires Valid() && id in deadline
      modifies this`sources
      ensures Valid() && multiset(sources) == L.Handled(multiset(old(sources)), id, e)
    {
      RemoveFirstKeeps(sources, id, deadline);
      match e
      case Started => AddToShared(id);
      case Unmuted => AddToShared(id);
      case Stopped => RemoveFromShared(id);
      case Muted => RemoveFromShared(id);
      case Reset =>
    }

    /** `pka_source_simple_invoke`: the deadline becomes now plus the frequency, before the callback runs. */
    method Invoke(id: SourceId)
      requires ValidUnsorted() && id in deadline && T.Total(clock) >= T.Total(deadline[id])
      modifies this`deadline, this`clock, this`calls
      ensures ValidUnsorted() && T.Total(clock) >= T.Total(old(clock))
      ensures deadline == old(deadline)[id := T.Add(clock, freq[id])]
      ensures !T.Normal(deadline[id]) <==> clock.nsec + freq[id].nsec == T.NSEC_PER_SEC
      ensures calls == old(calls) + [Call(id, T.Total(clock), T.Total(freq[id]))]
    {
      hide Spaced, Armed, T.Compare, T.Total, T.Add;
      var now := ReadClock();
      T.AddTotal(now, freq[id]);
      CallKeepsRate(calls, deadline, Call(id, T.Total(now), T.Total(freq[id])), T.Add(now, freq[id]));
      deadline := deadline[id := T.Add(now, freq[id])];
      calls := calls + [Call(id, T.Total(now), T.Total(freq[id]))];
    }

    /** `pka_source_simple_is_ready`, and if so `pka_source_simple_invoke`. */
    method InvokeIfReady(id: SourceId) returns (ready: bool, now: T.Timespec)
      requires ValidUnsorted() && id in deadline
      modifies this`deadline, this`clock, this`calls
      ensures ValidUnsorted() && T.Total(old(clock)) <= T.Total(now) <= T.Total(clock)
      ensures ready <==> T.Total(old(deadline)[id]) <= T.Total(now)
      ensures !ready ==> deadline == old(deadline) && calls == old(calls)
      ensures ready ==> deadline == old(deadline)[id := T.Add(clock, freq[id])]
      ensures ready ==> |calls| == |old(calls)| + 1 && old(calls) <= calls && calls[|calls| - 1].source == id
    {
      hide Spaced, Armed, T.Compare, T.Total, T.Add;
      now := ReadClock();
      T.ReadyByTotal(now, deadline[id]);
      ready := T.Compare(now, deadline[id]) >= 0;
      if ready {
        Invoke(id);
      }
    }

    /** The loop of the scan, which does not touch the list itself. */
    method InvokeReady() returns (count: nat, last: T.Timespec)
      requires Valid()
      modifies this`deadline, this`clock, this`calls
      ensures ValidUnsorted() && count <= |sources| && InvokedInTurn(old(calls), calls, sources[..count])
      ensures forall id | id in deadline && id !in sources[..count] ::
        id in old(deadline) && deadline[id] == old(deadline)[id]
      ensures count == 0 ==> deadline == old(deadline) && calls == old(calls)
      ensures count == 0 <==> sources == [] || T.Total(last) < T.Total(old(deadline)[sources[0]])
      ensures Distinct(sources) ==>
        forall id | id in sources :: id in sources[..count] <==> T.Total(old(deadline)[id]) <= T.Total(last)
    {
      hide Sorted, Distinct, PassedAt, InvokedInTurn, Spaced, Armed, T.Total, T.Add;
      ghost var was := deadline;
      count := 0;
      last := clock;
      NothingYet(calls, was, last);
      while count < |sources|
        invariant 0 <= count <= |sources| && ValidUnsorted()
        invariant T.Total(last) <= T.Total(clock)
        invariant InvokedInTurn(old(calls), calls, sources[..count])
        invariant forall id | id in deadline && id !in sources[..count] :: id in was && deadline[id] == was[id]
        invariant count == 0 ==> deadline == was && calls == old(calls)
        invariant count > 0 ==> T.Total(was[sources[0]]) <= T.Total(last)
        invariant Distinct(sources) ==> PassedAt(sources[..count], was, last)
      {
        ghost var before, made := last, calls;
        var ready;
        ready, last := InvokeIfReady(sources[count]);
        PassedLater(sources[..count], was, before, last);
        NotBefore(sources, count);
        if !ready {
          break;
        }
        OneMore(old(calls), made, calls, sources, count, was, last);
        count := count + 1;
      }
      if Distinct(sources) {
        ScanExact(sources, was, count, last);
      }
    }

    /**
     * The scan of `pka_source_simple_shared_worker`. It invokes the first `count` sources of the list, one after the
     * other; `last` is the clock reading that ended it. It invokes none if and only if the head is not due. While no
     * source is listed twice, the sources it invokes are exactly those whose deadlines had passed at that reading.
     */
    method Scan() returns (count: nat, last: T.Timespec)
      requires Valid()
      modifies this`sources, this`deadline, this`clock, this`calls
      ensures Valid() && multiset(sources) == multiset(old(sources))
      ensures count <= |old(sources)| && InvokedInTurn(old(calls), calls, old(sources)[..count])
      ensures forall id | id in deadline && id !in old(sources)[..count] ::
        id in old(deadline) && deadline[id] == old(deadline)[id]
      ensures count == 0 ==> sources == old(sources) && deadline == old(deadline) && calls == old(calls)
      ensures count == 0 <==> old(sources) == [] || T.Total(last) < T.Total(old(deadline)[old(sources)[0]])
      ensures Distinct(old(sources)) ==>
        forall id | id in old(sources) :: id in old(sources)[..count] <==> T.Total(old(deadline)[id]) <= T.Total(last)
    {
      hide Sorted, Distinct, InvokedInTurn, Spaced, Armed, T.Total, T.Add;
      count, last := InvokeReady();
      if count > 0 {
        Sort();
      }
    }

    method Sort()
      requires ValidUnsorted()
      modifies this`sources
      ensures Valid() && multiset(sources) == multiset(old(sources))
    {
      SortSorts(sources, deadline);
      SameMembers(sources, SortByDeadline(sources, deadline));
      sources := SortByDeadline(sources, deadline);
    }

    /**
     * What the worker waits for before it scans: the least deadline; with no source, only to be woken. A timed wait for
     * a full second of nanoseconds is refused before the mutex is given up.
     */
    method NextWait() returns (until: Option<T.Timespec>, accepted: bool)
      requires Valid()
      ensures sources == [] <==> until == None
      ensures until.Some? ==> forall id | id in sources :: T.Total(until.value) <= T.Total(deadline[id])
      ensures until.Some? ==> until.value == deadline[sources[0]]
      ensures accepted <==> (until.Some? ==> until.value.nsec != T.NSEC_PER_SEC)
    {
      if |sources| == 0 {
        return None, true;
      }
      HeadIsLeast(sources, deadline);
      var d := deadline[sources[0]];
      until, accepted := Some(d), 0 <= d.nsec < T.NSEC_PER_SEC;
    }

    /**
     * The worker once around its loop. `released` says whether it gave up the mutex on the way. If it did not, and the
     * head is not due yet, nothing has changed and it goes around again.
     */
    method Turn() returns (released: bool, count: nat, last: T.Timespec)
      requires Valid()
      modifies this`sources, this`deadline, this`clock, this`calls
      ensures Valid() && multiset(sources) == multiset(old(sources))
      ensures released <==> (old(sources) != [] ==> T.Normal(old(deadline)[old(sources)[0]]))
      ensures count == 0 <==> old(sources) == [] || T.Total(last) < T.Total(old(deadline)[old(sources)[0]])
      ensures count == 0 ==> sources == old(sources) && deadline == old(deadline) && calls == old(calls)
    {
      var until;
      until, released := NextWait();
      count, last := Scan();
    }

    /** Whatever was done with the worker, `k` invocations of a source span at least `k - 1` times its frequency. */
    lemma RateHolds(id: SourceId, f: nat)
      requires Valid() && forall i | 0 <= i < |calls| && calls[i].source == id :: calls[i].freq >= f
      ensures var t := TimesOf(calls, id); t != [] ==> t[|t| - 1] - t[0] >= (|t| - 1) * f
    {
      RateBound(calls, id, f);
    }

    /**
     * `pka_source_simple_set_frequency` stores seconds and microseconds unchecked. The worker stays valid if and only
     * if they make a normal time that is not negative.
     */
    method SetFrequency(id: SourceId, sec: int, usec: int)
      requires Valid() && id in deadline
      modifies this`freq
      ensures freq == old(freq)[id := T.Timespec(sec, usec * 1000)]
      ensures Valid() <==> sec >= 0 && 0 <= usec < T.USEC_PER_SEC
    {
      var f := T.Timespec(sec, usec * 1000);
      assert T.Normal(f) && T.Total(f) >= 0 <==> sec >= 0 && 0 <= usec < T.USEC_PER_SEC;
      freq := freq[id := f];
      assert freq[id] == f;
    }
  }

  lemma TotalOfParts(total: int)
    ensures T.Total(T.Timespec(total / T.NSEC_PER_SEC, total % T.NSEC_PER_SEC)) == total
  {
  }

  lemma SortedKnown(list: seq<SourceId>, d: Deadlines)
    requires Sorted(list, d)
    ensures AllKnown(list, d)
  {
    forall id | id in list ensures id in d {
      var i :| 0 <= i < |list| && list[i] == id;
      assert Ordered(d, list[i], list[i]);
    }
  }

  lemma SameMembers(a: seq<SourceId>, b: seq<SourceId>)
    requires multiset(a) == multiset(b)
    ensures forall id :: id in a <==> id in b
  {
    forall id ensures id in a <==> id in b {
      assert id in a <==> id in multiset(a);
      assert id in b <==> id in multiset(b);
    }
  }
}
