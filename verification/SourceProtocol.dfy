/**
 * Delivery of manifests and samples by a PkaSource, as steps between acquisitions of its readers-writer lock. One
 * thread publishes; any number of threads add and remove subscriptions. A section under the write lock is one step,
 * possible only while nobody reads. A section under the read lock is a step for each callback, and may interleave
 * with others.
 */
module SourceProtocol {
  import opened Options

  // Subscriptions, manifests and threads are told apart by their address.
  type Subscription = nat
  type Manifest = nat
  type Thread = nat

  /** Where the publishing thread is, in `pka_source_deliver_manifest` or `pka_source_deliver_sample`. */
  datatype Publisher =
    | Idle
    | Stored(manifest: Manifest)                // between the write section and the read section
    | Publishing(manifest: Manifest, next: nat) // in the read section, about to call subscriber `next`
    | Sampling(sample: nat, next: nat)

  /** Where a thread is in the second section of `pka_source_add_subscription`. */
  datatype Adder =
    | Waiting(sub: Subscription, captured: Manifest) // about to take the read lock
    | Confirmed(sub: Subscription, captured: Manifest) // under the read lock, the manifest still matched

  /** A callback; `epoch` counts the manifests stored up to then. */
  datatype Event =
    | ManifestTo(sub: Subscription, manifest: Manifest, epoch: nat)
    | SampleTo(sub: Subscription, sample: nat, under: Option<Manifest>, epoch: nat)

  /** The fields of the source, the threads inside it, and the history: manifests stored and callbacks made. */
  datatype State = State(manifest: Option<Manifest>, subs: seq<Subscription>, publisher: Publisher,
                         adders: map<Thread, Adder>, stored: seq<Manifest>, log: seq<Event>)

  const INITIAL := State(None, [], Idle, map[], [], [])

  datatype Action =
    | Store(manifest: Manifest)
    | BeginPublish
    | PublishNext
    | EndPublish
    | BeginSample(sample: nat)
    | SampleNext
    | EndSample
    | AddFirst(thread: Thread, sub: Subscription)
    | AddCheck(thread: Thread)
    | AddDeliver(thread: Thread)
    | Remove(sub: Subscription)

  /** Nobody holds the read lock. */
  predicate NoReaders(s: State) {
    !s.publisher.Publishing? && !s.publisher.Sampling? && forall t | t in s.adders :: s.adders[t].Waiting?
  }

  function IndexOf(subs: seq<Subscription>, sub: Subscription): nat
    requires sub in subs
    ensures IndexOf(subs, sub) < |subs| && subs[IndexOf(subs, sub)] == sub
  {
    if subs[0] == sub then 0 else 1 + IndexOf(subs[1..], sub)
  }

  /** `g_ptr_array_remove_fast`: the last element takes the place of the first match. */
  function RemoveFast(subs: seq<Subscription>, sub: Subscription): seq<Subscription> {
    if sub !in subs then subs else subs[IndexOf(subs, sub) := subs[|subs| - 1]][..|subs| - 1]
  }

  /** One step, or None when it cannot be taken. */
  function Step(s: State, a: Action): Option<State> {
    match a
    case Store(m) =>
      if s.publisher.Idle? && NoReaders(s)
      then Some(s.(manifest := Some(m), publisher := Stored(m), stored := s.stored + [m]))
      else None
    case BeginPublish =>
      if s.publisher.Stored? then Some(s.(publisher := Publishing(s.publisher.manifest, 0))) else None
    case PublishNext =>
      if s.publisher.Publishing? && s.publisher.next < |s.subs|
      then Some(s.(publisher := Publishing(s.publisher.manifest, s.publisher.next + 1),
                   log := s.log + [ManifestTo(s.subs[s.publisher.next], s.publisher.manifest, |s.stored|)]))
      else None
    case EndPublish =>
      if s.publisher.Publishing? && s.publisher.next >= |s.subs| then Some(s.(publisher := Idle)) else None
    case BeginSample(x) =>
      if s.publisher.Idle? then Some(s.(publisher := Sampling(x, 0))) else None
    case SampleNext =>
      if s.publisher.Sampling? && s.publisher.next < |s.subs|
      then Some(s.(publisher := Sampling(s.publisher.sample, s.publisher.next + 1),
                   log := s.log + [SampleTo(s.subs[s.publisher.next], s.publisher.sample, s.manifest, |s.stored|)]))
      else None
    case EndSample =>
      if s.publisher.Sampling? && s.publisher.next >= |s.subs| then Some(s.(publisher := Idle)) else None
    case AddFirst(t, sub) =>
      if t !in s.adders && NoReaders(s)
      then Some(s.(subs := s.subs + [sub],
                   adders := if s.manifest.None? then s.adders else s.adders[t := Waiting(sub, s.manifest.value)]))
      else None
    case AddCheck(t) =>
      if t in s.adders && s.adders[t].Waiting?
      then Some(s.(adders := if s.manifest == Some(s.adders[t].captured)
                             then s.adders[t := Confirmed(s.adders[t].sub, s.adders[t].captured)]
                             else s.adders - {t}))
      else None
    case AddDeliver(t) =>
      if t in s.adders && s.adders[t].Confirmed?
      then Some(s.(adders := s.adders - {t},
                   log := s.log + [ManifestTo(s.adders[t].sub, s.adders[t].captured, |s.stored|)]))
      else None
    case Remove(sub) =>
      if NoReaders(s) then Some(s.(subs := RemoveFast(s.subs, sub))) else None
  }

  function Run(s: State, actions: seq<Action>): Option<State>
    decreases |actions|
  {
    if actions == [] then Some(s)
    else
      var next := Step(s, actions[0]);
      if next.None? then None else Run(next.value, actions[1..])
  }

  // ---------------------------------------------------------------- what is kept

  /** The last manifest delivered to `sub`, with its epoch. */
  function LastTo(log: seq<Event>, sub: Subscription): Option<Event> {
    if log == [] then None
    else
      var e := log[|log| - 1];
      if e.ManifestTo? && e.sub == sub then Some(e) else LastTo(log[..|log| - 1], sub)
  }

  function Newest(stored: seq<Manifest>): Option<Manifest> {
    if stored == [] then None else Some(stored[|stored| - 1])
  }

  /** An event names the manifest that was the newest at its epoch. */
  predicate TrueEvent(stored: seq<Manifest>, e: Event) {
    e.epoch <= |stored|
    && match e
       case ManifestTo(_, m, epoch) => epoch > 0 && m == stored[epoch - 1]
       case SampleTo(_, _, under, epoch) => under == Newest(stored[..epoch])
  }

  predicate TrueLog(stored: seq<Manifest>, log: seq<Event>) {
    (forall i | 0 <= i < |log| :: TrueEvent(stored, log[i]))
    && (forall i, j | 0 <= i < j < |log| :: log[i].epoch <= log[j].epoch)
  }

  /** `sub` has been given the newest manifest, or there is none. */
  predicate UpToDate(stored: seq<Manifest>, log: seq<Event>, sub: Subscription) {
    stored == [] || (LastTo(log, sub).Some? && LastTo(log, sub).value.epoch == |stored|)
  }

  /** A delivery of the current manifest to `sub` is still to come from a thread that is adding it. */
  predicate BeingAdded(adders: map<Thread, Adder>, current: Option<Manifest>, sub: Subscription) {
    exists t :: t in adders && adders[t].sub == sub && current == Some(adders[t].captured)
  }

  /** The publisher will still come to place `i`. */
  predicate ToCome(p: Publisher, i: nat) {
    p.Stored? || (p.Publishing? && i >= p.next)
  }

  predicate Covered(s: State, i: nat)
    requires i < |s.subs|
  {
    UpToDate(s.stored, s.log, s.subs[i]) || ToCome(s.publisher, i) || BeingAdded(s.adders, s.manifest, s.subs[i])
  }

  /** While a section under the read lock is in progress, the manifest it works on is the current one. */
  predicate HeldCurrent(s: State) {
    && s.manifest == Newest(s.stored)
    && (s.publisher.Stored? || s.publisher.Publishing? ==> s.manifest == Some(s.publisher.manifest))
    && (forall t | t in s.adders && s.adders[t].Confirmed? :: s.manifest == Some(s.adders[t].captured))
  }

  predicate AllCovered(s: State) { forall i | 0 <= i < |s.subs| :: Covered(s, i) }

  predicate Inv(s: State) {
    HeldCurrent(s) && TrueLog(s.stored, s.log) && AllCovered(s)
  }

  lemma LastToAppend(log: seq<Event>, e: Event, sub: Subscription)
    ensures LastTo(log + [e], sub) == if e.ManifestTo? && e.sub == sub then Some(e) else LastTo(log, sub)
  {
    assert (log + [e])[..|log|] == log;
  }

  lemma AppendKeepsTruth(stored: seq<Manifest>, log: seq<Event>, e: Event)
    requires TrueLog(stored, log) && TrueEvent(stored, e) && e.epoch == |stored|
    ensures TrueLog(stored, log + [e])
  {
    hide TrueEvent;
    var t := log + [e];
    forall i | 0 <= i < |t| ensures t[i].epoch <= |stored| && TrueEvent(stored, t[i]) {
      EpochBound(stored, t[i]);
    }
  }

  lemma EpochBound(stored: seq<Manifest>, e: Event)
    ensures TrueEvent(stored, e) ==> e.epoch <= |stored|
  {
  }

  /** Storing a manifest keeps what was logged true of the longer history. */
  lemma StoreKeepsTruth(stored: seq<Manifest>, log: seq<Event>, m: Manifest)
    requires TrueLog(stored, log)
    ensures TrueLog(stored + [m], log)
  {
    forall i | 0 <= i < |log| ensures TrueEvent(stored + [m], log[i]) {
      assert TrueEvent(stored, log[i]);
      assert (stored + [m])[..log[i].epoch] == stored[..log[i].epoch];
    }
  }

  /** Appending a callback leaves who is up to date as it was, except that a manifest brings its receiver up to date. */
  lemma AppendUpToDate(stored: seq<Manifest>, log: seq<Event>, e: Event, sub: Subscription)
    requires e.epoch == |stored|
    ensures UpToDate(stored, log, sub) ==> UpToDate(stored, log + [e], sub)
    ensures e.ManifestTo? && e.sub == sub ==> UpToDate(stored, log + [e], sub)
  {
    LastToAppend(log, e, sub);
  }

  /** `RemoveFast` takes away exactly one occurrence. */
  lemma RemoveFastMultiset(subs: seq<Subscription>, sub: Subscription)
    ensures multiset(RemoveFast(subs, sub)) == multiset(subs) - multiset{sub}
  {
    if sub in subs {
      var n, i := |subs| - 1, IndexOf(subs, sub);
      var t := subs[i := subs[n]];
      assert t[..n] + [subs[n]] == t;
      TakeOut(multiset(subs), multiset(t), multiset(t[..n]), sub, subs[n]);
    } else {
      assert sub !in multiset(subs);
    }
  }

  lemma TakeOut(a: multiset<Subscription>, b: multiset<Subscription>, c: multiset<Subscription>,
                x: Subscription, y: Subscription)
    requires x in a && b == a - multiset{x} + multiset{y} && b == c + multiset{y}
    ensures c == a - multiset{x}
  {
    forall z ensures c[z] == (a - multiset{x})[z] {
      assert b[z] == c[z] + multiset{y}[z];
    }
  }

  lemma RemoveFastLength(subs: seq<Subscription>, sub: Subscription)
    ensures |RemoveFast(subs, sub)| == if sub in subs then |subs| - 1 else |subs|
  {
  }

  lemma RemoveFastMembers(subs: seq<Subscription>, sub: Subscription)
    ensures forall x | x in RemoveFast(subs, sub) :: x in subs
  {
  }

  // ---------------------------------------------------------------- every step keeps the invariant

  lemma StoreKeeps(s: State, m: Manifest)
    requires Inv(s) && Step(s, Store(m)).Some?
    ensures Inv(Step(s, Store(m)).value)
  {
    hide LastTo, TrueEvent, UpToDate, BeingAdded, TrueLog;
    StoreKeepsTruth(s.stored, s.log, m);
  }

  /** A callback of the publisher. */
  lemma NextKeeps(s: State, a: Action)
    requires a.PublishNext? || a.SampleNext?
    requires Inv(s) && Step(s, a).Some?
    ensures Inv(Step(s, a).value)
  {
    hide LastTo, UpToDate, TrueLog, BeingAdded;
    var t := Step(s, a).value;
    var e := t.log[|s.log|];
    assert t.log == s.log + [e];
    assert s.stored[..|s.stored|] == s.stored;
    AppendKeepsTruth(s.stored, s.log, e);
    forall i | 0 <= i < |t.subs| ensures Covered(t, i) {
      assert Covered(s, i);
      AppendUpToDate(s.stored, s.log, e, s.subs[i]);
    }
  }

  /** Entering and leaving the read sections of the publisher. */
  lemma TurnKeeps(s: State, a: Action)
    requires a.BeginPublish? || a.EndPublish? || a.BeginSample? || a.EndSample?
    requires Inv(s) && Step(s, a).Some?
    ensures Inv(Step(s, a).value)
  {
    hide LastTo, UpToDate, TrueLog, BeingAdded;
    var t := Step(s, a).value;
    forall i | 0 <= i < |t.subs| ensures Covered(t, i) {
      assert Covered(s, i);
    }
  }

  lemma AddFirstKeeps(s: State, a: Action)
    requires a.AddFirst? && Inv(s) && Step(s, a).Some?
    ensures Inv(Step(s, a).value)
  {
    hide LastTo, TrueLog;
    var t := Step(s, a).value;
    forall i | 0 <= i < |t.subs| ensures Covered(t, i) {
      if i < |s.subs| {
        assert Covered(s, i);
        BeingAddedMore(s.adders, t.adders, s.manifest, s.subs[i]);
      } else if s.manifest.Some? {
        assert a.thread in t.adders && t.adders[a.thread].sub == t.subs[i];
      }
    }
  }

  lemma BeingAddedMore(fewer: map<Thread, Adder>, more: map<Thread, Adder>, current: Option<Manifest>,
                       sub: Subscription)
    requires forall t | t in fewer :: t in more && more[t] == fewer[t]
    ensures BeingAdded(fewer, current, sub) ==> BeingAdded(more, current, sub)
  {
  }

  lemma AddCheckKeeps(s: State, a: Action)
    requires a.AddCheck? && Inv(s) && Step(s, a).Some?
    ensures Inv(Step(s, a).value)
  {
    hide LastTo, TrueLog, UpToDate;
    var t := Step(s, a).value;
    forall i | 0 <= i < |t.subs| ensures Covered(t, i) {
      assert Covered(s, i);
      if BeingAdded(s.adders, s.manifest, s.subs[i]) {
        var r :| r in s.adders && s.adders[r].sub == s.subs[i] && s.manifest == Some(s.adders[r].captured);
        assert r in t.adders && t.adders[r].sub == s.subs[i] && t.manifest == Some(t.adders[r].captured);
      }
    }
  }

  lemma AddDeliverKeeps(s: State, a: Action)
    requires a.AddDeliver? && Inv(s) && Step(s, a).Some?
    ensures Inv(Step(s, a).value)
  {
    hide LastTo, TrueLog, UpToDate;
    var t := Step(s, a).value;
    var e := ManifestTo(s.adders[a.thread].sub, s.adders[a.thread].captured, |s.stored|);
    AppendKeepsTruth(s.stored, s.log, e);
    forall i | 0 <= i < |t.subs| ensures Covered(t, i) {
      assert Covered(s, i);
      AppendUpToDate(s.stored, s.log, e, s.subs[i]);
      if s.subs[i] != e.sub && BeingAdded(s.adders, s.manifest, s.subs[i]) {
        var r :| r in s.adders && s.adders[r].sub == s.subs[i] && s.manifest == Some(s.adders[r].captured);
        assert r in t.adders && t.adders[r].sub == s.subs[i];
      }
    }
  }

  lemma RemoveKeeps(s: State, a: Action)
    requires a.Remove? && Inv(s) && Step(s, a).Some?
    ensures Inv(Step(s, a).value)
  {
    hide LastTo, TrueLog, UpToDate, BeingAdded, RemoveFast;
    var t := Step(s, a).value;
    RemoveFastMembers(s.subs, a.sub);
    forall i | 0 <= i < |t.subs| ensures Covered(t, i) {
      assert t.subs[i] in s.subs;
      var j :| 0 <= j < |s.subs| && s.subs[j] == t.subs[i];
      assert Covered(s, j);
    }
  }

  lemma StepKeeps(s: State, a: Action)
    requires Inv(s) && Step(s, a).Some?
    ensures Inv(Step(s, a).value)
  {
    hide Inv, Step;
    match a
    case Store(m) => StoreKeeps(s, m);
    case PublishNext => NextKeeps(s, a);
    case SampleNext => NextKeeps(s, a);
    case AddFirst(_, _) => AddFirstKeeps(s, a);
    case AddCheck(_) => AddCheckKeeps(s, a);
    case AddDeliver(_) => AddDeliverKeeps(s, a);
    case Remove(_) => RemoveKeeps(s, a);
    case _ => TurnKeeps(s, a);
  }

  /** The invariant holds in every state that any interleaving of steps can reach. */
  lemma {:induction false} RunKeeps(s: State, actions: seq<Action>)
    requires Inv(s) && Run(s, actions).Some?
    ensures Inv(Run(s, actions).value)
    decreases |actions|
  {
    hide Inv, Step;
    if actions != [] {
      StepKeeps(s, actions[0]);
      RunKeeps(Step(s, actions[0]).value, actions[1..]);
    }
  }

  lemma InitiallyTrue()
    ensures Inv(INITIAL)
  {
  }

  // ---------------------------------------------------------------- what a subscriber sees

  /** A state that some interleaving reaches. */
  predicate Reaches(actions: seq<Action>, s: State) { Run(INITIAL, actions) == Some(s) }

  /**
   * Every manifest is delivered while it is the current one, so that the manifests a subscriber sees never go back
   * in the order in which they were stored.
   */
  lemma ManifestsNeverGoBack(actions: seq<Action>, s: State, i: nat, j: nat)
    requires Reaches(actions, s) && i <= j < |s.log|
    requires s.log[i].ManifestTo? && s.log[j].ManifestTo?
    ensures 0 < s.log[i].epoch <= s.log[j].epoch <= |s.stored|
    ensures s.log[i].manifest == s.stored[s.log[i].epoch - 1]
    ensures s.log[j].manifest == s.stored[s.log[j].epoch - 1]
  {
    hide Step;
    InitiallyTrue();
    RunKeeps(INITIAL, actions);
    assert TrueEvent(s.stored, s.log[i]) && TrueEvent(s.stored, s.log[j]);
  }

  /** A delivery step hands over the manifest that the source holds at that moment. */
  lemma DeliveryIsCurrent(actions: seq<Action>, s: State, a: Action)
    requires Reaches(actions, s) && Step(s, a).Some?
    requires a.PublishNext? || a.AddDeliver?
    ensures var log := Step(s, a).value.log;
      |log| == |s.log| + 1 && log[|s.log|].ManifestTo? && s.manifest == Some(log[|s.log|].manifest)
  {
    hide Run, LastTo, TrueLog, UpToDate;
    InitiallyTrue();
    RunKeeps(INITIAL, actions);
  }

  /** The manifest that `sub` was given last. */
  function LastManifest(log: seq<Event>, sub: Subscription): Option<Manifest> {
    var e := LastTo(log, sub);
    if e.Some? && e.value.ManifestTo? then Some(e.value.manifest) else None
  }

  lemma {:induction false} LastToIn(log: seq<Event>, sub: Subscription)
    ensures LastTo(log, sub).Some? ==> LastTo(log, sub).value in log && LastTo(log, sub).value.ManifestTo?
  {
    if log != [] {
      LastToIn(log[..|log| - 1], sub);
    }
  }

  /** Being up to date is having the manifest that the source holds. */
  lemma UpToDateHasCurrent(s: State, sub: Subscription)
    requires Inv(s) && UpToDate(s.stored, s.log, sub)
    ensures LastManifest(s.log, sub) == s.manifest
  {
    hide LastTo, AllCovered;
    LastToIn(s.log, sub);
    var e := LastTo(s.log, sub);
    if e.Some? {
      assert TrueEvent(s.stored, e.value);
    }
  }

  /** Nobody is adding `sub` at the moment. */
  predicate NotBeingAdded(s: State, sub: Subscription) {
    forall t | t in s.adders :: s.adders[t].sub != sub
  }

  /** Once nothing is being published and `sub` is not being added, an attached `sub` has the source's manifest. */
  lemma QuietMeansCurrent(actions: seq<Action>, s: State, sub: Subscription)
    requires Reaches(actions, s) && sub in s.subs && NotBeingAdded(s, sub)
    requires s.publisher.Idle? || s.publisher.Sampling?
    ensures LastManifest(s.log, sub) == s.manifest
  {
    hide Run, LastTo, TrueLog;
    InitiallyTrue();
    RunKeeps(INITIAL, actions);
    var i :| 0 <= i < |s.subs| && s.subs[i] == sub;
    assert Covered(s, i);
    UpToDateHasCurrent(s, sub);
  }

  /** A sample is encoded against the last manifest delivered to its receiver, unless that one is still being added. */
  lemma SampleUnderLastManifest(actions: seq<Action>, s: State)
    requires Reaches(actions, s) && Step(s, SampleNext).Some?
    requires NotBeingAdded(s, s.subs[s.publisher.next])
    ensures var e := Step(s, SampleNext).value.log[|s.log|];
      e.SampleTo? && e.sub == s.subs[s.publisher.next] && e.under == LastManifest(s.log, e.sub)
  {
    hide Run, LastTo;
    QuietMeansCurrent(actions, s, s.subs[s.publisher.next]);
  }

  /** What `sub` has been given, in order. */
  function EventsTo(log: seq<Event>, sub: Subscription): seq<Event> {
    if log == [] then []
    else EventsTo(log[..|log| - 1], sub) + if log[|log| - 1].sub == sub then [log[|log| - 1]] else []
  }

  predicate Detached(s: State, sub: Subscription) { sub !in s.subs && NotBeingAdded(s, sub) }

  function Occurrences(subs: seq<Subscription>, sub: Subscription): nat { multiset(subs)[sub] }

  /** A call to remove `sub` while nobody adds it detaches it, if and only if it was in the list at most once. */
  lemma RemoveDetaches(s: State, sub: Subscription)
    requires Step(s, Remove(sub)).Some? && NotBeingAdded(s, sub)
    ensures Detached(Step(s, Remove(sub)).value, sub) <==> Occurrences(s.subs, sub) <= 1
  {
    hide RemoveFast;
    RemoveFastMultiset(s.subs, sub);
    var t := RemoveFast(s.subs, sub);
    assert Occurrences(t, sub) == if Occurrences(s.subs, sub) == 0 then 0 else Occurrences(s.subs, sub) - 1;
    assert sub in t <==> sub in multiset(t);
  }

  lemma StepDetached(s: State, a: Action, sub: Subscription)
    requires Detached(s, sub) && Step(s, a).Some? && !(a.AddFirst? && a.sub == sub)
    ensures Detached(Step(s, a).value, sub)
    ensures EventsTo(Step(s, a).value.log, sub) == EventsTo(s.log, sub)
  {
    hide RemoveFast;
    if a.Remove? {
      RemoveFastMembers(s.subs, a.sub);
    }
    var log := Step(s, a).value.log;
    assert log == s.log || (|log| == |s.log| + 1 && log[..|log| - 1] == s.log);
  }

  /** From then on, and until it is added again, it receives nothing more from this source. */
  lemma {:induction false} NothingAfterRemove(s: State, actions: seq<Action>, sub: Subscription)
    requires Detached(s, sub) && Run(s, actions).Some?
    requires forall a | a in actions :: !(a.AddFirst? && a.sub == sub)
    ensures Detached(Run(s, actions).value, sub)
    ensures EventsTo(Run(s, actions).value.log, sub) == EventsTo(s.log, sub)
    decreases |actions|
  {
    hide Step, Detached, EventsTo;
    if actions != [] {
      StepDetached(s, actions[0], sub);
      NothingAfterRemove(Step(s, actions[0]).value, actions[1..], sub);
    }
  }

  // ---------------------------------------------------------------- what each section achieves

  /** No section under the read lock is in progress. */
  predicate Unread(s: State) {
    (s.publisher.Idle? || s.publisher.Stored?) && forall t | t in s.adders :: s.adders[t].Waiting?
  }

  /**
   * When and with what effect the sections under the write lock run. They wait for the read sections, and for nothing
   * else; only the thread that publishes stores a manifest, and a thread adds one subscription at a time.
   */
  lemma WriteSections(s: State, m: Manifest, t: Thread, sub: Subscription)
    ensures Step(s, Store(m)).Some? <==> Unread(s) && s.publisher.Idle?
    ensures Unread(s) && s.publisher.Idle? ==>
      Step(s, Store(m)).value == s.(manifest := Some(m), stored := s.stored + [m], publisher := Stored(m))
    ensures Step(s, Remove(sub)).Some? <==> Unread(s)
    ensures Unread(s) ==> Step(s, Remove(sub)).value == s.(subs := RemoveFast(s.subs, sub))
    ensures Step(s, AddFirst(t, sub)).Some? <==> Unread(s) && t !in s.adders
    ensures Unread(s) && t !in s.adders ==>
      Step(s, AddFirst(t, sub)).value
      == s.(subs := s.subs + [sub],
            adders := if s.manifest.Some? then s.adders[t := Waiting(sub, s.manifest.value)] else s.adders)
  {
  }

  /** The samples among the callbacks. */
  function SamplesOf(log: seq<Event>): seq<Event> {
    if log == [] then []
    else SamplesOf(log[..|log| - 1]) + if log[|log| - 1].SampleTo? then [log[|log| - 1]] else []
  }

  /** The callbacks of sample `x` to the first `n` of the subscribers. */
  function SampleToEach(s: State, x: nat, n: nat): seq<Event>
    requires n <= |s.subs|
  {
    seq(n, i requires 0 <= i < n => SampleTo(s.subs[i], x, s.manifest, |s.stored|))
  }

  /** In the read section that began at `s`, the callbacks made so far are those to the subscribers passed. */
  predicate InSample(s: State, x: nat, t: State) {
    && t.publisher.Sampling? && t.publisher.sample == x && t.publisher.next <= |s.subs|
    && t.subs == s.subs && t.manifest == s.manifest && t.stored == s.stored && s.log <= t.log
    && SamplesOf(t.log[|s.log|..]) == SampleToEach(s, x, t.publisher.next)
  }

  lemma SamplesAppend(log: seq<Event>, from: nat, e: Event)
    requires from <= |log|
    ensures SamplesOf((log + [e])[from..]) == SamplesOf(log[from..]) + if e.SampleTo? then [e] else []
  {
    var tail := log[from..];
    assert (log + [e])[from..] == tail + [e];
    assert (tail + [e])[..|tail|] == tail;
  }

  lemma SampleStep(s: State, x: nat, t: State, a: Action)
    requires InSample(s, x, t) && Step(t, a).Some? && !a.EndSample?
    ensures InSample(s, x, Step(t, a).value)
  {
    hide SamplesOf;
    var u := Step(t, a).value;
    if |u.log| == |t.log| + 1 {
      SamplesAppend(t.log, |s.log|, u.log[|t.log|]);
    }
    if a.SampleNext? {
      assert SampleToEach(s, x, t.publisher.next + 1)
          == SampleToEach(s, x, t.publisher.next) + [SampleTo(s.subs[t.publisher.next], x, s.manifest, |s.stored|)];
    }
  }

  lemma {:induction false} SampleRun(s: State, x: nat, t: State, actions: seq<Action>)
    requires InSample(s, x, t) && Run(t, actions).Some? && forall a | a in actions :: !a.EndSample?
    ensures InSample(s, x, Run(t, actions).value)
    decreases |actions|
  {
    hide Step, InSample;
    if actions != [] {
      SampleStep(s, x, t, actions[0]);
      SampleRun(s, x, Step(t, actions[0]).value, actions[1..]);
    }
  }

  /**
   * Whatever other threads do while a sample is delivered: when its section ends, the samples handed over since it
   * began are that sample, once for each place in the list of subscribers, in order, under the manifest held then. The
   * list and the manifest are as at the beginning.
   */
  lemma SampleReachesAll(s: State, x: nat, actions: seq<Action>, t: State)
    requires Step(s, BeginSample(x)).Some? && forall a | a in actions :: !a.EndSample?
    requires Run(Step(s, BeginSample(x)).value, actions) == Some(t) && Step(t, EndSample).Some?
    ensures var u := Step(t, EndSample).value;
      && u.publisher.Idle? && u.subs == s.subs && u.manifest == s.manifest && s.log <= u.log
      && SamplesOf(u.log[|s.log|..])
         == seq(|s.subs|, i requires 0 <= i < |s.subs| => SampleTo(s.subs[i], x, s.manifest, |s.stored|))
  {
    hide Run;
    assert s.log[|s.log|..] == [];
    SampleRun(s, x, Step(s, BeginSample(x)).value, actions);
  }

  /** Nobody is inside the source. */
  predicate Settled(s: State) { s.publisher.Idle? && s.adders == map[] }

  lemma {:induction false} PublisherLeaves(s: State) returns (actions: seq<Action>)
    requires s.publisher.Publishing? || s.publisher.Sampling?
    ensures var t := Run(s, actions);
      t.Some? && t.value.publisher.Idle? && t.value.subs == s.subs && t.value.adders == s.adders
    decreases |s.subs| - s.publisher.next
  {
    if s.publisher.next >= |s.subs| {
      actions := [if s.publisher.Sampling? then EndSample else EndPublish];
      RunOne(s, actions[0]);
    } else {
      var a := if s.publisher.Sampling? then SampleNext else PublishNext;
      var rest := PublisherLeaves(Step(s, a).value);
      RunFirst(s, a, rest);
      actions := [a] + rest;
    }
  }

  lemma {:induction false} AddersLeave(s: State) returns (actions: seq<Action>)
    requires s.publisher.Idle?
    ensures var t := Run(s, actions); t.Some? && Settled(t.value) && t.value.subs == s.subs
    decreases |s.adders|
  {
    if s.adders == map[] {
      actions := [];
    } else {
      var t: Thread :| t in s.adders;
      var a := if s.adders[t].Waiting? then AddCheck(t) else AddDeliver(t);
      var next := Step(s, a).value;
      if t in next.adders {
        var last := Step(next, AddDeliver(t)).value;
        var rest := AddersLeave(last);
        RunFirst(next, AddDeliver(t), rest);
        RunFirst(s, a, [AddDeliver(t)] + rest);
        actions := [a] + ([AddDeliver(t)] + rest);
      } else {
        var rest := AddersLeave(next);
        RunFirst(s, a, rest);
        actions := [a] + rest;
      }
    }
  }

  lemma {:induction false} RunInTwo(s: State, first: seq<Action>, second: seq<Action>)
    requires Run(s, first).Some?
    ensures Run(s, first + second) == Run(Run(s, first).value, second)
    decreases |first|
  {
    hide Step;
    if first == [] {
      assert first + second == second;
    } else {
      assert (first + second)[1..] == first[1..] + second;
      RunInTwo(Step(s, first[0]).value, first[1..], second);
    }
  }

  /**
   * No interleaving is a dead end: all threads inside the source can finish. Then each of its subscribers has the
   * manifest that it holds, and any call can be made.
   */
  lemma AllCanFinish(actions: seq<Action>, s: State) returns (more: seq<Action>)
    requires Reaches(actions, s)
    ensures var t := Run(s, more);
      && t.Some? && Settled(t.value) && t.value.subs == s.subs
      && (forall sub | sub in t.value.subs :: LastManifest(t.value.log, sub) == t.value.manifest)
      && forall a: Action | a.Store? || a.BeginSample? || a.AddFirst? || a.Remove? :: Step(t.value, a).Some?
  {
    hide Run, LastTo;
    var begin := if s.publisher.Stored? then [BeginPublish] else [];
    if s.publisher.Stored? {
      RunOne(s, BeginPublish);
    } else {
      RunNothing(s);
    }
    var s1 := Run(s, begin).value;
    var finish: seq<Action> := [];
    if s1.publisher.Idle? {
      RunNothing(s1);
    } else {
      finish := PublisherLeaves(s1);
    }
    var s2 := Run(s1, finish).value;
    var leave := AddersLeave(s2);
    RunInTwo(s1, finish, leave);
    RunInTwo(s, begin, finish + leave);
    more := begin + (finish + leave);
    var t := Run(s, more).value;
    RunInTwo(INITIAL, actions, more);
    forall sub | sub in t.subs ensures LastManifest(t.log, sub) == t.manifest {
      QuietMeansCurrent(actions + more, t, sub);
    }
  }

  lemma RunNothing(s: State)
    ensures Run(s, []) == Some(s)
  {
  }

  // ---------------------------------------------------------------- what is not kept

  /** Any source that holds a manifest and has no reader. */
  predicate Quiet(s: State) { s.publisher.Idle? && s.manifest.Some? && s.adders == map[] && s.subs == [] }

  /** Such a source is reached by publishing a manifest before anyone subscribes. */
  lemma QuietIsReached(m: Manifest)
    ensures var s := INITIAL.(manifest := Some(m), stored := [m]);
      Reaches([Store(m), BeginPublish, EndPublish], s) && Quiet(s) && forall sub :: LastManifest(s.log, sub) == None
  {
    hide Run;
    RunOfThree(INITIAL, Store(m), BeginPublish, EndPublish);
    assert [] + [m] == [m];
  }

  /** While an add is between its two sections, a sample can reach the subscriber before its first manifest. */
  lemma SampleCanComeFirst(s: State, t: Thread, sub: Subscription, sample: nat)
    requires Quiet(s) && LastManifest(s.log, sub) == None
    ensures var run := Run(s, [AddFirst(t, sub), BeginSample(sample), SampleNext]);
      && run.Some? && run.value.log == s.log + [SampleTo(sub, sample, s.manifest, |s.stored|)]
      && LastManifest(run.value.log, sub) == None
  {
    hide LastTo;
    var s1 := Step(s, AddFirst(t, sub)).value;
    var s2 := Step(s1, BeginSample(sample)).value;
    var s3 := Step(s2, SampleNext).value;
    RunOfThree(s, AddFirst(t, sub), BeginSample(sample), SampleNext);
    LastToAppend(s.log, s3.log[|s.log|], sub);
  }

  lemma RunOfThree(s: State, a: Action, b: Action, c: Action)
    requires Step(s, a).Some? && Step(Step(s, a).value, b).Some?
    ensures Run(s, [a, b, c]) == Step(Step(Step(s, a).value, b).value, c)
  {
    hide Step;
    RunOne(Step(Step(s, a).value, b).value, c);
    RunFirst(Step(s, a).value, b, [c]);
    RunFirst(s, a, [b, c]);
    assert [a] + [b, c] == [a, b, c] && [b] + [c] == [b, c];
  }

  lemma RunOne(s: State, a: Action)
    ensures Run(s, [a]) == Step(s, a)
  {
    hide Step;
    if Step(s, a).Some? {
      assert Run(Step(s, a).value, [a][1..]) == Step(s, a);
    }
  }

  lemma RunFirst(s: State, a: Action, rest: seq<Action>)
    requires Step(s, a).Some?
    ensures Run(s, [a] + rest) == Run(Step(s, a).value, rest)
  {
    hide Step;
    assert ([a] + rest)[1..] == rest;
  }

  lemma {:induction false} RunThen(s: State, actions: seq<Action>, a: Action)
    requires Run(s, actions).Some?
    ensures Run(s, actions + [a]) == Step(Run(s, actions).value, a)
    decreases |actions|
  {
    hide Step;
    if actions == [] {
      RunOne(s, a);
      assert actions + [a] == [a];
    } else {
      assert (actions + [a])[1..] == actions[1..] + [a];
      RunThen(Step(s, actions[0]).value, actions[1..], a);
    }
  }

  lemma RemoveOnly(sub: Subscription)
    ensures RemoveFast([sub], sub) == []
  {
    RemoveFastLength([sub], sub);
  }

  /** While an add is pending, its manifest can arrive after a call that removed the subscriber has returned. */
  lemma ManifestCanComeAfterRemove(s: State, t: Thread, sub: Subscription)
    requires Quiet(s)
    ensures var added := Step(s, AddFirst(t, sub));
      && added.Some?
      && var run := Run(added.value, [Remove(sub), AddCheck(t), AddDeliver(t)]);
      run.Some? && sub !in run.value.subs && run.value.log == s.log + [ManifestTo(sub, s.manifest.value, |s.stored|)]
  {
    hide Run, RemoveFast;
    RemoveOnly(sub);
    var m := s.manifest.value;
    var s1 := s.(subs := [sub], adders := s.adders[t := Waiting(sub, m)]);
    assert Step(s, AddFirst(t, sub)) == Some(s1) by { assert s.subs + [sub] == [sub]; }
    var s2 := s1.(subs := []);
    assert Step(s1, Remove(sub)) == Some(s2);
    var s3 := s2.(adders := s2.adders[t := Confirmed(sub, m)]);
    assert Step(s2, AddCheck(t)) == Some(s3);
    RunOfThree(s1, Remove(sub), AddCheck(t), AddDeliver(t));
  }
}
