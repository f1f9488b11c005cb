/**
 * The bookkeeping of a PkaSubscription: the tree of sources it tracks, against how often the sources' own lists of
 * subscribers hold it. The tree is a set, and the lists are not.
 */
module Subscriptions {
  import P = SourceProtocol
  import L = Lifecycle
  import S = Sources

  type ChannelId = L.ChannelId
  type SourceId = L.SourceId

  /**
   * `hooks` counts the connections to a channel's "source-added" signal; `held` how often the list of each source holds
   * the subscription, and so how many copies of each delivery of the source it gets.
   */
  datatype Book = Book(channels: set<ChannelId>, tracked: set<SourceId>, hooks: multiset<ChannelId>,
                       held: multiset<SourceId>)

  datatype Step =
    | AddSource(source: SourceId)
    | RemoveSource(source: SourceId)
    | AddChannel(channel: ChannelId, sources: seq<SourceId>)    // with the channel's sources at the time
    | RemoveChannel(channel: ChannelId, sources: seq<SourceId>)
    | SourceAdded(channel: ChannelId, source: SourceId)         // the channel gets a source

  function Add(b: Book, id: SourceId): Book { b.(tracked := b.tracked + {id}, held := b.held + multiset{id}) }

  function Remove(b: Book, id: SourceId): Book { b.(tracked := b.tracked - {id}, held := b.held - multiset{id}) }

  function AddEach(b: Book, ids: seq<SourceId>): Book
    decreases |ids|
  {
    if ids == [] then b else AddEach(Add(b, ids[0]), ids[1..])
  }

  function RemoveEach(b: Book, ids: seq<SourceId>): Book
    decreases |ids|
  {
    if ids == [] then b else RemoveEach(Remove(b, ids[0]), ids[1..])
  }

  function Take(b: Book, s: Step): Book {
    match s
    case AddSource(id) => Add(b, id)
    case RemoveSource(id) => Remove(b, id)
    case AddChannel(c, ids) => AddEach(b.(channels := b.channels + {c}, hooks := b.hooks + multiset{c}), ids)
    case RemoveChannel(c, ids) =>
      var r := RemoveEach(b.(hooks := b.hooks[c := 0]), ids);
      r.(channels := r.channels - {c})
    case SourceAdded(c, id) => AddEach(b, seq(b.hooks[c], _ => id))
  }

  function Members(ids: seq<SourceId>): set<SourceId> { set id | id in ids }

  lemma {:induction false} AddEachAll(b: Book, ids: seq<SourceId>)
    ensures AddEach(b, ids) == b.(tracked := b.tracked + Members(ids), held := b.held + multiset(ids))
    decreases |ids|
  {
    if ids == [] {
      assert b.tracked + Members(ids) == b.tracked;
    } else {
      AddEachAll(Add(b, ids[0]), ids[1..]);
      assert ids == [ids[0]] + ids[1..];
      assert b.tracked + {ids[0]} + Members(ids[1..]) == b.tracked + Members(ids);
    }
  }

  lemma InTurn(held: multiset<SourceId>, tracked: set<SourceId>, ids: seq<SourceId>)
    requires ids != []
    ensures held - multiset{ids[0]} - multiset(ids[1..]) == held - multiset(ids)
    ensures tracked - {ids[0]} - Members(ids[1..]) == tracked - Members(ids)
  {
    var rest := ids[1..];
    assert ids == [ids[0]] + rest;
    assert multiset(ids) == multiset{ids[0]} + multiset(rest);
    assert Members(ids) == {ids[0]} + Members(rest);
  }

  lemma {:induction false} RemoveEachAll(b: Book, ids: seq<SourceId>)
    ensures RemoveEach(b, ids) == b.(tracked := b.tracked - Members(ids), held := b.held - multiset(ids))
    decreases |ids|
  {
    if ids == [] {
      assert b.tracked - Members(ids) == b.tracked;
    } else {
      hide Members;
      RemoveEachAll(Remove(b, ids[0]), ids[1..]);
      InTurn(b.held, b.tracked, ids);
    }
  }

  /** What each step adds to and takes from the books. A new source of a channel is added once for each connection. */
  lemma StepsMean(b: Book, c: ChannelId, id: SourceId, ids: seq<SourceId>)
    ensures Take(b, AddSource(id)) == Book(b.channels, b.tracked + {id}, b.hooks, b.held + multiset{id})
    ensures Take(b, RemoveSource(id)) == Book(b.channels, b.tracked - {id}, b.hooks, b.held - multiset{id})
    ensures Take(b, AddChannel(c, ids))
      == Book(b.channels + {c}, b.tracked + (set x | x in ids), b.hooks + multiset{c}, b.held + multiset(ids))
    ensures Take(b, RemoveChannel(c, ids))
      == Book(b.channels - {c}, b.tracked - (set x | x in ids), b.hooks[c := 0], b.held - multiset(ids))
    ensures Take(b, SourceAdded(c, id))
      == Book(b.channels, if b.hooks[c] == 0 then b.tracked else b.tracked + {id}, b.hooks,
              b.held[id := b.held[id] + b.hooks[c]])
  {
    AddEachAll(b.(channels := b.channels + {c}, hooks := b.hooks + multiset{c}), ids);
    RemoveEachAll(b.(hooks := b.hooks[c := 0]), ids);
    AddedOften(b, id, b.hooks[c]);
  }

  lemma {:induction false} AddedOften(b: Book, id: SourceId, n: nat)
    ensures AddEach(b, seq(n, _ => id))
      == b.(tracked := if n == 0 then b.tracked else b.tracked + {id}, held := b.held[id := b.held[id] + n])
    decreases n
  {
    var ids := seq(n, _ => id);
    if n == 0 {
      assert ids == [];
    } else {
      assert ids[1..] == seq(n - 1, _ => id);
      AddedOften(Add(b, id), id, n - 1);
    }
  }

  // ---------------------------------------------------------------- the books balance

  /** The lists of the tracked sources hold the subscription once, and no others do. */
  predicate Exact(b: Book) { b.held == multiset(b.tracked) }

  predicate OnceEach(ids: seq<SourceId>) { multiset(ids) == multiset(Members(ids)) }

  /** The step adds nothing that is tracked already, and a new source of a channel is announced at most once. */
  predicate Fresh(b: Book, s: Step) {
    match s
    case AddSource(id) => id !in b.tracked
    case RemoveSource(_) => true
    case AddChannel(_, ids) => Members(ids) !! b.tracked
    case RemoveChannel(_, _) => true
    case SourceAdded(c, id) => b.hooks[c] == 0 || (b.hooks[c] == 1 && id !in b.tracked)
  }

  /** A channel lists each of its sources once. */
  predicate Sane(s: Step) { s.AddChannel? || s.RemoveChannel? ==> OnceEach(s.sources) }

  lemma SumOfSets(a: set<SourceId>, b: set<SourceId>)
    ensures multiset(a) + multiset(b) == multiset(a + b) <==> a !! b
    ensures multiset(a) - multiset(b) == multiset(a - b)
  {
    if multiset(a) + multiset(b) == multiset(a + b) {
      forall x ensures !(x in a && x in b) {
        assert (multiset(a) + multiset(b))[x] == multiset(a + b)[x];
      }
    }
  }

  /** A step keeps the books exact if and only if it is fresh. */
  lemma StepExact(b: Book, s: Step)
    requires Exact(b) && Sane(s)
    ensures Exact(Take(b, s)) <==> Fresh(b, s)
  {
    match s
    case AddSource(id) =>
      SumOfSets(b.tracked, {id});
      assert multiset({id}) == multiset{id};
    case RemoveSource(id) =>
      SumOfSets(b.tracked, {id});
      assert multiset({id}) == multiset{id};
    case AddChannel(c, ids) =>
      AddEachAll(b.(channels := b.channels + {c}, hooks := b.hooks + multiset{c}), ids);
      SumOfSets(b.tracked, Members(ids));
    case RemoveChannel(c, ids) =>
      RemoveEachAll(b.(hooks := b.hooks[c := 0]), ids);
      SumOfSets(b.tracked, Members(ids));
    case SourceAdded(c, id) =>
      Announced(b, id, b.hooks[c]);
  }

  lemma Announced(b: Book, id: SourceId, n: nat)
    requires Exact(b)
    ensures Exact(AddEach(b, seq(n, _ => id))) <==> n == 0 || (n == 1 && id !in b.tracked)
  {
    var ids := seq(n, _ => id);
    AddEachAll(b, ids);
    CountSame(id, n);
    assert n > 0 ==> id == ids[0] && id in Members(ids);
    var after := AddEach(b, ids);
    assert after.held[id] == b.held[id] + n;
    if n == 1 {
      assert ids == [id] && Members(ids) == {id};
      SumOfSets(b.tracked, {id});
      assert multiset({id}) == multiset(ids);
    } else if n == 0 {
      assert ids == [];
    } else {
      assert multiset(after.tracked)[id] == 1;
    }
  }

  lemma {:induction false} CountSame(id: SourceId, n: nat)
    ensures multiset(seq(n, _ => id))[id] == n
  {
    if n > 0 {
      CountSame(id, n - 1);
      assert seq(n, _ => id) == seq(n - 1, _ => id) + [id];
    }
  }

  function Run(b: Book, steps: seq<Step>): Book
    decreases |steps|
  {
    if steps == [] then b else Run(Take(b, steps[0]), steps[1..])
  }

  predicate AllFresh(b: Book, steps: seq<Step>)
    decreases |steps|
  {
    steps == [] || (Sane(steps[0]) && Fresh(b, steps[0]) && AllFresh(Take(b, steps[0]), steps[1..]))
  }

  lemma {:induction false} RunExact(b: Book, steps: seq<Step>)
    requires Exact(b) && AllFresh(b, steps)
    ensures Exact(Run(b, steps))
    decreases |steps|
  {
    hide Exact, Take, Fresh;
    if steps != [] {
      StepExact(b, steps[0]);
      RunExact(Take(b, steps[0]), steps[1..]);
    }
  }

  /** After removing a source the subscription no longer tracks it; it is rid of it only if it had it at most once. */
  lemma RemovedStillHeld(b: Book, id: SourceId)
    ensures id !in Remove(b, id).tracked
    ensures id !in Remove(b, id).held <==> b.held[id] <= 1
  {
  }

  /** Removing a channel undoes adding it if and only if neither it nor any of its sources was there before. */
  lemma ChannelRoundTrip(b: Book, c: ChannelId, ids: seq<SourceId>)
    ensures Take(Take(b, AddChannel(c, ids)), RemoveChannel(c, ids)) == b
      <==> c !in b.channels && b.hooks[c] == 0 && Members(ids) !! b.tracked
  {
    hide Members;
    AddEachAll(b.(channels := b.channels + {c}, hooks := b.hooks + multiset{c}), ids);
    var added := Take(b, AddChannel(c, ids));
    RemoveEachAll(added.(hooks := added.hooks[c := 0]), ids);
    SetBack(b.tracked, Members(ids));
    SetBack(b.channels, {c});
    HooksBack(b.hooks, c);
    HeldBack(b.held, multiset(ids));
  }

  lemma HeldBack(held: multiset<SourceId>, more: multiset<SourceId>)
    ensures held + more - more == held
  {
  }

  lemma SetBack(s: set<nat>, more: set<nat>)
    ensures s + more - more == s <==> more !! s
  {
    if s + more - more == s {
      forall x ensures !(x in more && x in s) {
        assert x in s + more - more <==> x in s;
      }
    }
  }

  lemma HooksBack(hooks: multiset<ChannelId>, c: ChannelId)
    ensures (hooks + multiset{c})[c := 0] == hooks <==> hooks[c] == 0
  {
  }

  /** What adding and removing do to a source's list, for this subscription and any other. */
  lemma HeldByList(s: L.Source, sub: P.Subscription, other: P.Subscription)
    ensures P.Occurrences(L.AddSubscription(s, sub).subs, other)
      == P.Occurrences(s.subs, other) + if other == sub then 1 else 0
    ensures P.Occurrences(L.RemoveSubscription(s, sub).subs, other)
      == if other == sub && P.Occurrences(s.subs, sub) > 0 then P.Occurrences(s.subs, sub) - 1
         else P.Occurrences(s.subs, other)
  {
    hide P.RemoveFast;
    P.RemoveFastMultiset(s.subs, sub);
  }

  /** What a step does to the list of source `id`, call by call. */
  function ListAfter(s: L.Source, id: SourceId, sub: P.Subscription, b: Book, step: Step): L.Source {
    match step
    case AddSource(x) => if x == id then L.AddSubscription(s, sub) else s
    case RemoveSource(x) => if x == id then L.RemoveSubscription(s, sub) else s
    case AddChannel(_, ids) => if id in ids then L.AddSubscription(s, sub) else s
    case RemoveChannel(_, ids) => if id in ids then L.RemoveSubscription(s, sub) else s
    case SourceAdded(c, x) => if x == id then AddedTimes(s, sub, b.hooks[c]) else s
  }

  /** The handlers of a signal, one for each connection. */
  function AddedTimes(s: L.Source, sub: P.Subscription, n: nat): L.Source
    decreases n
  {
    if n == 0 then s else AddedTimes(L.AddSubscription(s, sub), sub, n - 1)
  }

  lemma {:induction false} AddedTimesCounts(s: L.Source, sub: P.Subscription, n: nat)
    ensures P.Occurrences(AddedTimes(s, sub, n).subs, sub) == P.Occurrences(s.subs, sub) + n
    decreases n
  {
    hide P.Occurrences;
    if n > 0 {
      HeldByList(s, sub, sub);
      hide L.AddSubscription;
      AddedTimesCounts(L.AddSubscription(s, sub), sub, n - 1);
    }
  }

  /** The books count right: before and after a step, `held` is how often the list of a source has the subscription. */
  lemma BooksCountLists(s: L.Source, id: SourceId, sub: P.Subscription, b: Book, step: Step)
    requires b.held[id] == P.Occurrences(s.subs, sub) && Sane(step)
    ensures Take(b, step).held[id] == P.Occurrences(ListAfter(s, id, sub, b, step).subs, sub)
  {
    hide P.Occurrences, L.AddSubscription, L.RemoveSubscription, Take, AddedTimes, ListAfter;
    match step
    case AddChannel(_, _) => ChannelCounts(s, id, sub, b, step);
    case RemoveChannel(_, _) => ChannelCounts(s, id, sub, b, step);
    case _ => SourceCounts(s, id, sub, b, step);
  }

  lemma SourceCounts(s: L.Source, id: SourceId, sub: P.Subscription, b: Book, step: Step)
    requires b.held[id] == P.Occurrences(s.subs, sub) && !step.AddChannel? && !step.RemoveChannel?
    ensures Take(b, step).held[id] == P.Occurrences(ListAfter(s, id, sub, b, step).subs, sub)
  {
    hide P.Occurrences, L.AddSubscription, L.RemoveSubscription, Take, AddedTimes;
    HeldByList(s, sub, sub);
    StepsMean(b, if step.SourceAdded? then step.channel else 0, step.source, []);
    if step.SourceAdded? {
      AddedTimesCounts(s, sub, b.hooks[step.channel]);
    }
  }

  lemma ChannelCounts(s: L.Source, id: SourceId, sub: P.Subscription, b: Book, step: Step)
    requires b.held[id] == P.Occurrences(s.subs, sub) && (step.AddChannel? || step.RemoveChannel?)
    requires OnceEach(step.sources)
    ensures Take(b, step).held[id] == P.Occurrences(ListAfter(s, id, sub, b, step).subs, sub)
  {
    hide P.Occurrences, L.AddSubscription, L.RemoveSubscription, Take, OnceEach;
    HeldByList(s, sub, sub);
    StepsMean(b, step.channel, 0, step.sources);
    CountOnce(step.sources, id);
  }

  lemma CountOnce(ids: seq<SourceId>, id: SourceId)
    requires OnceEach(ids)
    ensures multiset(ids)[id] == if id in ids then 1 else 0
  {
    assert multiset(ids)[id] == multiset(Members(ids))[id];
  }

  // ---------------------------------------------------------------- the object

  class PkaSubscription {
    const id: P.Subscription
    var channels: set<ChannelId>
    var tracked: set<SourceId>
    var hooks: multiset<ChannelId>

    constructor (id: P.Subscription)
      ensures this.id == id && channels == {} && tracked == {} && hooks == multiset{}
    {
      this.id := id;
      channels, tracked, hooks := {}, {}, multiset{};
    }

    method AddSource(source: S.PkaSource)
      modifies this`tracked, source
      ensures tracked == old(tracked) + {source.id}
      ensures source.Life() == L.AddSubscription(old(source.Life()), id) && source.channel == old(source.channel)
    {
      tracked := tracked + {source.id};
      ghost var _ := source.AddSubscription(id);
    }

    method RemoveSource(source: S.PkaSource)
      modifies this`tracked, source
      ensures tracked == old(tracked) - {source.id}
      ensures source.Life() == L.RemoveSubscription(old(source.Life()), id) && source.channel == old(source.channel)
    {
      source.RemoveSubscription(id);
      tracked := tracked - {source.id};
    }

    /**
     * The signal "source-added" of a channel: `pka_subscription_channel_source_added` runs once for each connection,
     * and adds the new source each time.
     */
    method SourceAdded(channel: S.PkaChannel, source: S.PkaSource)
      modifies this`tracked, source
      ensures tracked == if hooks[channel.id] == 0 then old(tracked) else old(tracked) + {source.id}
      ensures source.Life() == AddedTimes(old(source.Life()), id, hooks[channel.id])
      ensures source.channel == old(source.channel)
    {
      hide L.AddSubscription;
      var n := hooks[channel.id];
      while n > 0
        invariant n <= hooks[channel.id] && source.channel == old(source.channel)
        invariant tracked == if n == hooks[channel.id] then old(tracked) else old(tracked) + {source.id}
        invariant AddedTimes(old(source.Life()), id, hooks[channel.id]) == AddedTimes(source.Life(), id, n)
      {
        AddSource(source);
        n := n - 1;
      }
    }

    /** The sources are taken in the order of the list that `pka_channel_get_sources` builds: the last one first. */
    method AddSources(sources: seq<S.PkaSource>)
      requires forall i, j | 0 <= i < j < |sources| :: sources[i] != sources[j]
      modifies this`tracked, sources
      ensures tracked == old(tracked) + Members(S.Ids(sources))
      ensures forall s | s in sources ::
        s.Life() == L.AddSubscription(old(s.Life()), id) && s.channel == old(s.channel)
    {
      hide L.AddSubscription, Members, S.Ids;
      NoMembers(tracked);
      var i := |sources|;
      assert sources[i..] == [];
      while i > 0
        invariant 0 <= i <= |sources|
        invariant tracked == old(tracked) + Members(S.Ids(sources[i..]))
        invariant forall k | i <= k < |sources| ::
          && sources[k].Life() == L.AddSubscription(old(sources[k].Life()), id)
          && sources[k].channel == old(sources[k].channel)
        invariant forall k | 0 <= k < i :: sources[k].Life() == old(sources[k].Life())
      {
        i := i - 1;
        AddSource(sources[i]);
        FirstMember(sources, i);
      }
      assert sources[0..] == sources;
    }

    method RemoveSources(sources: seq<S.PkaSource>)
      requires forall i, j | 0 <= i < j < |sources| :: sources[i] != sources[j]
      modifies this`tracked, sources
      ensures tracked == old(tracked) - Members(S.Ids(sources))
      ensures forall s | s in sources ::
        s.Life() == L.RemoveSubscription(old(s.Life()), id) && s.channel == old(s.channel)
    {
      hide L.RemoveSubscription, Members, S.Ids;
      NoMembers(tracked);
      var i := |sources|;
      assert sources[i..] == [];
      while i > 0
        invariant 0 <= i <= |sources|
        invariant tracked == old(tracked) - Members(S.Ids(sources[i..]))
        invariant forall k | i <= k < |sources| ::
          && sources[k].Life() == L.RemoveSubscription(old(sources[k].Life()), id)
          && sources[k].channel == old(sources[k].channel)
        invariant forall k | 0 <= k < i :: sources[k].Life() == old(sources[k].Life())
      {
        i := i - 1;
        RemoveSource(sources[i]);
        FirstMember(sources, i);
      }
      assert sources[0..] == sources;
    }

    method AddChannel(channel: S.PkaChannel)
      requires channel.Valid()
      modifies this`channels, this`hooks, this`tracked, channel.sources
      ensures channel.Valid()
      ensures channels == old(channels) + {channel.id} && hooks == old(hooks) + multiset{channel.id}
      ensures tracked == old(tracked) + Members(S.Ids(channel.sources))
      ensures forall s | s in channel.sources :: s.Life() == L.AddSubscription(old(s.Life()), id)
    {
      channels := channels + {channel.id};
      hooks := hooks + multiset{channel.id};
      AddSources(channel.sources);
    }

    method RemoveChannel(channel: S.PkaChannel)
      requires channel.Valid()
      modifies this`channels, this`hooks, this`tracked, channel.sources
      ensures channel.Valid()
      ensures channels == old(channels) - {channel.id} && hooks == old(hooks)[channel.id := 0]
      ensures tracked == old(tracked) - Members(S.Ids(channel.sources))
      ensures forall s | s in channel.sources :: s.Life() == L.RemoveSubscription(old(s.Life()), id)
    {
      hooks := hooks[channel.id := 0];
      RemoveSources(channel.sources);
      channels := channels - {channel.id};
    }
  }

  lemma NoMembers(tracked: set<SourceId>)
    ensures tracked + Members(S.Ids([])) == tracked == tracked - Members(S.Ids([]))
  {
  }

  lemma FirstMember(sources: seq<S.PkaSource>, i: nat)
    requires i < |sources|
    ensures Members(S.Ids(sources[i..])) == {sources[i].id} + Members(S.Ids(sources[i + 1..]))
  {
    assert S.Ids(sources[i..]) == [sources[i].id] + S.Ids(sources[i + 1..]);
  }
}
