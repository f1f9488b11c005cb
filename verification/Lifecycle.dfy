/**
 * The life of channels and their sources: the channel's state machine, the events that it and the subscriptions queue
 * to a source, and the list of the shared sampling worker to which the source's handlers add and remove it.
 *
 * A call on a channel or a source is one step. A source's events are handled in the order in which they were queued,
 * at any later time and in any order with respect to the events of other sources.
 */
module Lifecycle {
  import opened Options
  import P = SourceProtocol

  type ChannelId = nat
  type SourceId = nat
  type Subscription = P.Subscription

  datatype ChannelState = READY | RUNNING | MUTED | STOPPED | FAILED

  datatype Event = Started | Stopped | Muted | Unmuted | Reset

  /** `log` holds every event queued so far, of which the first `handled` have been handled. */
  datatype Source = Source(channel: Option<ChannelId>, running: bool, subs: seq<Subscription>,
                           log: seq<Event>, handled: nat)

  /** `settings` stands for target, arguments, environment, working directory and pid. */
  datatype Channel = Channel(state: ChannelState, sources: seq<SourceId>, settings: nat)

  datatype World = World(channels: map<ChannelId, Channel>, sources: map<SourceId, Source>, worker: multiset<SourceId>)

  /** What comes of preparing and spawning the process; it comes up if none is needed. */
  datatype Spawn = Vetoed | Failed | Up

  // ---------------------------------------------------------------- calls on a source

  function Queue(s: Source, events: seq<Event>): Source { s.(log := s.log + events) }

  function NotifyStarted(s: Source): Source {
    Queue(s.(running := true), if s.subs == [] then [Started, Muted] else [Started])
  }

  function NotifyStopped(s: Source): Source {
    if s.running then Queue(s.(running := false), [Stopped]) else s
  }

  function AddSubscription(s: Source, sub: Subscription): Source {
    var t := s.(subs := s.subs + [sub]);
    if s.running && |t.subs| == 1 then Queue(t, [Unmuted]) else t
  }

  function RemoveSubscription(s: Source, sub: Subscription): Source {
    var t := s.(subs := P.RemoveFast(s.subs, sub));
    if s.running && t.subs == [] then Queue(t, [Muted]) else t
  }

  // ---------------------------------------------------------------- calls on a channel

  /** What a call does to the channel and what it notifies each of its sources of, in turn. */
  datatype Outcome = Outcome(channel: Channel, resetFirst: bool, notice: Option<Event>, ok: bool)

  function Start(c: Channel, spawn: Spawn): Outcome {
    var again := c.state == STOPPED;
    if c.state != READY && !again then Outcome(c, false, None, false)
    else match spawn
      case Vetoed => Outcome(c.(state := READY), again, None, false)
      case Failed => Outcome(c.(state := FAILED), again, None, false)
      case Up => Outcome(c.(state := RUNNING), again, Some(Started), true)
  }

  function Stop(c: Channel): Outcome {
    if c.state == RUNNING || c.state == MUTED then Outcome(c.(state := STOPPED), false, Some(Stopped), true)
    else Outcome(c, false, None, c.state != READY)
  }

  function Mute(c: Channel): Outcome {
    if c.state == RUNNING then Outcome(c.(state := MUTED), false, Some(Muted), true)
    else Outcome(c, false, None, c.state == MUTED)
  }

  function Unmute(c: Channel): Outcome {
    if c.state == MUTED then Outcome(c.(state := RUNNING), false, Some(Unmuted), true)
    else Outcome(c, false, None, false)
  }

  function Configure(c: Channel, settings: nat): Outcome {
    if c.state == READY then Outcome(c.(settings := settings), false, None, true) else Outcome(c, false, None, false)
  }

  function Notify(s: Source, notice: Option<Event>): Source {
    match notice
    case None => s
    case Some(Started) => NotifyStarted(s)
    case Some(Stopped) => NotifyStopped(s)
    case Some(e) => Queue(s, [e])
  }

  /** What an outcome means for a source of the channel. */
  function Told(s: Source, o: Outcome): Source {
    Notify(if o.resetFirst then Queue(s, [Reset]) else s, o.notice)
  }

  // ---------------------------------------------------------------- steps

  datatype ChannelCall = StartCall(spawn: Spawn) | StopCall | MuteCall | UnmuteCall | ConfigureCall(settings: nat)

  datatype Action =
    | Call(channel: ChannelId, call: ChannelCall)
    | AddSource(channel: ChannelId, source: SourceId)
    | AddSub(source: SourceId, sub: Subscription)
    | RemoveSub(source: SourceId, sub: Subscription)
    | Handle(source: SourceId)

  function Answer(c: Channel, call: ChannelCall): Outcome {
    match call
    case StartCall(spawn) => Start(c, spawn)
    case StopCall => Stop(c)
    case MuteCall => Mute(c)
    case UnmuteCall => Unmute(c)
    case ConfigureCall(settings) => Configure(c, settings)
  }

  /** The handlers of a source in shared mode. Removing takes one occurrence away, if there is one. */
  function Handled(worker: multiset<SourceId>, id: SourceId, e: Event): multiset<SourceId> {
    match e
    case Started => worker + multiset{id}
    case Unmuted => worker + multiset{id}
    case Stopped => worker - multiset{id}
    case Muted => worker - multiset{id}
    case Reset => worker
  }

  predicate Known(w: World, a: Action) {
    (a.Call? || a.AddSource? ==> a.channel in w.channels) && (!a.Call? ==> a.source in w.sources)
  }

  /** One step; what concerns an unknown channel or source does nothing. */
  function Step(w: World, a: Action): World {
    if !Known(w, a) then w else
    match a
    case Call(c, call) =>
      var o := Answer(w.channels[c], call);
      w.(channels := w.channels[c := o.channel],
         sources := map id | id in w.sources ::
           if id in w.channels[c].sources then Told(w.sources[id], o) else w.sources[id])
    case AddSource(c, id) =>
      if w.sources[id].channel.Some? then w
      else w.(channels := w.channels[c := w.channels[c].(sources := w.channels[c].sources + [id])],
              sources := w.sources[id := w.sources[id].(channel := Some(c))])
    case AddSub(id, sub) => w.(sources := w.sources[id := AddSubscription(w.sources[id], sub)])
    case RemoveSub(id, sub) => w.(sources := w.sources[id := RemoveSubscription(w.sources[id], sub)])
    case Handle(id) =>
      var s := w.sources[id];
      if s.handled >= |s.log| then w
      else w.(sources := w.sources[id := s.(handled := s.handled + 1)],
              worker := Handled(w.worker, id, s.log[s.handled]))
  }

  function Run(w: World, actions: seq<Action>): World
    decreases |actions|
  {
    if actions == [] then w else Run(Step(w, actions[0]), actions[1..])
  }

  // ---------------------------------------------------------------- where sources and channels belong

  predicate Initial(w: World) {
    && (forall c | c in w.channels :: w.channels[c].state == READY && w.channels[c].sources == [])
    && (forall id | id in w.sources :: w.sources[id] == Source(None, false, [], [], 0))
    && w.worker == multiset{}
  }

  /** The list of channel `c` holds `id` once if `c` owns `id`, and not otherwise. */
  predicate Placed(list: seq<SourceId>, c: ChannelId, owner: Option<ChannelId>, id: SourceId) {
    multiset(list)[id] == if owner == Some(c) then 1 else 0
  }

  predicate AllPlaced(w: World) {
    && (forall c, id | c in w.channels && id in w.sources ::
          Placed(w.channels[c].sources, c, w.sources[id].channel, id))
    && (forall id | id in w.sources && w.sources[id].channel.Some? :: w.sources[id].channel.value in w.channels)
  }

  /** Where the starts, stops and resets among its events have brought a source; broken if they came out of turn. */
  datatype Phase = Fresh | Active | Stale | Broken

  function PhaseAfter(p: Phase, e: Event): Phase {
    match e
    case Started => if p == Fresh then Active else Broken
    case Stopped => if p == Active then Stale else Broken
    case Reset => if p == Fresh || p == Stale then Fresh else Broken
    case _ => p
  }

  function PhaseOf(log: seq<Event>): Phase {
    if log == [] then Fresh else PhaseAfter(PhaseOf(log[..|log| - 1]), log[|log| - 1])
  }

  function StateOf(channels: map<ChannelId, Channel>, owner: Option<ChannelId>): Option<ChannelState> {
    if owner.Some? && owner.value in channels then Some(channels[owner.value].state) else None
  }

  /** A source runs just when active, and only with a running channel; it is stale only with a stopped one. */
  predicate InPhase(p: Phase, running: bool, state: Option<ChannelState>) {
    && p != Broken && (running <==> p == Active)
    && (p == Active ==> state == Some(RUNNING) || state == Some(MUTED))
    && (p == Stale ==> state == Some(STOPPED))
  }

  predicate AllInPhase(w: World) {
    forall id | id in w.sources ::
      InPhase(PhaseOf(w.sources[id].log), w.sources[id].running, StateOf(w.channels, w.sources[id].channel))
  }

  predicate Inv(w: World) { AllPlaced(w) && AllInPhase(w) }

  lemma PhaseAppend(log: seq<Event>, e: Event)
    ensures PhaseOf(log + [e]) == PhaseAfter(PhaseOf(log), e)
  {
    assert (log + [e])[..|log|] == log;
  }

  lemma PlacedIn(list: seq<SourceId>, c: ChannelId, owner: Option<ChannelId>, id: SourceId)
    requires Placed(list, c, owner, id)
    ensures id in list <==> owner == Some(c)
  {
    assert id in list <==> id in multiset(list);
  }

  /** Whatever a channel is called to do, its sources stay in phase with it. */
  lemma ToldInPhase(s: Source, c: Channel, call: ChannelCall)
    requires InPhase(PhaseOf(s.log), s.running, Some(c.state))
    ensures var t := Told(s, Answer(c, call));
      InPhase(PhaseOf(t.log), t.running, Some(Answer(c, call).channel.state))
  {
    hide PhaseOf;
    var o := Answer(c, call);
    PhaseAppend(s.log, Reset);
    var log := if o.resetFirst then s.log + [Reset] else s.log;
    if o.notice.Some? {
      PhaseAppend(log, o.notice.value);
      PhaseAppend(log + [Started], Muted);
      assert log + [Started, Muted] == log + [Started] + [Muted];
    }
  }

  lemma ToldKeepsPlace(s: Source, o: Outcome)
    ensures Told(s, o).channel == s.channel && Told(s, o).subs == s.subs && Told(s, o).handled == s.handled
    ensures s.log <= Told(s, o).log
  {
  }

  lemma AnswerKeepsSources(c: Channel, call: ChannelCall)
    ensures Answer(c, call).channel.sources == c.sources
  {
  }

  lemma CallKeeps(w: World, a: Action)
    requires a.Call? && Known(w, a) && Inv(w)
    ensures Inv(Step(w, a))
  {
    hide PhaseOf, Told, Answer, InPhase, Placed;
    var c, o, t := w.channels[a.channel], Answer(w.channels[a.channel], a.call), Step(w, a);
    AnswerKeepsSources(c, a.call);
    forall id | id in w.sources
      ensures t.sources[id].channel == w.sources[id].channel
      ensures InPhase(PhaseOf(t.sources[id].log), t.sources[id].running, StateOf(t.channels, t.sources[id].channel))
    {
      ToldKeepsPlace(w.sources[id], o);
      PlacedIn(c.sources, a.channel, w.sources[id].channel, id);
      if id in c.sources {
        ToldInPhase(w.sources[id], c, a.call);
      }
    }
  }

  /** Handing a free source `id` to channel `to` places it there. */
  lemma PlacedAfterAdd(list: seq<SourceId>, c: ChannelId, owner: Option<ChannelId>, other: SourceId,
                       to: ChannelId, id: SourceId)
    requires Placed(list, c, owner, other) && (other == id ==> owner == None)
    ensures Placed(if c == to then list + [id] else list, c, if other == id then Some(to) else owner, other)
  {
  }

  lemma AddSourceKeeps(w: World, a: Action)
    requires a.AddSource? && Known(w, a) && Inv(w) && w.sources[a.source].channel == None
    ensures Inv(Step(w, a))
  {
    hide PhaseOf, Placed;
    var t := Step(w, a);
    forall c, id | c in t.channels && id in t.sources
      ensures Placed(t.channels[c].sources, c, t.sources[id].channel, id)
    {
      PlacedAfterAdd(w.channels[c].sources, c, w.sources[id].channel, id, a.channel, a.source);
    }
    forall id | id in t.sources
      ensures InPhase(PhaseOf(t.sources[id].log), t.sources[id].running, StateOf(t.channels, t.sources[id].channel))
    {
      assert InPhase(PhaseOf(w.sources[id].log), w.sources[id].running, StateOf(w.channels, w.sources[id].channel));
    }
  }

  /** Calls on a source keep its phase, and whether it runs. */
  lemma SourceCallInPhase(s: Source, sub: Subscription)
    ensures PhaseOf(AddSubscription(s, sub).log) == PhaseOf(RemoveSubscription(s, sub).log) == PhaseOf(s.log)
  {
    hide PhaseOf, P.RemoveFast;
    PhaseAppend(s.log, Unmuted);
    PhaseAppend(s.log, Muted);
  }

  lemma UpdateKeeps(w: World, id: SourceId, s: Source, worker: multiset<SourceId>)
    requires id in w.sources && Inv(w) && PhaseOf(s.log) == PhaseOf(w.sources[id].log)
    requires s.channel == w.sources[id].channel && s.running == w.sources[id].running
    ensures Inv(w.(sources := w.sources[id := s], worker := worker))
  {
    hide InPhase, PhaseOf, StateOf, Placed;
  }

  lemma SourceCallKeeps(w: World, a: Action)
    requires a.AddSub? || a.RemoveSub? || a.Handle?
    requires Known(w, a) && Inv(w)
    ensures Inv(Step(w, a))
  {
    hide PhaseOf, P.RemoveFast, AllPlaced, AllInPhase;
    var s, t := w.sources[a.source], Step(w, a);
    if t != w {
      if !a.Handle? { SourceCallInPhase(s, a.sub); }
      UpdateKeeps(w, a.source, t.sources[a.source], t.worker);
    }
  }

  lemma {:induction false} StepKeeps(w: World, a: Action)
    requires Inv(w)
    ensures Inv(Step(w, a))
  {
    if Known(w, a) {
      KnownStepKeeps(w, a);
    }
  }

  lemma KnownStepKeeps(w: World, a: Action)
    requires Known(w, a) && Inv(w)
    ensures Inv(Step(w, a))
  {
    hide Inv;
    match a
    case Call(_, _) => CallKeeps(w, a);
    case AddSource(_, id) => if w.sources[id].channel == None { AddSourceKeeps(w, a); }
    case _ => SourceCallKeeps(w, a);
  }

  lemma InitialInv(w: World)
    requires Initial(w)
    ensures Inv(w)
  {
  }

  lemma {:induction false} RunKeeps(w: World, actions: seq<Action>)
    requires Inv(w)
    ensures Inv(Run(w, actions))
    decreases |actions|
  {
    hide Inv, Step;
    if actions != [] {
      StepKeeps(w, actions[0]);
      RunKeeps(Step(w, actions[0]), actions[1..]);
    }
  }

  // ---------------------------------------------------------------- starting and stopping

  /** A state that some sequential run reaches. */
  predicate Reaches(start: World, actions: seq<Action>, w: World) { Initial(start) && Run(start, actions) == w }

  lemma ReachedInv(start: World, actions: seq<Action>, w: World)
    requires Reaches(start, actions, w)
    ensures Inv(w)
  {
    hide Inv, Step, Initial;
    InitialInv(start);
    RunKeeps(start, actions);
  }

  /** `e` occurs strictly between places `i` and `j`. */
  predicate Within(log: seq<Event>, e: Event, i: nat, j: nat)
    requires j <= |log|
  {
    exists k :: i < k < j && log[k] == e
  }

  /** `e` occurs at some place before `j`, with no `close` since. */
  predicate Open(log: seq<Event>, e: Event, close: Event, j: nat)
    requires j <= |log|
  {
    exists i :: 0 <= i < j && log[i] == e && !Within(log, close, i, j)
  }

  /** Wherever an event `a` is followed, at once or later, by an event `b`, there is an event `c` between them. */
  predicate Between(log: seq<Event>, a: Event, c: Event, b: Event) {
    forall i, j | 0 <= i < j < |log| && log[i] == a && log[j] == b :: Within(log, c, i, j)
  }

  /** Every stop follows a start that was not stopped yet. */
  predicate StopsFollowStarts(log: seq<Event>) {
    forall j | 0 <= j < |log| && log[j] == Stopped :: Open(log, Started, Stopped, j)
  }

  /** Starts, stops and resets come in turn. */
  predicate InTurn(log: seq<Event>) {
    && Between(log, Started, Stopped, Started)
    && Between(log, Started, Stopped, Reset)
    && Between(log, Stopped, Reset, Started)
    && StopsFollowStarts(log)
  }

  lemma {:induction false} PhaseMeans(log: seq<Event>)
    requires PhaseOf(log) != Broken
    ensures PhaseOf(log) == Active <==> Open(log, Started, Stopped, |log|)
    ensures PhaseOf(log) == Stale <==> Open(log, Stopped, Reset, |log|)
    ensures InTurn(log)
  {
    hide Within, Open, Between, StopsFollowStarts;
    if log != [] {
      var n := |log| - 1;
      var before := log[..n];
      PhaseMeans(before);
      assert before + [log[n]] == log;
      OpenGrows(before, Started, Stopped, log[n]);
      OpenGrows(before, Stopped, Reset, log[n]);
      BetweenGrows(before, Started, Stopped, Started, log[n]);
      BetweenGrows(before, Started, Stopped, Reset, log[n]);
      BetweenGrows(before, Stopped, Reset, Started, log[n]);
      StopsGrow(before, log[n]);
    } else {
      NothingOpen();
    }
  }

  lemma NothingOpen()
    ensures InTurn([]) && forall e, close :: !Open([], e, close, 0)
  {
  }

  lemma SamePrefix(log: seq<Event>, x: Event, e: Event, i: nat, j: nat)
    requires j <= |log|
    ensures Within(log + [x], e, i, j) == Within(log, e, i, j)
    ensures forall close :: Open(log + [x], e, close, j) == Open(log, e, close, j)
  {
    forall i: nat, f ensures Within(log + [x], f, i, j) == Within(log, f, i, j) {
      if Within(log, f, i, j) {
        var k :| i < k < j && log[k] == f;
        assert (log + [x])[k] == f;
      }
    }
    assert forall i | 0 <= i < j :: (log + [x])[i] == log[i];
  }

  lemma WithinGrows(log: seq<Event>, e: Event, x: Event, i: nat)
    ensures Within(log + [x], e, i, |log| + 1) <==> Within(log, e, i, |log|) || (i < |log| && x == e)
  {
    if Within(log, e, i, |log|) {
      var k :| i < k < |log| && log[k] == e;
      assert (log + [x])[k] == e;
    } else if i < |log| && x == e {
      assert (log + [x])[|log|] == e;
    }
  }

  lemma OpenGrows(log: seq<Event>, e: Event, close: Event, x: Event)
    requires e != close
    ensures Open(log + [x], e, close, |log| + 1) <==> x == e || (x != close && Open(log, e, close, |log|))
  {
    hide Within;
    var more := log + [x];
    var n := |log|;
    NothingWithin(log, close, n);
    WithinGrows(log, close, x, n);
    if Open(more, e, close, n + 1) {
      var i :| 0 <= i < n + 1 && more[i] == e && !Within(more, close, i, n + 1);
      WithinGrows(log, close, x, i);
      assert x != e ==> log[i] == e;
    }
    if x == e {
      assert more[n] == e && !Within(more, close, n, n + 1);
    } else if Open(log, e, close, n) {
      var i :| 0 <= i < n && log[i] == e && !Within(log, close, i, n);
      WithinGrows(log, close, x, i);
      assert more[i] == e;
    }
  }

  lemma NothingWithin(log: seq<Event>, e: Event, n: nat)
    requires n <= |log|
    ensures !Within(log, e, n, n)
  {
  }

  lemma BetweenGrows(log: seq<Event>, a: Event, c: Event, b: Event, x: Event)
    requires Between(log, a, c, b) && (x == b ==> !Open(log, a, c, |log|))
    ensures Between(log + [x], a, c, b)
  {
    hide Open, Within;
    var more := log + [x];
    forall i, j | 0 <= i < j < |more| && more[i] == a && more[j] == b ensures Within(more, c, i, j) {
      SamePrefix(log, x, c, i, j);
      ClosedWithin(log, a, c, i, j);
    }
  }

  lemma ClosedWithin(log: seq<Event>, a: Event, c: Event, i: nat, j: nat)
    requires i < j <= |log| && log[i] == a
    ensures !Open(log, a, c, j) ==> Within(log, c, i, j)
  {
  }

  lemma StopsGrow(log: seq<Event>, x: Event)
    requires StopsFollowStarts(log) && (x == Stopped ==> Open(log, Started, Stopped, |log|))
    ensures StopsFollowStarts(log + [x])
  {
    hide Open;
    forall j | 0 <= j <= |log| && (log + [x])[j] == Stopped ensures Open(log + [x], Started, Stopped, j) {
      SamePrefix(log, x, Started, 0, j);
    }
  }

  /**
   * In every run, between two starts queued to a source lies a stop, a stop follows a start, no reset falls between a
   * start and its stop, the source is reset between a stop and the next start, and it runs just when its last start has
   * not been followed by a stop.
   */
  lemma StartsAndStopsAlternate(start: World, actions: seq<Action>, w: World, id: SourceId)
    requires Reaches(start, actions, w) && id in w.sources
    ensures var log := w.sources[id].log;
      InTurn(log) && (w.sources[id].running <==> Open(log, Started, Stopped, |log|))
  {
    hide Run, AllPlaced, PhaseOf, InTurn, Open, Initial;
    ReachedInv(start, actions, w);
    PhaseMeans(w.sources[id].log);
  }

  predicate OnlyIn(w: World, c: ChannelId, id: SourceId)
    requires c in w.channels
  {
    multiset(w.channels[c].sources)[id] == 1 && forall d | d in w.channels && d != c :: id !in w.channels[d].sources
  }

  /** A running source is in the list of exactly one channel, once, and that channel is RUNNING or MUTED. */
  lemma RunningInOneChannel(start: World, actions: seq<Action>, w: World, id: SourceId)
    requires Reaches(start, actions, w) && id in w.sources && w.sources[id].running
    ensures exists c :: c in w.channels && w.channels[c].state in {RUNNING, MUTED} && OnlyIn(w, c, id)
  {
    hide Run, PhaseOf, Initial;
    ReachedInv(start, actions, w);
    var c := w.sources[id].channel.value;
    assert Placed(w.channels[c].sources, c, w.sources[id].channel, id);
    forall d | d in w.channels && d != c ensures id !in w.channels[d].sources {
      PlacedIn(w.channels[d].sources, d, w.sources[id].channel, id);
    }
  }

  /** A failed channel stays failed, and a source never leaves its channel. */
  lemma {:induction false} FailedAndOwnedForever(w: World, actions: seq<Action>, c: ChannelId, id: SourceId)
    requires c in w.channels && id in w.sources
    ensures c in Run(w, actions).channels && id in Run(w, actions).sources
    ensures w.channels[c].state == FAILED ==> Run(w, actions).channels[c].state == FAILED
    ensures w.sources[id].channel.Some? ==> Run(w, actions).sources[id].channel == w.sources[id].channel
    decreases |actions|
  {
    hide Step;
    if actions != [] {
      StepKeepsOwner(w, actions[0], c, id);
      FailedAndOwnedForever(Step(w, actions[0]), actions[1..], c, id);
    }
  }

  lemma StepKeepsOwner(w: World, a: Action, c: ChannelId, id: SourceId)
    requires c in w.channels && id in w.sources
    ensures c in Step(w, a).channels && id in Step(w, a).sources
    ensures w.channels[c].state == FAILED ==> Step(w, a).channels[c].state == FAILED
    ensures w.sources[id].channel.Some? ==> Step(w, a).sources[id].channel == w.sources[id].channel
    ensures Step(w, a).channels[c].settings != w.channels[c].settings ==> w.channels[c].state == READY
  {
    hide P.RemoveFast, Notify;
    if a.Call? && Known(w, a) {
      ToldKeepsPlace(w.sources[id], Answer(w.channels[a.channel], a.call));
    }
  }

  // ---------------------------------------------------------------- a source added to a running channel

  /** A call that starts channel `c`. */
  predicate Starts(w: World, a: Action, c: ChannelId) {
    a == Call(c, StartCall(Up)) && c in w.channels && Answer(w.channels[c], a.call).ok
  }

  predicate NeverStarts(w: World, actions: seq<Action>, c: ChannelId)
    decreases |actions|
  {
    actions == [] || (!Starts(w, actions[0], c) && NeverStarts(Step(w, actions[0]), actions[1..], c))
  }

  /** A source runs if its channel does. */
  predicate RunsIfChannelRuns(w: World, id: SourceId)
    requires id in w.sources
  {
    StateOf(w.channels, w.sources[id].channel) in {Some(RUNNING), Some(MUTED)} ==> w.sources[id].running
  }

  /**
   * Adding a free source to a channel neither starts it nor queues anything to it. So it runs if the channel does, as
   * the documentation has it, if and only if the channel does not run.
   */
  lemma AddedSourceIsNotStarted(w: World, c: ChannelId, id: SourceId)
    requires Inv(w) && c in w.channels && id in w.sources && w.sources[id].channel == None
    ensures var v := Step(w, AddSource(c, id));
      && id in v.sources && v.sources[id] == w.sources[id].(channel := Some(c)) && !v.sources[id].running
      && (RunsIfChannelRuns(v, id) <==> w.channels[c].state != RUNNING && w.channels[c].state != MUTED)
  {
    hide PhaseOf, AllPlaced;
    assert InPhase(PhaseOf(w.sources[id].log), w.sources[id].running, StateOf(w.channels, w.sources[id].channel));
  }

  /** Nothing was queued to the source since but events other than a start. */
  predicate NoStartSince(before: seq<Event>, after: seq<Event>) {
    before <= after && forall k | |before| <= k < |after| :: after[k] != Started
  }

  /** A source that does not run is started by a step if and only if the step starts its channel. */
  lemma StartedJustByStart(w: World, a: Action, c: ChannelId, id: SourceId)
    requires Inv(w) && c in w.channels && id in w.sources && w.sources[id].channel == Some(c) && !w.sources[id].running
    ensures c in Step(w, a).channels && id in Step(w, a).sources && Step(w, a).sources[id].channel == Some(c)
    ensures Step(w, a).sources[id].running <==> Starts(w, a, c)
    ensures NoStartSince(w.sources[id].log, Step(w, a).sources[id].log) <==> !Starts(w, a, c)
  {
    hide Inv, AddSubscription, RemoveSubscription, Handled, Told, Answer;
    StepKeepsOwner(w, a, c, id);
    var s := w.sources[id];
    if a.Call? && Known(w, a) {
      var call, d := a.call, a.channel;
      NotTold(w, d, id);
      if d == c {
        CallStep(w, c, call, id);
        ToldToStart(s, w.channels[c], call);
      }
    } else if a.AddSub? || a.RemoveSub? {
      SubscriptionQueues(s, a.sub);
    }
  }

  lemma NotTold(w: World, c: ChannelId, id: SourceId)
    requires Inv(w) && c in w.channels && id in w.sources && w.sources[id].channel.Some?
    ensures id in w.channels[c].sources <==> w.sources[id].channel == Some(c)
  {
    hide AllInPhase;
    PlacedIn(w.channels[c].sources, c, w.sources[id].channel, id);
  }

  lemma ToldToStart(s: Source, c: Channel, call: ChannelCall)
    requires !s.running
    ensures var started := call == StartCall(Up) && Answer(c, call).ok;
      && (Told(s, Answer(c, call)).running <==> started)
      && (NoStartSince(s.log, Told(s, Answer(c, call)).log) <==> !started)
  {
    var t := Told(s, Answer(c, call));
    if call == StartCall(Up) && Answer(c, call).ok {
      var k := |t.log| - if s.subs == [] then 2 else 1;
      assert t.log[k] == Started;
    }
  }

  lemma SubscriptionQueues(s: Source, sub: Subscription)
    requires !s.running
    ensures !AddSubscription(s, sub).running && AddSubscription(s, sub).log == s.log
    ensures !RemoveSubscription(s, sub).running && RemoveSubscription(s, sub).log == s.log
  {
    hide P.RemoveFast;
  }

  /** So it stays idle, with no start queued, in every run in which its channel is not started. */
  lemma {:induction false} IdleUntilChannelStarts(w: World, actions: seq<Action>, c: ChannelId, id: SourceId)
    requires Inv(w) && c in w.channels && id in w.sources && w.sources[id].channel == Some(c) && !w.sources[id].running
    requires NeverStarts(w, actions, c)
    ensures id in Run(w, actions).sources && !Run(w, actions).sources[id].running
    ensures NoStartSince(w.sources[id].log, Run(w, actions).sources[id].log)
    decreases |actions|
  {
    hide Inv, Step, Starts;
    if actions != [] {
      StepKeeps(w, actions[0]);
      StartedJustByStart(w, actions[0], c, id);
      IdleUntilChannelStarts(Step(w, actions[0]), actions[1..], c, id);
    }
  }

  // ---------------------------------------------------------------- the shared worker's list

  /** The handlers' effect on how often the list holds their source. */
  function Effect(n: nat, e: Event): nat {
    match e
    case Started => n + 1
    case Unmuted => n + 1
    case Stopped => if n == 0 then 0 else n - 1
    case Muted => if n == 0 then 0 else n - 1
    case Reset => n
  }

  function After(n: nat, events: seq<Event>): nat
    decreases |events|
  {
    if events == [] then n else After(Effect(n, events[0]), events[1..])
  }

  lemma {:induction false} AfterAppend(n: nat, events: seq<Event>, e: Event)
    ensures After(n, events + [e]) == Effect(After(n, events), e)
    decreases |events|
  {
    if events == [] {
      assert After(Effect(n, e), []) == Effect(n, e);
      assert [e][1..] == [];
    } else {
      assert (events + [e])[1..] == events[1..] + [e];
      AfterAppend(Effect(n, events[0]), events[1..], e);
    }
  }

  /** How often the list will hold the source once the pending events are handled, if it now does `n` times. */
  function Level(n: nat, log: seq<Event>, handled: nat): nat {
    After(n, if handled <= |log| then log[handled..] else [])
  }

  predicate IsMuted(channels: map<ChannelId, Channel>, owner: Option<ChannelId>) {
    owner.Some? && owner.value in channels && channels[owner.value].state == MUTED
  }

  /** The source should be sampled. */
  predicate Wanted(s: Source, muted: bool) { s.running && s.subs != [] && !muted }

  /** What the list will hold once the pending events are handled: the source once if it is to be sampled. */
  predicate Due(n: nat, s: Source, muted: bool) {
    s.handled <= |s.log| && Level(n, s.log, s.handled) == if Wanted(s, muted) then 1 else 0
  }

  predicate Balanced(w: World, id: SourceId)
    requires id in w.sources
  {
    Due(w.worker[id], w.sources[id], IsMuted(w.channels, w.sources[id].channel))
  }

  /**
   * A call that adds the source although it is not to be sampled: its muted channel is unmuted while it does not run or
   * has no subscription, or it gets its first subscription while its channel is muted.
   */
  predicate Disturbs(w: World, a: Action, id: SourceId)
    requires id in w.sources
  {
    var s := w.sources[id];
    IsMuted(w.channels, s.channel)
    && ((a == Call(s.channel.value, UnmuteCall) && !(s.running && s.subs != []))
        || (a.AddSub? && a.source == id && s.running && s.subs == []))
  }

  lemma LevelAppend(n: nat, log: seq<Event>, handled: nat, e: Event)
    requires handled <= |log|
    ensures Level(n, log + [e], handled) == Effect(Level(n, log, handled), e)
  {
    AfterAppend(n, log[handled..], e);
    assert (log + [e])[handled..] == log[handled..] + [e];
  }

  /** What a call on the channel of a source leaves due. */
  lemma ToldDue(n: nat, s: Source, c: Channel, call: ChannelCall)
    requires Due(n, s, c.state == MUTED) && (s.running ==> c.state in {RUNNING, MUTED})
    ensures Due(n, Told(s, Answer(c, call)), Answer(c, call).channel.state == MUTED)
      <==> !(c.state == MUTED && call == UnmuteCall && !(s.running && s.subs != []))
  {
    hide Level;
    var o := Answer(c, call);
    LevelAppend(n, s.log, s.handled, Reset);
    var log := if o.resetFirst then s.log + [Reset] else s.log;
    if o.notice.Some? {
      LevelAppend(n, log, s.handled, o.notice.value);
      LevelAppend(n, log + [Started], s.handled, Muted);
      assert log + [Started, Muted] == log + [Started] + [Muted];
    }
  }

  lemma SubscriptionDue(n: nat, s: Source, muted: bool, sub: Subscription)
    requires Due(n, s, muted)
    ensures Due(n, AddSubscription(s, sub), muted) <==> !(muted && s.running && s.subs == [])
    ensures Due(n, RemoveSubscription(s, sub), muted)
    ensures AddSubscription(s, sub).channel == RemoveSubscription(s, sub).channel == s.channel
  {
    hide Level, P.RemoveFast;
    LevelAppend(n, s.log, s.handled, Unmuted);
    LevelAppend(n, s.log, s.handled, Muted);
    P.RemoveFastLength(s.subs, sub);
  }

  lemma HandleDue(n: nat, s: Source, muted: bool)
    requires Due(n, s, muted) && s.handled < |s.log|
    ensures Due(Effect(n, s.log[s.handled]), s.(handled := s.handled + 1), muted)
  {
    assert s.log[s.handled..][1..] == s.log[s.handled + 1..];
  }

  lemma CallBalanced(w: World, a: Action, id: SourceId)
    requires Inv(w) && id in w.sources && Known(w, a) && Balanced(w, id) && a.Call?
    ensures id in Step(w, a).sources && (Balanced(Step(w, a), id) <==> !Disturbs(w, a, id))
  {
    hide Due, Told, Answer, PhaseOf, Placed;
    var s := w.sources[id];
    AnswerKeepsSources(w.channels[a.channel], a.call);
    ToldKeepsPlace(s, Answer(w.channels[a.channel], a.call));
    PlacedIn(w.channels[a.channel].sources, a.channel, s.channel, id);
    if s.channel == Some(a.channel) {
      ToldDue(w.worker[id], s, w.channels[a.channel], a.call);
    }
  }

  lemma HandleBalanced(w: World, a: Action, id: SourceId)
    requires Inv(w) && id in w.sources && Known(w, a) && Balanced(w, id) && a.Handle?
    ensures id in Step(w, a).sources && Balanced(Step(w, a), id)
  {
    hide Due, Inv, IsMuted, Handled;
    var s := w.sources[id];
    if a.source == id && s.handled < |s.log| {
      HandleDue(w.worker[id], s, IsMuted(w.channels, s.channel));
    }
    if w.sources[a.source].handled < |w.sources[a.source].log| {
      HandledEffect(w.worker, a.source, w.sources[a.source].log[w.sources[a.source].handled], id);
    }
  }

  lemma HandledEffect(worker: multiset<SourceId>, id: SourceId, e: Event, other: SourceId)
    ensures Handled(worker, id, e)[id] == Effect(worker[id], e)
    ensures other != id ==> Handled(worker, id, e)[other] == worker[other]
  {
  }

  /** A step keeps the worker's list in balance if and only if it is not one of the two that disturb it. */
  lemma StepBalanced(w: World, a: Action, id: SourceId)
    requires Inv(w) && id in w.sources && Known(w, a) && Balanced(w, id)
    ensures id in Step(w, a).sources && (Balanced(Step(w, a), id) <==> !Disturbs(w, a, id))
  {
    hide Due, PhaseOf, AddSubscription, RemoveSubscription, Placed;
    var s := w.sources[id];
    if a.Call? {
      CallBalanced(w, a, id);
    } else if a.Handle? {
      HandleBalanced(w, a, id);
    } else if a.AddSource? {
      if s.channel == None { DueIgnoresOwner(w.worker[id], s, Some(a.channel)); }
    } else {
      SubscriptionDue(w.worker[id], s, IsMuted(w.channels, s.channel), a.sub);
    }
  }

  lemma DueIgnoresOwner(n: nat, s: Source, owner: Option<ChannelId>)
    requires !s.running
    ensures forall muted, now :: Due(n, s.(channel := owner), now) == Due(n, s, muted)
  {
  }

  /** No step of the run disturbs the balance of `id`. */
  predicate Undisturbed(w: World, actions: seq<Action>, id: SourceId)
    requires id in w.sources
    decreases |actions|
  {
    actions == []
    || (!(Known(w, actions[0]) && Disturbs(w, actions[0], id))
        && id in Step(w, actions[0]).sources && Undisturbed(Step(w, actions[0]), actions[1..], id))
  }

  lemma {:induction false} RunBalanced(w: World, actions: seq<Action>, id: SourceId)
    requires Inv(w) && id in w.sources && Balanced(w, id) && Undisturbed(w, actions, id)
    ensures id in Run(w, actions).sources && Balanced(Run(w, actions), id)
    decreases |actions|
  {
    hide Inv, Balanced, Disturbs;
    if actions != [] {
      var a := actions[0];
      StepKeeps(w, a);
      if Known(w, a) {
        StepBalanced(w, a, id);
      }
      RunBalanced(Step(w, a), actions[1..], id);
    }
  }

  lemma InitiallyBalanced(w: World, id: SourceId)
    requires Initial(w) && id in w.sources
    ensures Balanced(w, id)
  {
  }

  /** `n` times handling an event of `id`. */
  function Handlings(id: SourceId, n: nat): seq<Action> { seq(n, i => Handle(id)) }

  lemma {:induction false} HandlingsDrain(w: World, id: SourceId, n: nat)
    requires id in w.sources && w.sources[id].handled + n == |w.sources[id].log|
    ensures var v := Run(w, Handlings(id, n));
      && id in v.sources && v.sources[id] == w.sources[id].(handled := |w.sources[id].log|)
      && v.worker[id] == Level(w.worker[id], w.sources[id].log, w.sources[id].handled)
    decreases n
  {
    hide Handled;
    var s := w.sources[id];
    if n == 0 {
      assert s.log[s.handled..] == [];
    } else {
      assert Handlings(id, n)[1..] == Handlings(id, n - 1);
      HandledEffect(w.worker, id, s.log[s.handled], id);
      assert s.log[s.handled..][1..] == s.log[s.handled + 1..];
      HandlingsDrain(Step(w, Handle(id)), id, n - 1);
    }
  }

  /**
   * After a run without a disturbing call, whatever events are still to be handled: once they are, the worker's list
   * holds the source once if it runs, has a subscription and its channel is not muted, and otherwise not at all.
   */
  lemma ListedOnceDrained(start: World, actions: seq<Action>, w: World, id: SourceId)
    requires Reaches(start, actions, w) && id in start.sources && Undisturbed(start, actions, id)
    ensures id in w.sources && w.sources[id].handled <= |w.sources[id].log|
    ensures var s := w.sources[id];
      var v := Run(w, Handlings(id, |s.log| - s.handled));
      v.worker[id] == if s.running && s.subs != [] && !IsMuted(w.channels, s.channel) then 1 else 0
  {
    hide Run, Undisturbed, Inv, Level;
    InitialInv(start);
    InitiallyBalanced(start, id);
    RunBalanced(start, actions, id);
    HandlingsDrain(w, id, |w.sources[id].log| - w.sources[id].handled);
  }

  predicate NeverMutes(actions: seq<Action>) { forall a | a in actions :: !(a.Call? && a.call.MuteCall?) }

  predicate NoneMuted(w: World) { forall c | c in w.channels :: w.channels[c].state != MUTED }

  /** A run in which no channel is muted is not disturbed: there the list depends on `running` and the subscriptions. */
  lemma {:induction false} UndisturbedWithoutMutes(w: World, actions: seq<Action>, id: SourceId)
    requires NoneMuted(w) && NeverMutes(actions) && id in w.sources
    ensures Undisturbed(w, actions, id) && NoneMuted(Run(w, actions))
    decreases |actions|
  {
    hide Step;
    if actions != [] {
      StaysUnmuted(w, actions[0], id);
      UndisturbedWithoutMutes(Step(w, actions[0]), actions[1..], id);
    }
  }

  lemma StaysUnmuted(w: World, a: Action, id: SourceId)
    requires NoneMuted(w) && !(a.Call? && a.call.MuteCall?) && id in w.sources
    ensures id in Step(w, a).sources && NoneMuted(Step(w, a))
  {
    hide Told, AddSubscription, RemoveSubscription, Handled;
  }

  lemma ListedOnceWithoutMutes(start: World, actions: seq<Action>, w: World, id: SourceId)
    requires Reaches(start, actions, w) && id in start.sources && NeverMutes(actions)
    ensures id in w.sources && w.sources[id].handled <= |w.sources[id].log|
    ensures var s := w.sources[id];
      Run(w, Handlings(id, |s.log| - s.handled)).worker[id] == if s.running && s.subs != [] then 1 else 0
  {
    hide Run, Undisturbed, Level;
    UndisturbedWithoutMutes(start, actions, id);
    ListedOnceDrained(start, actions, w, id);
  }

  /** A call on the channel of a source, as the source sees it. */
  lemma CallStep(w: World, c: ChannelId, call: ChannelCall, id: SourceId)
    requires Inv(w) && c in w.channels && id in w.sources && w.sources[id].channel == Some(c)
    ensures var v := Step(w, Call(c, call));
      && v.channels == w.channels[c := Answer(w.channels[c], call).channel] && v.worker == w.worker
      && id in v.sources && v.sources[id] == Told(w.sources[id], Answer(w.channels[c], call))
  {
    hide Told, Answer, AllInPhase;
    assert Placed(w.channels[c].sources, c, w.sources[id].channel, id);
    PlacedIn(w.channels[c].sources, c, w.sources[id].channel, id);
  }

  lemma MuteThenUnmute(w: World, c: ChannelId, id: SourceId)
    requires Inv(w) && c in w.channels && w.channels[c].state == RUNNING
    requires id in w.sources && w.sources[id].channel == Some(c)
    ensures var v := Step(Step(w, Call(c, MuteCall)), Call(c, UnmuteCall));
      id in v.sources && v.sources[id] == Queue(w.sources[id], [Muted, Unmuted]) && v.worker == w.worker
  {
    hide Inv, Step;
    StepKeeps(w, Call(c, MuteCall));
    CallStep(w, c, MuteCall, id);
    CallStep(Step(w, Call(c, MuteCall)), c, UnmuteCall, id);
    assert w.sources[id].log + [Muted] + [Unmuted] == w.sources[id].log + [Muted, Unmuted];
  }

  /** The calls that mute the channel of `id`, unmute it and give `id` a subscription. */
  function MuteUnmuteAdd(c: ChannelId, id: SourceId, sub: Subscription): seq<Action> {
    [Call(c, MuteCall), Call(c, UnmuteCall), AddSub(id, sub)]
  }

  lemma RunOfThree(w: World, a: Action, b: Action, d: Action)
    ensures Run(w, [a, b, d]) == Step(Step(Step(w, a), b), d)
  {
    hide Step;
    assert [a, b, d][1..] == [b, d] && [b, d][1..] == [d] && [d][1..] == [];
    assert Run(w, [a, b, d]) == Run(Step(w, a), [b, d]);
    assert Run(Step(w, a), [b, d]) == Run(Step(Step(w, a), b), [d]);
    assert Run(Step(Step(w, a), b), [d]) == Run(Step(Step(Step(w, a), b), d), []);
  }

  /**
   * With mutes it fails. Whenever a source runs without a subscription, muting and unmuting its channel before the
   * first subscription comes leaves the source listed twice, once everything is handled.
   */
  lemma MutingListsTwice(w: World, id: SourceId, sub: Subscription)
    requires Inv(w) && id in w.sources && Balanced(w, id)
    requires w.sources[id].running && w.sources[id].subs == [] && !IsMuted(w.channels, w.sources[id].channel)
    ensures var v := Run(w, MuteUnmuteAdd(w.sources[id].channel.value, id, sub));
      && id in v.sources && v.sources[id].handled <= |v.sources[id].log|
      && Run(v, Handlings(id, |v.sources[id].log| - v.sources[id].handled)).worker[id] == 2
  {
    hide Inv, Step, Run, Level, Handlings, Balanced;
    OwnerRuns(w, id);
    var c := w.sources[id].channel.value;
    var u := Step(Step(w, Call(c, MuteCall)), Call(c, UnmuteCall));
    MuteThenUnmute(w, c, id);
    RunOfThree(w, Call(c, MuteCall), Call(c, UnmuteCall), AddSub(id, sub));
    FirstSubscription(u, id, sub);
    UnmutedTwice(w.worker[id], w.sources[id].log, w.sources[id].handled);
    var v := Step(u, AddSub(id, sub));
    HandlingsDrain(v, id, |v.sources[id].log| - v.sources[id].handled);
  }

  /** From any initial world, adding a source to a channel and starting that brings the source there. */
  lemma RunningAloneIsReached(start: World, c: ChannelId, id: SourceId)
    requires Initial(start) && c in start.channels && id in start.sources
    ensures var w := Run(start, [AddSource(c, id), Call(c, StartCall(Up))]);
      && Inv(w) && id in w.sources && Balanced(w, id)
      && w.sources[id].running && w.sources[id].subs == [] && !IsMuted(w.channels, w.sources[id].channel)
  {
    hide Inv, Balanced, Told;
    var a, b := AddSource(c, id), Call(c, StartCall(Up));
    var v := Step(start, a);
    InitialInv(start);
    InitiallyBalanced(start, id);
    StepKeeps(start, a);
    StepBalanced(start, a, id);
    StepKeeps(v, b);
    StepBalanced(v, b, id);
    CallStep(v, c, StartCall(Up), id);
    ToldToStart(v.sources[id], v.channels[c], StartCall(Up));
    ToldKeepsPlace(v.sources[id], Answer(v.channels[c], StartCall(Up)));
    RunOfTwo(start, a, b);
  }

  lemma RunOfTwo(w: World, a: Action, b: Action)
    ensures Run(w, [a, b]) == Step(Step(w, a), b)
  {
    hide Step;
    assert [a, b][1..] == [b] && [b][1..] == [];
    assert Run(w, [a, b]) == Run(Step(w, a), [b]);
    assert Run(Step(w, a), [b]) == Run(Step(Step(w, a), b), []);
  }

  /** What is known of a running source without subscriptions whose list is balanced. */
  lemma OwnerRuns(w: World, id: SourceId)
    requires Inv(w) && id in w.sources && Balanced(w, id)
    requires w.sources[id].running && w.sources[id].subs == [] && !IsMuted(w.channels, w.sources[id].channel)
    ensures var s := w.sources[id];
      && s.channel.Some? && s.channel.value in w.channels && w.channels[s.channel.value].state == RUNNING
      && s.handled <= |s.log| && Level(w.worker[id], s.log, s.handled) == 0
  {
    hide AllPlaced, PhaseOf, Level;
  }

  lemma FirstSubscription(w: World, id: SourceId, sub: Subscription)
    requires id in w.sources && w.sources[id].running && w.sources[id].subs == []
    ensures var v := Step(w, AddSub(id, sub));
      && id in v.sources && v.worker == w.worker && v.sources[id].handled == w.sources[id].handled
      && v.sources[id].log == w.sources[id].log + [Unmuted]
  {
  }

  lemma UnmutedTwice(n: nat, log: seq<Event>, handled: nat)
    requires handled <= |log| && Level(n, log, handled) == 0
    ensures Level(n, log + [Muted, Unmuted] + [Unmuted], handled) == 2
  {
    hide Level;
    LevelAppend(n, log, handled, Muted);
    LevelAppend(n, log + [Muted], handled, Unmuted);
    assert log + [Muted] + [Unmuted] == log + [Muted, Unmuted];
    LevelAppend(n, log + [Muted, Unmuted], handled, Unmuted);
  }

  // ---------------------------------------------------------------- what each call on a channel does

  /** Only the channel's state and its sources change: they run or not as said, and are sent the events said. */
  predicate Changes(w: World, v: World, c: ChannelId, state: ChannelState, runs: Source -> bool,
                    sends: Source -> seq<Event>)
    requires c in w.channels
  {
    && v.channels == w.channels[c := w.channels[c].(state := state)] && v.worker == w.worker
    && v.sources.Keys == w.sources.Keys
    && (forall id | id in w.sources && w.sources[id].channel == Some(c) ::
          var s := w.sources[id]; v.sources[id] == s.(running := runs(s), log := s.log + sends(s)))
    && (forall id | id in w.sources && w.sources[id].channel != Some(c) :: v.sources[id] == w.sources[id])
  }

  /** A call on a channel reaches just the sources that have it. */
  lemma CallReaches(w: World, c: ChannelId, call: ChannelCall)
    requires Inv(w) && c in w.channels
    ensures var v, o := Step(w, Call(c, call)), Answer(w.channels[c], call);
      && v.channels == w.channels[c := o.channel] && v.worker == w.worker && v.sources.Keys == w.sources.Keys
      && forall id | id in w.sources ::
           v.sources[id] == if w.sources[id].channel == Some(c) then Told(w.sources[id], o) else w.sources[id]
  {
    hide Told, Answer, AllInPhase, Placed;
    forall id | id in w.sources ensures id in w.channels[c].sources <==> w.sources[id].channel == Some(c) {
      PlacedIn(w.channels[c].sources, c, w.sources[id].channel, id);
    }
  }

  /**
   * A start comes up if and only if the channel is READY or STOPPED and the process comes up. Then the channel is
   * RUNNING and all its sources run, after a reset if it was stopped. When the process fails to come up it is FAILED,
   * and READY when the start is vetoed, again with a reset if it was stopped.
   */
  lemma StartStarts(w: World, c: ChannelId, spawn: Spawn)
    requires Inv(w) && c in w.channels
    ensures var was := w.channels[c].state;
      var fit := was == READY || was == STOPPED;
      var up := fit && spawn == Up;
      && (Answer(w.channels[c], StartCall(spawn)).ok <==> up)
      && Changes(w, Step(w, Call(c, StartCall(spawn))), c,
                 if !fit then was else if up then RUNNING else if spawn == Failed then FAILED else READY,
                 (s: Source) => s.running || up,
                 (s: Source) => (if was == STOPPED then [Reset] else [])
                      + (if up then [Started] + (if s.subs == [] then [Muted] else []) else []))
  {
    hide Inv, Step, Told, Answer;
    CallReaches(w, c, StartCall(spawn));
    StartTold(Source(None, false, [], [], 0), w.channels[c], spawn);
    forall id | id in w.sources
      ensures var s, o := w.sources[id], Answer(w.channels[c], StartCall(spawn));
        Told(s, o) == s.(running := s.running || o.ok,
                         log := s.log + ((if w.channels[c].state == STOPPED then [Reset] else [])
                                + (if o.ok then [Started] + (if s.subs == [] then [Muted] else []) else [])))
    {
      StartTold(w.sources[id], w.channels[c], spawn);
    }
  }

  lemma StartTold(s: Source, c: Channel, spawn: Spawn)
    ensures var o := Answer(c, StartCall(spawn));
      var fit := c.state == READY || c.state == STOPPED;
      && (o.ok <==> fit && spawn == Up)
      && o.channel == c.(state := if !fit then c.state else match spawn
                                  case Up => RUNNING case Failed => FAILED case Vetoed => READY)
      && Told(s, o) == s.(running := s.running || o.ok,
                          log := s.log + ((if c.state == STOPPED then [Reset] else [])
                                 + (if o.ok then [Started] + (if s.subs == [] then [Muted] else []) else [])))
  {
    var log := s.log;
    assert log + [Reset] + [Started] == log + ([Reset] + [Started]);
    assert log + [Reset] + [Started, Muted] == log + ([Reset] + [Started, Muted]);
    assert log + ([] + []) == log && log + ([Reset] + []) == log + [Reset] && log + ([] + [Started]) == log + [Started];
    assert [Started] + [Muted] == [Started, Muted] && [] + [Started, Muted] == [Started, Muted];
  }

  /**
   * A stop is refused if and only if the channel is READY. If it is RUNNING or MUTED it is STOPPED then, none of its
   * sources runs, and each that did is sent a stop; otherwise nothing changes.
   */
  lemma StopStops(w: World, c: ChannelId)
    requires Inv(w) && c in w.channels
    ensures var was := w.channels[c].state;
      var live := was == RUNNING || was == MUTED;
      && (Answer(w.channels[c], StopCall).ok <==> was != READY)
      && Changes(w, Step(w, Call(c, StopCall)), c, if live then STOPPED else was,
                 (s: Source) => s.running && !live, (s: Source) => if live && s.running then [Stopped] else [])
  {
    hide Inv, Step;
    CallReaches(w, c, StopCall);
  }

  /** A mute succeeds if and only if the channel is RUNNING, when its sources are sent it, or MUTED already. */
  lemma MuteMutes(w: World, c: ChannelId)
    requires Inv(w) && c in w.channels
    ensures var was := w.channels[c].state;
      && (Answer(w.channels[c], MuteCall).ok <==> was == RUNNING || was == MUTED)
      && Changes(w, Step(w, Call(c, MuteCall)), c, if was == RUNNING then MUTED else was,
                 (s: Source) => s.running, (s: Source) => if was == RUNNING then [Muted] else [])
  {
    hide Inv, Step;
    CallReaches(w, c, MuteCall);
  }

  /** An unmute succeeds if and only if the channel is MUTED. */
  lemma UnmuteUnmutes(w: World, c: ChannelId)
    requires Inv(w) && c in w.channels
    ensures var was := w.channels[c].state;
      && (Answer(w.channels[c], UnmuteCall).ok <==> was == MUTED)
      && Changes(w, Step(w, Call(c, UnmuteCall)), c, if was == MUTED then RUNNING else was,
                 (s: Source) => s.running, (s: Source) => if was == MUTED then [Unmuted] else [])
  {
    hide Inv, Step;
    CallReaches(w, c, UnmuteCall);
  }

  /** The settings of a channel change, and nothing else does, if and only if it is READY. */
  lemma ConfigureSets(w: World, c: ChannelId, settings: nat)
    requires Inv(w) && c in w.channels
    ensures var ok := w.channels[c].state == READY;
      && (Answer(w.channels[c], ConfigureCall(settings)).ok <==> ok)
      && Step(w, Call(c, ConfigureCall(settings)))
         == w.(channels := w.channels[c := if ok then w.channels[c].(settings := settings) else w.channels[c]])
  {
    hide Inv, Step;
    CallReaches(w, c, ConfigureCall(settings));
    var v := Step(w, Call(c, ConfigureCall(settings)));
    assert v.sources == w.sources;
  }

  /** Once a channel is stopped and the events of a source of it are handled, the worker's list does not hold it. */
  lemma StoppedIsNotListed(start: World, actions: seq<Action>, w: World, c: ChannelId, id: SourceId)
    requires Reaches(start, actions, w) && id in start.sources && Undisturbed(start, actions, id)
    requires id in w.sources && w.sources[id].channel == Some(c)
    requires c in w.channels && w.channels[c].state in {RUNNING, MUTED}
    ensures var v := Step(w, Call(c, StopCall));
      && id in v.sources && !v.sources[id].running && v.sources[id].handled <= |v.sources[id].log|
      && Run(v, Handlings(id, |v.sources[id].log| - v.sources[id].handled)).worker[id] == 0
  {
    hide Run, Undisturbed, Inv, Level, Step;
    InitialInv(start);
    InitiallyBalanced(start, id);
    RunBalanced(start, actions, id);
    RunKeeps(start, actions);
    var v := Step(w, Call(c, StopCall));
    StopStops(w, c);
    StepBalanced(w, Call(c, StopCall), id);
    HandlingsDrain(v, id, |v.sources[id].log| - v.sources[id].handled);
  }

  /** From any initial world: a source of a channel that is started, stopped and started again. */
  lemma StartStopStart(start: World, c: ChannelId, id: SourceId)
    requires Initial(start) && c in start.channels && id in start.sources
    ensures var w := Run(start, [AddSource(c, id), Call(c, StartCall(Up)), Call(c, StopCall), Call(c, StartCall(Up))]);
      && Inv(w) && c in w.channels && w.channels[c].state == RUNNING && id in w.sources && w.sources[id].running
      && w.sources[id].log == [Started, Muted, Stopped, Reset, Started, Muted]
  {
    hide Inv, Step, Run;
    var a, b, d := AddSource(c, id), Call(c, StartCall(Up)), Call(c, StopCall);
    InitialInv(start);
    AddedFirst(start, c, id);
    var w1 := Step(start, a);
    StepKeeps(start, a);
    StartStarts(w1, c, Up);
    var w2 := Step(w1, b);
    StepKeeps(w1, b);
    StopStops(w2, c);
    var w3 := Step(w2, d);
    StepKeeps(w2, d);
    StartStarts(w3, c, Up);
    StepKeeps(w3, b);
    RunOfFour(start, a, b, d, b);
  }

  lemma AddedFirst(start: World, c: ChannelId, id: SourceId)
    requires Initial(start) && c in start.channels && id in start.sources
    ensures var w := Step(start, AddSource(c, id));
      && c in w.channels && w.channels[c].state == READY
      && id in w.sources && w.sources[id] == Source(Some(c), false, [], [], 0)
  {
  }

  lemma RunOfFour(w: World, a: Action, b: Action, d: Action, e: Action)
    ensures Run(w, [a, b, d, e]) == Step(Step(Step(Step(w, a), b), d), e)
  {
    hide Step;
    assert [a, b, d, e][1..] == [b, d, e];
    assert Run(w, [a, b, d, e]) == Run(Step(w, a), [b, d, e]);
    RunOfThree(Step(w, a), b, d, e);
  }
}
