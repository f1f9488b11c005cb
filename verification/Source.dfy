/**
 * PkaSource and PkaChannel as objects that their methods update: a source called by one thread at a time, with the
 * event queue of the main loop, and a channel that notifies its sources in a loop. Each method is proved to do what the
 * step machines of SourceProtocol and Lifecycle say.
 */
module Sources {
  import opened Options
  import P = SourceProtocol
  import L = Lifecycle

  /** The callbacks that hand a manifest to the subscribers in order. */
  function ManifestsTo(subs: seq<P.Subscription>, m: P.Manifest, epoch: nat): seq<P.Event> {
    seq(|subs|, i requires 0 <= i < |subs| => P.ManifestTo(subs[i], m, epoch))
  }

  function SamplesTo(subs: seq<P.Subscription>, sample: nat, under: Option<P.Manifest>, epoch: nat): seq<P.Event> {
    seq(|subs|, i requires 0 <= i < |subs| => P.SampleTo(subs[i], sample, under, epoch))
  }

  class PkaSource {
    const id: L.SourceId
    var manifest: Option<P.Manifest>
    var subs: seq<P.Subscription>
    var running: bool
    var channel: Option<L.ChannelId>
    var queued: seq<L.Event> // the events given to the main loop so far
    var emitted: nat         // of which so many have been emitted
    ghost var stored: seq<P.Manifest>
    ghost var log: seq<P.Event>

    /** The source as the life cycle sees it. */
    function Life(): L.Source
      reads this
    {
      L.Source(channel, running, subs, queued, emitted)
    }

    /** The source as the delivery protocol sees it, with no thread inside. */
    ghost function Protocol(): P.State
      reads this
    {
      P.State(manifest, subs, P.Idle, map[], stored, log)
    }

    constructor (id: L.SourceId)
      ensures this.id == id
      ensures Life() == L.Source(None, false, [], [], 0) && Protocol() == P.INITIAL
    {
      this.id := id;
      manifest, subs, running, channel, queued, emitted := None, [], false, None, [], 0;
      stored, log := [], [];
    }

    method SetChannel(owner: L.ChannelId) returns (ok: bool)
      modifies this`channel
      ensures ok <==> old(channel) == None
      ensures channel == if ok then Some(owner) else old(channel)
    {
      if channel.Some? {
        return false;
      }
      channel := Some(owner);
      ok := true;
    }

    // ---------------------------------------------------------------- deliveries

    /** One thread alone delivers a manifest: a run of the protocol that hands it to every subscriber in turn. */
    method DeliverManifest(m: P.Manifest) returns (ghost script: seq<P.Action>)
      modifies this`manifest, this`stored, this`log
      ensures P.Run(old(Protocol()), script) == Some(Protocol())
      ensures manifest == Some(m) && stored == old(stored) + [m]
      ensures log == old(log) + ManifestsTo(subs, m, |stored|)
    {
      hide P.Run, P.Step;
      ghost var before := Protocol();
      manifest, stored := Some(m), stored + [m];
      script := [P.Store(m), P.BeginPublish];
      StoredAndBegun(before, m);
      var i := 0;
      while i < |subs|
        invariant 0 <= i <= |subs|
        invariant manifest == Some(m) && stored == old(stored) + [m]
        invariant log == old(log) + ManifestsTo(subs[..i], m, |stored|)
        invariant P.Run(before, script) == Some(Protocol().(publisher := P.Publishing(m, i)))
      {
        PublishOne(before, script, Protocol().(publisher := P.Publishing(m, i)));
        log := log + [P.ManifestTo(subs[i], m, |stored|)];
        assert subs[..i + 1] == subs[..i] + [subs[i]];
        script := script + [P.PublishNext];
        i := i + 1;
      }
      LeaveSection(before, script, Protocol().(publisher := P.Publishing(m, i)));
      script := script + [P.EndPublish];
      assert subs[..i] == subs;
    }

    /** One thread alone delivers a sample, under the manifest that the source holds. */
    method DeliverSample(sample: nat) returns (ghost script: seq<P.Action>)
      modifies this`log
      ensures P.Run(old(Protocol()), script) == Some(Protocol())
      ensures log == old(log) + SamplesTo(subs, sample, manifest, |stored|)
    {
      hide P.Run, P.Step;
      ghost var before := Protocol();
      script := [P.BeginSample(sample)];
      SampleBegun(before, sample);
      var i := 0;
      while i < |subs|
        invariant 0 <= i <= |subs|
        invariant log == old(log) + SamplesTo(subs[..i], sample, manifest, |stored|)
        invariant P.Run(before, script) == Some(Protocol().(publisher := P.Sampling(sample, i)))
      {
        SampleOne(before, script, Protocol().(publisher := P.Sampling(sample, i)));
        log := log + [P.SampleTo(subs[i], sample, manifest, |stored|)];
        assert subs[..i + 1] == subs[..i] + [subs[i]];
        script := script + [P.SampleNext];
        i := i + 1;
      }
      LeaveSection(before, script, Protocol().(publisher := P.Sampling(sample, i)));
      script := script + [P.EndSample];
      assert subs[..i] == subs;
    }

    /** Appends the subscriber, unmutes a running source that had none, and hands over the manifest if there is one. */
    method AddSubscription(sub: P.Subscription) returns (ghost script: seq<P.Action>)
      modifies this`subs, this`queued, this`log
      ensures P.Run(old(Protocol()), script) == Some(Protocol())
      ensures Life() == L.AddSubscription(old(Life()), sub)
      ensures log == if manifest.None? then old(log) else old(log) + [P.ManifestTo(sub, manifest.value, |stored|)]
    {
      hide P.Run, P.Step;
      ghost var before := Protocol();
      var captured := manifest;
      subs := subs + [sub];
      if running && |subs| == 1 {
        queued := queued + [L.Unmuted];
      }
      if captured.Some? {
        if manifest == captured {
          log := log + [P.ManifestTo(sub, captured.value, |stored|)];
        }
        script := [P.AddFirst(0, sub), P.AddCheck(0), P.AddDeliver(0)];
        AddedWithManifest(before, sub);
      } else {
        script := [P.AddFirst(0, sub)];
        AddedWithoutManifest(before, sub);
      }
    }

    /** Removes the first occurrence, putting the last one in its place, and mutes a running source left alone. */
    method RemoveSubscription(sub: P.Subscription)
      modifies this`subs, this`queued
      ensures P.Step(old(Protocol()), P.Remove(sub)) == Some(Protocol())
      ensures Life() == L.RemoveSubscription(old(Life()), sub)
    {
      hide P.RemoveFast, P.IndexOf;
      var i := 0;
      while i < |subs| && subs[i] != sub
        invariant 0 <= i <= |subs| && sub !in subs[..i]
      {
        i := i + 1;
      }
      FoundAt(subs, sub, i);
      if i < |subs| {
        subs := subs[i := subs[|subs| - 1]][..|subs| - 1];
      }
      if running && |subs| == 0 {
        queued := queued + [L.Muted];
      }
    }

    // ---------------------------------------------------------------- notices from the channel

    method NotifyStarted()
      modifies this`running, this`queued
      ensures Life() == L.NotifyStarted(old(Life()))
    {
      running := true;
      queued := queued + [L.Started];
      if |subs| == 0 {
        queued := queued + [L.Muted];
      }
      assert queued == old(queued) + if subs == [] then [L.Started, L.Muted] else [L.Started];
    }

    method NotifyStopped()
      modifies this`running, this`queued
      ensures Life() == L.NotifyStopped(old(Life()))
    {
      if running {
        running := false;
        queued := queued + [L.Stopped];
      }
    }

    method Notify(e: L.Event)
      requires e.Muted? || e.Unmuted? || e.Reset?
      modifies this`queued
      ensures Life() == L.Queue(old(Life()), [e])
    {
      queued := queued + [e];
    }

    /** The main loop emits the next event, if there is one. */
    method Emit() returns (e: Option<L.Event>)
      requires emitted <= |queued|
      modifies this`emitted
      ensures emitted <= |queued|
      ensures old(emitted) == |queued| ==> e == None && emitted == old(emitted)
      ensures old(emitted) < |queued| ==> e == Some(queued[old(emitted)]) && emitted == old(emitted) + 1
    {
      if emitted == |queued| {
        return None;
      }
      e := Some(queued[emitted]);
      emitted := emitted + 1;
    }
  }

  lemma StoredAndBegun(s: P.State, m: P.Manifest)
    requires s.publisher == P.Idle && s.adders == map[]
    ensures P.Run(s, [P.Store(m), P.BeginPublish])
      == Some(s.(manifest := Some(m), stored := s.stored + [m], publisher := P.Publishing(m, 0)))
  {
    hide P.Run;
    P.RunOne(P.Step(s, P.Store(m)).value, P.BeginPublish);
    P.RunFirst(s, P.Store(m), [P.BeginPublish]);
    assert [P.Store(m)] + [P.BeginPublish] == [P.Store(m), P.BeginPublish];
  }

  lemma SampleBegun(s: P.State, sample: nat)
    requires s.publisher == P.Idle
    ensures P.Run(s, [P.BeginSample(sample)]) == Some(s.(publisher := P.Sampling(sample, 0)))
  {
    hide P.Run;
    P.RunOne(s, P.BeginSample(sample));
  }

  lemma PublishOne(start: P.State, script: seq<P.Action>, s: P.State)
    requires P.Run(start, script) == Some(s) && s.publisher.Publishing? && s.publisher.next < |s.subs|
    ensures P.Run(start, script + [P.PublishNext])
      == Some(s.(publisher := P.Publishing(s.publisher.manifest, s.publisher.next + 1),
                 log := s.log + [P.ManifestTo(s.subs[s.publisher.next], s.publisher.manifest, |s.stored|)]))
  {
    hide P.Run;
    P.RunThen(start, script, P.PublishNext);
  }

  lemma SampleOne(start: P.State, script: seq<P.Action>, s: P.State)
    requires P.Run(start, script) == Some(s) && s.publisher.Sampling? && s.publisher.next < |s.subs|
    ensures P.Run(start, script + [P.SampleNext])
      == Some(s.(publisher := P.Sampling(s.publisher.sample, s.publisher.next + 1),
                 log := s.log + [P.SampleTo(s.subs[s.publisher.next], s.publisher.sample, s.manifest, |s.stored|)]))
  {
    hide P.Run;
    P.RunThen(start, script, P.SampleNext);
  }

  lemma LeaveSection(start: P.State, script: seq<P.Action>, s: P.State)
    requires P.Run(start, script) == Some(s)
    ensures s.publisher.Publishing? && s.publisher.next >= |s.subs| ==>
      P.Run(start, script + [P.EndPublish]) == Some(s.(publisher := P.Idle))
    ensures s.publisher.Sampling? && s.publisher.next >= |s.subs| ==>
      P.Run(start, script + [P.EndSample]) == Some(s.(publisher := P.Idle))
  {
    hide P.Run;
    P.RunThen(start, script, P.EndPublish);
    P.RunThen(start, script, P.EndSample);
  }

  lemma AddedWithManifest(s: P.State, sub: P.Subscription)
    requires s.publisher == P.Idle && s.adders == map[] && s.manifest.Some?
    ensures P.Run(s, [P.AddFirst(0, sub), P.AddCheck(0), P.AddDeliver(0)])
      == Some(s.(subs := s.subs + [sub], log := s.log + [P.ManifestTo(sub, s.manifest.value, |s.stored|)]))
  {
    hide P.Run;
    P.RunOfThree(s, P.AddFirst(0, sub), P.AddCheck(0), P.AddDeliver(0));
  }

  lemma AddedWithoutManifest(s: P.State, sub: P.Subscription)
    requires s.publisher == P.Idle && s.adders == map[] && s.manifest.None?
    ensures P.Run(s, [P.AddFirst(0, sub)]) == Some(s.(subs := s.subs + [sub]))
  {
    hide P.Run;
    P.RunOne(s, P.AddFirst(0, sub));
  }

  lemma {:induction false} FoundAt(subs: seq<P.Subscription>, sub: P.Subscription, i: nat)
    requires i <= |subs| && sub !in subs[..i] && (i == |subs| || subs[i] == sub)
    ensures sub in subs <==> i < |subs|
    ensures i < |subs| ==> P.IndexOf(subs, sub) == i
    ensures i < |subs| ==> P.RemoveFast(subs, sub) == subs[i := subs[|subs| - 1]][..|subs| - 1]
    ensures i == |subs| ==> P.RemoveFast(subs, sub) == subs
  {
    assert subs[..|subs|] == subs;
    if 0 < i < |subs| {
      assert subs[1..][..i - 1] == subs[1..i];
      assert subs[0] in subs[..i];
      FoundAt(subs[1..], sub, i - 1);
    }
  }

  // ---------------------------------------------------------------- channels

  function Ids(sources: seq<PkaSource>): seq<L.SourceId> {
    seq(|sources|, i requires 0 <= i < |sources| => sources[i].id)
  }

  /** A start of the channel, as its sources see it. */
  lemma StartTold(c: PkaChannel, spawn: L.Spawn)
    ensures forall s | s in c.sources ::
      var ok := spawn == L.Up && (c.state == L.READY || c.state == L.STOPPED);
      L.Told(s.Life(), L.Start(c.Value(), spawn))
      == s.Life().(running := s.running || ok,
                   log := s.queued + ((if c.state == L.STOPPED then [L.Reset] else [])
                          + (if ok then [L.Started] + (if s.subs == [] then [L.Muted] else []) else [])))
  {
    hide L.Told, L.Start;
    forall s | s in c.sources {
      L.StartTold(s.Life(), c.Value(), spawn);
    }
  }

  class PkaChannel {
    const id: L.ChannelId
    var state: L.ChannelState
    var sources: seq<PkaSource>
    var settings: nat
    var announced: seq<PkaSource> // the emissions of the "source-added" signal

    /** The sources are distinct objects, and each has this channel. */
    ghost predicate Valid()
      reads this, sources
    {
      && (forall i, j | 0 <= i < j < |sources| :: sources[i] != sources[j])
      && (forall i | 0 <= i < |sources| :: sources[i].channel == Some(id))
    }

    function Value(): L.Channel
      reads this
    {
      L.Channel(state, Ids(sources), settings)
    }

    constructor (id: L.ChannelId, settings: nat)
      ensures Valid() && this.id == id && Value() == L.Channel(L.READY, [], settings)
    {
      this.id := id;
      state, sources, announced := L.READY, [], [];
      this.settings := settings;
    }

    /** Takes a source that has no channel yet, and announces it; it is not notified, even if the channel runs. */
    method AddSource(source: PkaSource) returns (ok: bool)
      requires Valid()
      modifies this`sources, this`announced, source`channel
      ensures Valid()
      ensures announced == if ok then old(announced) + [source] else old(announced)
      ensures ok <==> old(source.channel) == None
      ensures sources == if ok then old(sources) + [source] else old(sources)
      ensures source.channel == if ok then Some(id) else old(source.channel)
    {
      ok := source.SetChannel(id);
      if ok {
        sources := sources + [source];
        announced := announced + [source];
      }
    }

    method Start(spawn: L.Spawn) returns (ok: bool)
      requires Valid()
      modifies this`state, sources
      ensures Valid()
      ensures Value() == L.Start(old(Value()), spawn).channel && ok == L.Start(old(Value()), spawn).ok
      ensures forall s | s in sources :: s.Life() == L.Told(old(s.Life()), L.Start(old(Value()), spawn))
      ensures ok <==> spawn == L.Up && (old(state) == L.READY || old(state) == L.STOPPED)
      ensures ok ==> state == L.RUNNING
      ensures !ok && (old(state) == L.READY || old(state) == L.STOPPED) ==>
        state == if spawn == L.Failed then L.FAILED else L.READY
      ensures old(state) != L.READY && old(state) != L.STOPPED ==> state == old(state)
      ensures forall s | s in sources :: s.running == (old(s.running) || ok)
      ensures forall s | s in sources ::
        s.queued == old(s.queued) + ((if old(state) == L.STOPPED then [L.Reset] else [])
                    + (if ok then [L.Started] + (if s.subs == [] then [L.Muted] else []) else []))
    {
      StartTold(this, spawn);
      if state == L.STOPPED {
        NotifyAll(L.Reset);
        state := L.READY;
      }
      if state != L.READY || spawn == L.Vetoed {
        return false;
      }
      if spawn == L.Failed {
        state := L.FAILED;
        return false;
      }
      state := L.RUNNING;
      NotifyAllStarted();
      ok := true;
    }

    method Stop() returns (ok: bool)
      requires Valid()
      modifies this`state, sources
      ensures Valid()
      ensures Value() == L.Stop(old(Value())).channel && ok == L.Stop(old(Value())).ok
      ensures forall s | s in sources :: s.Life() == L.Told(old(s.Life()), L.Stop(old(Value())))
      ensures ok <==> old(state) != L.READY
      ensures state == if old(state) == L.RUNNING || old(state) == L.MUTED then L.STOPPED else old(state)
      ensures forall s | s in sources :: s.running == (old(s.running) && state == old(state))
      ensures forall s | s in sources ::
        s.queued == if state != old(state) && old(s.running) then old(s.queued) + [L.Stopped] else old(s.queued)
    {
      ok := state != L.READY;
      if state == L.RUNNING || state == L.MUTED {
        state := L.STOPPED;
        NotifyAllStopped();
      }
    }

    method Mute() returns (ok: bool)
      requires Valid()
      modifies this`state, sources
      ensures Valid()
      ensures Value() == L.Mute(old(Value())).channel && ok == L.Mute(old(Value())).ok
      ensures forall s | s in sources :: s.Life() == L.Told(old(s.Life()), L.Mute(old(Value())))
      ensures ok <==> old(state) == L.RUNNING || old(state) == L.MUTED
      ensures state == if old(state) == L.RUNNING then L.MUTED else old(state)
      ensures forall s | s in sources :: s.running == old(s.running)
      ensures forall s | s in sources ::
        s.queued == if old(state) == L.RUNNING then old(s.queued) + [L.Muted] else old(s.queued)
    {
      ok := state == L.MUTED;
      if state == L.RUNNING {
        state := L.MUTED;
        NotifyAll(L.Muted);
        ok := true;
      }
    }

    method Unmute() returns (ok: bool)
      requires Valid()
      modifies this`state, sources
      ensures Valid()
      ensures Value() == L.Unmute(old(Value())).channel && ok == L.Unmute(old(Value())).ok
      ensures forall s | s in sources :: s.Life() == L.Told(old(s.Life()), L.Unmute(old(Value())))
      ensures ok <==> old(state) == L.MUTED
      ensures state == if ok then L.RUNNING else old(state)
      ensures forall s | s in sources :: s.running == old(s.running)
      ensures forall s | s in sources :: s.queued == if ok then old(s.queued) + [L.Unmuted] else old(s.queued)
    {
      ok := false;
      if state == L.MUTED {
        state := L.RUNNING;
        NotifyAll(L.Unmuted);
        ok := true;
      }
    }

    method NotifyAll(e: L.Event)
      requires Valid() && (e.Muted? || e.Unmuted? || e.Reset?)
      modifies sources
      ensures Valid()
      ensures forall s | s in sources :: s.Life() == L.Queue(old(s.Life()), [e])
    {
      var i := 0;
      while i < |sources|
        invariant 0 <= i <= |sources|
        invariant forall k | 0 <= k < i :: sources[k].Life() == L.Queue(old(sources[k].Life()), [e])
        invariant forall k | i <= k < |sources| :: sources[k].Life() == old(sources[k].Life())
      {
        sources[i].Notify(e);
        i := i + 1;
      }
    }

    method NotifyAllStarted()
      requires Valid()
      modifies sources
      ensures Valid()
      ensures forall s | s in sources :: s.Life() == L.NotifyStarted(old(s.Life()))
    {
      var i := 0;
      while i < |sources|
        invariant 0 <= i <= |sources|
        invariant forall k | 0 <= k < i :: sources[k].Life() == L.NotifyStarted(old(sources[k].Life()))
        invariant forall k | i <= k < |sources| :: sources[k].Life() == old(sources[k].Life())
      {
        sources[i].NotifyStarted();
        i := i + 1;
      }
    }

    method NotifyAllStopped()
      requires Valid()
      modifies sources
      ensures Valid()
      ensures forall s | s in sources :: s.Life() == L.NotifyStopped(old(s.Life()))
    {
      var i := 0;
      while i < |sources|
        invariant 0 <= i <= |sources|
        invariant forall k | 0 <= k < i :: sources[k].Life() == L.NotifyStopped(old(sources[k].Life()))
        invariant forall k | i <= k < |sources| :: sources[k].Life() == old(sources[k].Life())
      {
        sources[i].NotifyStopped();
        i := i + 1;
      }
    }

    method Configure(settings: nat) returns (ok: bool)
      modifies this`settings
      ensures Value() == L.Configure(old(Value()), settings).channel && ok == L.Configure(old(Value()), settings).ok
      ensures ok <==> state == L.READY
      ensures this.settings == if ok then settings else old(this.settings)
    {
      ok := state == L.READY;
      if ok {
        this.settings := settings;
      }
    }
  }
}
