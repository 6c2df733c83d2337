/** The reload protocol: provider callbacks merge data and put a token into a channel with one
    slot, a receiver takes tokens and refreshes all subscribers, and Close ends it. Each step is
    one section of code that runs under one lock, one channel operation, or one subscriber's turn. */
module ConfigReload {
  import opened Decimal
  import opened ConfigLayers

  /** The notification channel: not made, or made with its slot empty or full. */
  datatype Chan = NoChan | Open(full: bool) | Closed(full: bool)

  /** The fields that the configuration guards with its lock. */
  datatype Shared = Shared(layers: seq<Layer>, chan: Chan, closed: bool)

  /** The result of a section that may panic on the channel. */
  datatype Outcome = Fine(shared: Shared) | Panicked

  function Send(sh: Shared): Outcome {
    match sh.chan
    case NoChan => Fine(sh)
    case Open(_) => Fine(sh.(chan := Open(true)))
    case Closed(_) => Panicked
  }

  /** A provider reports `data` for layer `i`; `mergeOk` is whether the layer accepts it. */
  function Change(sh: Shared, i: nat, data: Layer, mergeOk: bool): Outcome
    requires i < |sh.layers|
  {
    if sh.chan.NoChan? || sh.closed || !mergeOk then Fine(sh)
    else Send(sh.(layers := sh.layers[i := sh.layers[i] + data]))
  }

  function Close(sh: Shared): Outcome {
    if sh.closed then Fine(sh)
    else
      match sh.chan
      case NoChan => Fine(sh.(closed := true))
      case Open(full) => Fine(sh.(chan := Closed(full), closed := true))
      case Closed(_) => Panicked
  }

  /** What the refresh callback of a component does with a new configuration; the comparison with
      the old one may panic as well. */
  datatype Answer = Accept | Reject | CallbackPanics | ComparePanics

  /** A component: its configuration and whether its last refresh failed. */
  datatype Component<T> = Component(data: T, failed: bool)

  function Refreshed<T>(c: Component<T>, new': T, equal: bool, answer: Answer): Component<T> {
    if answer.ComparePanics? then c.(failed := true)
    else if equal then c.(failed := false)
    else if answer.Accept? then Component(new', false)
    else c.(failed := true)
  }

  /** How the components compute and compare their configurations, by subscription number. */
  datatype Components<!T> = Components(create: (nat, Layer) -> T, same: (nat, T, T) -> bool)

  /** A subscriber; `current` is whether it was up to date when it subscribed or at the last load,
      and becomes true with every turn. */
  datatype Subscriber<T> = Subscriber(component: Component<T>, current: bool)

  datatype Receiver = NotStarted | Waiting | Holding | Triggering(served: set<nat>) | Ended

  datatype State<T> = State(
    env: Layer, shared: Shared, watched: set<nat>, watching: bool,
    subs: seq<Subscriber<T>>, receiver: Receiver, panicked: bool, closings: nat)

  datatype Event<T> =
    | LoadProvider(data: Layer)
    | MakeChannel
    | RegisterCallback(i: nat)
    | StartReceiver
    | ProviderChange(i: nat, data: Layer, mergeOk: bool)
    | Receive
    | RangeEnds
    | BeginTrigger
    | Serve(k: nat, answer: Answer)
    | UpdateSelf(k: nat, answer: Answer)
    | EndTrigger
    | Subscribe(snapshot: T)
    | CloseConfig

  function All<T>(s: State<T>): Layer {
    Merged(s.shared.layers, s.env)
  }

  /** A component is up to date when it has what it would create now, or something equal to it. */
  predicate Fresh<T(==)>(c: Components<T>, k: nat, x: Component<T>, merged: Layer) {
    x.data == c.create(k, merged) || c.same(k, c.create(k, merged), x.data)
  }

  /** The write lock is free: the receiver is not holding the read lock. */
  predicate Unlocked<T>(s: State<T>) {
    !s.receiver.Triggering?
  }

  predicate Enabled<T>(s: State<T>, e: Event<T>) {
    !s.panicked &&
    match e
    case LoadProvider(_) => true
    case MakeChannel => !s.watching
    case RegisterCallback(i) => s.watching && s.receiver.NotStarted? && i < |s.shared.layers|
    case StartReceiver => s.watching && s.receiver.NotStarted?
    case ProviderChange(i, _, _) => Unlocked(s) && i in s.watched && i < |s.shared.layers|
    case Receive => s.receiver.Waiting? && !s.shared.chan.NoChan? && s.shared.chan.full
    case RangeEnds => s.receiver.Waiting? && s.shared.chan == Closed(false)
    case BeginTrigger => s.receiver.Holding?
    case Serve(k, _) => s.receiver.Triggering? && k < |s.subs| && k !in s.receiver.served
    case UpdateSelf(k, _) => k < |s.subs|
    case EndTrigger => s.receiver.Triggering? && forall k :: 0 <= k < |s.subs| ==> k in s.receiver.served
    case Subscribe(_) => Unlocked(s)
    case CloseConfig => Unlocked(s)
  }

  function WithOutcome<T>(s: State<T>, o: Outcome): State<T> {
    match o
    case Fine(sh) => s.(shared := sh)
    case Panicked => s.(panicked := true)
  }

  function Served<T(==)>(c: Components<T>, s: State<T>, k: nat, answer: Answer): Subscriber<T>
    requires k < |s.subs|
  {
    var x, new' := s.subs[k].component, c.create(k, All(s));
    Subscriber(Refreshed(x, new', c.same(k, new', x.data), answer), true)
  }

  /** Loading a provider takes no lock and tells nobody, so a subscriber may be out of date from then on. */
  function Rechecked<T(==)>(c: Components<T>, s: State<T>, k: nat): Subscriber<T>
    requires k < |s.subs|
  {
    s.subs[k].(current := Fresh(c, k, s.subs[k].component, All(s)))
  }

  function Next<T(==)>(c: Components<T>, s: State<T>, e: Event<T>): State<T>
    requires Enabled(s, e)
  {
    match e
    case LoadProvider(data) =>
      var t := s.(shared := s.shared.(layers := [data] + s.shared.layers), watched := set i | i in s.watched :: i + 1);
      t.(subs := seq(|s.subs|, k requires 0 <= k < |s.subs| => Rechecked(c, t, k)))
    case MakeChannel => s.(watching := true, shared := s.shared.(chan := Open(false)))
    case RegisterCallback(i) => s.(watched := s.watched + {i})
    case StartReceiver => s.(receiver := Waiting)
    case ProviderChange(i, data, mergeOk) => WithOutcome(s, Change(s.shared, i, data, mergeOk))
    case Receive =>
      var chan := if s.shared.chan.Open? then Open(false) else Closed(false);
      s.(receiver := Holding, shared := s.shared.(chan := chan))
    case RangeEnds => s.(receiver := Ended)
    case BeginTrigger => s.(receiver := Triggering({}))
    case Serve(k, answer) =>
      s.(subs := s.subs[k := Served(c, s, k, answer)], receiver := Triggering(s.receiver.served + {k}))
    case UpdateSelf(k, answer) => s.(subs := s.subs[k := Served(c, s, k, answer)])
    case EndTrigger => s.(receiver := Waiting)
    case Subscribe(snapshot) =>
      var x := Component(snapshot, false);
      s.(subs := s.subs + [Subscriber(x, Fresh(c, |s.subs|, x, All(s)))])
    case CloseConfig =>
      var closing := !s.shared.closed && !s.shared.chan.NoChan?;
      WithOutcome(s, Close(s.shared)).(closings := s.closings + if closing then 1 else 0)
  }

  /** Nothing loaded, made or subscribed yet. */
  function Init<T>(env: Layer): State<T> {
    State(env, Shared([], NoChan, false), {}, false, [], NotStarted, false, 0)
  }

  ghost predicate Runs<T>(c: Components<T>, s: State<T>, events: seq<Event<T>>, s': State<T>)
    decreases |events|
  {
    if events == [] then s' == s
    else Enabled(s, events[0]) && Runs(c, Next(c, s, events[0]), events[1..], s')
  }

  // ---------- No lost update ----------

  predicate TokenInSlot<T>(s: State<T>) {
    !s.shared.chan.NoChan? && s.shared.chan.full
  }

  /** A refresh of subscriber `k` is still to come. */
  predicate Pending<T>(s: State<T>, k: nat) {
    || TokenInSlot(s)
    || s.receiver.Holding?
    || (s.receiver.Triggering? && k !in s.receiver.served)
  }

  /** A current subscriber is up to date and one that is not current is not, or its turn is to come. */
  predicate Covered<T(==)>(c: Components<T>, s: State<T>, k: nat)
    requires k < |s.subs|
  {
    var x := s.subs[k];
    && (x.current && !x.component.failed ==> Fresh(c, k, x.component, All(s)) || Pending(s, k))
    && (!x.current ==> !Fresh(c, k, x.component, All(s)) || Pending(s, k))
  }

  ghost predicate NothingLost<T>(c: Components<T>, s: State<T>) {
    forall k :: 0 <= k < |s.subs| ==> Covered(c, s, k)
  }

  /** The channel is closed by Close alone, once; before Watch there is no channel and no callback. */
  predicate ChannelSafe<T>(s: State<T>) {
    && !s.panicked
    && (s.shared.chan.Closed? ==> s.shared.closed)
    && (!s.watching ==> s.shared.chan.NoChan? && s.watched == {} && s.receiver.NotStarted?)
    && s.closings <= 1
    && (s.closings == 1 <==> s.shared.chan.Closed?)
  }

  lemma ServeCovers<T>(c: Components<T>, s: State<T>, k: nat, answer: Answer)
    requires k < |s.subs|
    ensures var x := Served(c, s, k, answer).component;
      x.failed || Fresh(c, k, x, All(s))
  {}

  lemma StepSafe<T>(c: Components<T>, s: State<T>, e: Event<T>)
    requires ChannelSafe(s) && Enabled(s, e)
    ensures ChannelSafe(Next(c, s, e))
  {}

  lemma StepCovers<T>(c: Components<T>, s: State<T>, e: Event<T>)
    requires ChannelSafe(s) && NothingLost(c, s) && Enabled(s, e)
    ensures NothingLost(c, Next(c, s, e))
  {
    var s' := Next(c, s, e);
    forall k | 0 <= k < |s'.subs| ensures Covered(c, s', k) {
      if k < |s.subs| {
        assert Covered(c, s, k);
      }
      if (e.Serve? || e.UpdateSelf?) && e.k == k {
        ServeCovers(c, s, k, e.answer);
      }
    }
  }

  /** A quiet state: no token in the slot and none on its way to the subscribers. */
  predicate Quiet<T>(s: State<T>) {
    !TokenInSlot(s) && !s.receiver.Holding? && !s.receiver.Triggering?
  }

  lemma {:induction false} RunKeeps<T>(c: Components<T>, s: State<T>, events: seq<Event<T>>, s': State<T>)
    requires ChannelSafe(s) && NothingLost(c, s) && Runs(c, s, events, s')
    ensures ChannelSafe(s') && NothingLost(c, s')
    decreases |events|
  {
    if events != [] {
      StepSafe(c, s, events[0]);
      StepCovers(c, s, events[0]);
      RunKeeps(c, Next(c, s, events[0]), events[1..], s');
    }
  }

  /** No update is lost, although tokens are dropped when the slot is full: whenever the system is
      quiet, a subscriber whose last refresh did not fail has the configuration that it would create
      from the layers as they are now, exactly if it is a current one. */
  lemma NoLostUpdate<T>(c: Components<T>, env: Layer, events: seq<Event<T>>, s: State<T>, k: nat)
    requires Runs(c, Init(env), events, s) && Quiet(s)
    requires k < |s.subs| && !s.subs[k].component.failed
    ensures Fresh(c, k, s.subs[k].component, All(s)) <==> s.subs[k].current
  {
    RunKeeps(c, Init(env), events, s);
    assert Covered(c, s, k);
  }

  /** In every run no send meets a closed channel, and the channel is closed at most once. */
  lemma ShutdownSafe<T>(c: Components<T>, env: Layer, events: seq<Event<T>>, s: State<T>)
    requires Runs(c, Init(env), events, s)
    ensures !s.panicked && s.closings <= 1 && (s.shared.chan.Closed? <==> s.closings == 1)
  {
    RunKeeps(c, Init(env), events, s);
  }

  /** After Close no callback changes a layer or puts a token into the slot; only loading a provider
      still adds its layer, in front of the others. */
  lemma ClosedIsFinal<T>(c: Components<T>, s: State<T>, e: Event<T>)
    requires ChannelSafe(s) && Enabled(s, e) && s.shared.closed
    ensures Next(c, s, e).shared.closed
    ensures Next(c, s, e).shared.layers == (if e.LoadProvider? then [e.data] else []) + s.shared.layers
    ensures TokenInSlot(Next(c, s, e)) ==> TokenInSlot(s)
  {}

  // ---------- Catching up ----------

  lemma {:induction false} RunsAppend<T>(c: Components<T>, s: State<T>, a: seq<Event<T>>, t: State<T>, e: Event<T>)
    requires Runs(c, s, a, t) && Enabled(t, e)
    ensures Runs(c, s, a + [e], Next(c, t, e))
    decreases |a|
  {
    if a == [] {
      assert a + [e] == [e];
      assert Runs(c, Next(c, t, e), [e][1..], Next(c, t, e));
    } else {
      RunsAppend(c, Next(c, s, a[0]), a[1..], t, e);
      assert (a + [e])[1..] == a[1..] + [e];
    }
  }

  /** One more step of a run. */
  lemma Extend<T>(c: Components<T>, start: State<T>, before: seq<Event<T>>, s: State<T>, e: Event<T>)
    returns (events: seq<Event<T>>, s': State<T>)
    requires Runs(c, start, before, s) && Enabled(s, e)
    ensures events == before + [e] && s' == Next(c, s, e) && Runs(c, start, events, s')
  {
    events, s' := before + [e], Next(c, s, e);
    RunsAppend(c, start, before, s, e);
  }

  /** A subscriber that has what it would create now. */
  predicate UpToDate<T(==)>(c: Components<T>, s: State<T>, k: nat)
    requires k < |s.subs|
  {
    !s.subs[k].component.failed && Fresh(c, k, s.subs[k].component, All(s))
  }

  lemma AcceptedServe<T>(c: Components<T>, s: State<T>, k: nat)
    requires Enabled(s, Serve(k, Accept))
    ensures UpToDate(c, Next(c, s, Serve(k, Accept)), k)
    ensures forall i :: 0 <= i < |s.subs| && i != k && UpToDate(c, s, i) ==> UpToDate(c, Next(c, s, Serve(k, Accept)), i)
  {}

  /** From a token taken out of the slot, the receiver alone, with callbacks that accept, brings every
      subscriber up to date, current or not. */
  lemma TriggerRefreshesAll<T>(c: Components<T>, s: State<T>) returns (events: seq<Event<T>>, s': State<T>)
    requires !s.panicked && s.receiver.Holding?
    ensures Runs(c, s, events, s') && s'.receiver.Waiting? && s'.shared == s.shared && |s'.subs| == |s.subs|
    ensures !s'.panicked
    ensures forall k :: 0 <= k < |s'.subs| ==> UpToDate(c, s', k)
  {
    events, s' := [], s;
    events, s' := Extend(c, s, events, s', BeginTrigger);
    var k := 0;
    while k < |s.subs|
      invariant 0 <= k <= |s.subs| == |s'.subs|
      invariant Runs(c, s, events, s') && !s'.panicked && s'.shared == s.shared && s'.env == s.env
      invariant s'.receiver.Triggering? && forall i: nat :: i < |s.subs| ==> (i in s'.receiver.served <==> i < k)
      invariant forall i :: 0 <= i < k ==> UpToDate(c, s', i)
    {
      AcceptedServe(c, s', k);
      events, s' := Extend(c, s, events, s', Serve(k, Accept));
      k := k + 1;
    }
    ghost var served := s';
    events, s' := Extend(c, s, events, s', EndTrigger);
    assert forall i :: 0 <= i < |s.subs| && UpToDate(c, served, i) ==> UpToDate(c, s', i);
  }

  lemma {:induction false} RunsJoin<T>(c: Components<T>, s: State<T>, a: seq<Event<T>>, t: State<T>,
                                       b: seq<Event<T>>, u: State<T>)
    requires Runs(c, s, a, t) && Runs(c, t, b, u)
    ensures Runs(c, s, a + b, u)
    decreases |a|
  {
    if a == [] {
      assert a + b == b;
    } else {
      RunsJoin(c, Next(c, s, a[0]), a[1..], t, b, u);
      assert (a + b)[1..] == a[1..] + b;
    }
  }

  /** A change that a provider reports reaches all subscribers: from it there is a run that ends with the
      data merged into the provider's layer and everybody up to date with that. */
  lemma UpdateReachesAll<T>(c: Components<T>, s: State<T>, i: nat, data: Layer)
    returns (events: seq<Event<T>>, s': State<T>)
    requires ChannelSafe(s) && s.receiver.Waiting? && s.shared.chan.Open? && !s.shared.closed
    requires i in s.watched && i < |s.shared.layers|
    ensures Runs(c, s, events, s') && events != [] && events[0] == ProviderChange(i, data, true)
    ensures s'.receiver.Waiting? && !TokenInSlot(s') && |s'.subs| == |s.subs|
    ensures s'.shared.layers == s.shared.layers[i := s.shared.layers[i] + data]
    ensures forall k :: 0 <= k < |s'.subs| ==> UpToDate(c, s', k)
  {
    events, s' := Extend(c, s, [], s, ProviderChange(i, data, true));
    events, s' := Extend(c, s, events, s', Receive);
    var more, t := TriggerRefreshesAll(c, s');
    RunsJoin(c, s, events, s', more, t);
    events, s' := events + more, t;
  }

  /** Such a state is reached: a provider is loaded, the channel made, its callback registered, and the
      receiver started. */
  lemma ReadyRun<T>(c: Components<T>, env: Layer, data: Layer) returns (events: seq<Event<T>>, s: State<T>)
    ensures Runs(c, Init(env), events, s) && ChannelSafe(s)
    ensures s.receiver.Waiting? && s.shared == Shared([data], Open(false), false) && s.watched == {0}
  {
    events, s := Extend(c, Init(env), [], Init(env), LoadProvider(data));
    events, s := Extend(c, Init(env), events, s, MakeChannel);
    events, s := Extend(c, Init(env), events, s, RegisterCallback(0));
    events, s := Extend(c, Init(env), events, s, StartReceiver);
    RunKeeps(c, Init(env), events, s);
  }

  /** What Close does to the shared fields, before Watch, after it, and the second time. */
  lemma CloseOnce<T>(c: Components<T>, s: State<T>)
    requires ChannelSafe(s) && Enabled(s, CloseConfig)
    ensures var t := Next(c, s, CloseConfig);
      && t.shared.closed && t.shared.layers == s.shared.layers && t.subs == s.subs
      && (s.shared.closed ==> t == s)
      && (!s.shared.closed && !s.shared.chan.NoChan? ==> t.shared.chan == Closed(s.shared.chan.full))
      && (s.shared.chan.NoChan? ==> t.shared.chan == NoChan)
  {}

  /** After Close the receiver comes to its end, with the token in the slot served first. */
  lemma ShutdownEnds<T>(c: Components<T>, s: State<T>) returns (events: seq<Event<T>>, s': State<T>)
    requires ChannelSafe(s) && s.receiver.Waiting? && s.shared.chan.Closed?
    ensures Runs(c, s, events, s') && s'.receiver.Ended? && s'.shared.layers == s.shared.layers
    ensures |s'.subs| == |s.subs| && (TokenInSlot(s) ==> forall k :: 0 <= k < |s'.subs| ==> UpToDate(c, s', k))
  {
    events, s' := [], s;
    if TokenInSlot(s) {
      events, s' := Extend(c, s, events, s', Receive);
      var more, t := TriggerRefreshesAll(c, s');
      RunsJoin(c, s, events, s', more, t);
      events, s' := events + more, t;
    }
    ghost var before := s';
    events, s' := Extend(c, s, events, s', RangeEnds);
    assert forall k :: 0 <= k < |s.subs| && UpToDate(c, before, k) ==> UpToDate(c, s', k);
  }

  /** A subscriber that was out of date when it subscribed stays so until some later change: the
      claim above needs current subscribers. */
  lemma StaleSubscriber<T>(c: Components<T>, env: Layer, old': T)
    requires old' != c.create(0, env) && !c.same(0, c.create(0, env), old')
    ensures var s := Next(c, Init(env), Subscribe(old'));
      && Runs(c, Init(env), [Subscribe(old')], s) && Quiet(s)
      && !s.subs[0].component.failed && !Fresh(c, 0, s.subs[0].component, All(s))
  {
    var s := Next(c, Init(env), Subscribe(old'));
    assert [Subscribe(old')][1..] == [];
    assert Runs(c, s, [], s);
  }

  /** A provider loaded after Watch is noticed by nobody either. */
  lemma LateLoad<T>(c: Components<T>, env: Layer, data: Layer) returns (events: seq<Event<T>>, s: State<T>)
    requires var old', new' := c.create(0, env), c.create(0, env + data);
      new' != old' && !c.same(0, new', old')
    ensures events == [MakeChannel, StartReceiver, Subscribe(c.create(0, env)), LoadProvider(data)]
    ensures Runs(c, Init(env), events, s) && Quiet(s)
    ensures |s.subs| == 1 && !s.subs[0].component.failed && !Fresh(c, 0, s.subs[0].component, All(s))
  {
    events, s := [], Init(env);
    events, s := Extend(c, Init(env), events, s, MakeChannel);
    events, s := Extend(c, Init(env), events, s, StartReceiver);
    events, s := Extend(c, Init(env), events, s, Subscribe(c.create(0, env)));
    events, s := Extend(c, Init(env), events, s, LoadProvider(data));
    assert s.shared.layers == [data] && [data][1..] == [];
    assert All(s) == env + data;
  }

  // ---------- Whose callbacks report ----------

  /** The providers, numbered in the order of their loads, that the events register a callback for when
      `n` were loaded before. */
  function CallbacksOf<T>(events: seq<Event<T>>, n: nat): set<int>
    decreases |events|
  {
    if events == [] then {}
    else
      match events[0]
      case LoadProvider(_) => CallbacksOf(events[1..], n + 1)
      case RegisterCallback(i) => {n - 1 - i} + CallbacksOf(events[1..], n)
      case _ => CallbacksOf(events[1..], n)
  }

  /** The numbers of the providers whose layers are watched. */
  function WatchedProviders<T>(s: State<T>): set<int> {
    set i | i in s.watched :: |s.shared.layers| - 1 - i
  }

  lemma StepWatched<T>(c: Components<T>, s: State<T>, e: Event<T>)
    requires Enabled(s, e) && !Next(c, s, e).panicked
    ensures |Next(c, s, e).shared.layers| == |s.shared.layers| + if e.LoadProvider? then 1 else 0
    ensures WatchedProviders(Next(c, s, e)) ==
      WatchedProviders(s) + if e.RegisterCallback? then {|s.shared.layers| - 1 - e.i} else {}
  {
    var t := Next(c, s, e);
    if e.LoadProvider? {
      forall i | i in s.watched ensures |s.shared.layers| - 1 - i in WatchedProviders(t) {
        assert i + 1 in t.watched;
      }
    } else if e.RegisterCallback? {
      assert e.i in t.watched;
    } else {
      assert t.watched == s.watched;
    }
  }

  lemma {:induction false} RunWatched<T>(c: Components<T>, s: State<T>, events: seq<Event<T>>, s': State<T>)
    requires Runs(c, s, events, s') && ChannelSafe(s)
    ensures WatchedProviders(s') == WatchedProviders(s) + CallbacksOf(events, |s.shared.layers|)
    decreases |events|
  {
    if events != [] {
      StepSafe(c, s, events[0]);
      StepWatched(c, s, events[0]);
      RunWatched(c, Next(c, s, events[0]), events[1..], s');
    }
  }

  /** However many providers are loaded before or after, exactly those report changes that a callback was
      registered for. */
  lemma CallbacksReport<T>(c: Components<T>, env: Layer, events: seq<Event<T>>, s: State<T>, j: nat)
    requires Runs(c, Init(env), events, s) && j < |s.shared.layers|
    ensures j in CallbacksOf(events, 0) <==> |s.shared.layers| - 1 - j in s.watched
  {
    RunWatched(c, Init(env), events, s);
    var i := |s.shared.layers| - 1 - j;
    if i in s.watched {
      assert |s.shared.layers| - 1 - i in WatchedProviders(s);
    }
    assert WatchedProviders(Init<T>(env)) == {};
  }

  /** What the guards keep out: a send or a second close on a closed channel panics. */
  lemma PanicsExactly(sh: Shared, i: nat, data: Layer, mergeOk: bool)
    requires i < |sh.layers|
    ensures Change(sh, i, data, mergeOk) == Panicked <==> sh.chan.Closed? && !sh.closed && mergeOk
    ensures Close(sh) == Panicked <==> sh.chan.Closed? && !sh.closed
  {}

  // ---------- Lookups during a run ----------

  /** What one step does to the layers, as the provider loaded as number j sees it. */
  function Effect<T>(s: State<T>, e: Event<T>): seq<Update> {
    match e
    case LoadProvider(data) => [Load(data)]
    case ProviderChange(i, data, mergeOk) =>
      if s.shared.chan.NoChan? || s.shared.closed || !mergeOk || i >= |s.shared.layers| then []
      else [Update.Merge(|s.shared.layers| - 1 - i, data)]
    case _ => []
  }

  /** The loads and merges of a run, in order. */
  ghost function LogOf<T>(c: Components<T>, s: State<T>, events: seq<Event<T>>, log: seq<Update>): seq<Update>
    decreases |events|
  {
    if events == [] || !Enabled(s, events[0]) then log
    else LogOf(c, Next(c, s, events[0]), events[1..], log + Effect(s, events[0]))
  }

  lemma EffectOnLayers<T>(c: Components<T>, s: State<T>, e: Event<T>)
    requires ChannelSafe(s) && Enabled(s, e)
    ensures Next(c, s, e).env == s.env && |Effect(s, e)| <= 1
    ensures Next(c, s, e).shared.layers ==
      if Effect(s, e) == [] then s.shared.layers else Updated(s.shared.layers, Effect(s, e)[0])
  {}

  lemma StepIsEffect<T>(c: Components<T>, s: State<T>, e: Event<T>, log: seq<Update>)
    requires ChannelSafe(s) && Enabled(s, e) && s.shared.layers == LayersAfter(log)
    ensures Next(c, s, e).shared.layers == LayersAfter(log + Effect(s, e)) && Next(c, s, e).env == s.env
  {
    EffectOnLayers(c, s, e);
    LogGrows(log, Effect(s, e));
  }

  lemma LogGrows(log: seq<Update>, more: seq<Update>)
    requires |more| <= 1
    ensures LayersAfter(log + more) == if more == [] then LayersAfter(log) else Updated(LayersAfter(log), more[0])
  {
    if more == [] {
      assert log + more == log;
    } else {
      assert more == [more[0]];
      LayersAppend(log, more[0]);
    }
  }

  /** The layers of a run are those that its loads and merges build. */
  lemma {:induction false} RunIsLog<T>(c: Components<T>, s: State<T>, events: seq<Event<T>>, s': State<T>, log: seq<Update>)
    requires ChannelSafe(s) && Runs(c, s, events, s') && s.shared.layers == LayersAfter(log)
    ensures s'.shared.layers == LayersAfter(LogOf(c, s, events, log)) && s'.env == s.env
    decreases |events|
  {
    if events != [] {
      var e := events[0];
      StepSafe(c, s, e);
      StepIsEffect(c, s, e, log);
      RunIsLog(c, Next(c, s, e), events[1..], s', log + Effect(s, e));
    }
  }

  /** In every run a lookup yields what the provider loaded last among those that bound the key
      reported last, and it agrees with the merged map. */
  lemma LookupInRun<T>(c: Components<T>, env: Layer, events: seq<Event<T>>, s: State<T>, key: string)
    requires Runs(c, Init(env), events, s)
    ensures var log := LogOf(c, Init(env), events, []);
      Lookup(s.shared.layers, env, key) == Winner(log, env, Loads(log), key)
    ensures Lookup(s.shared.layers, env, key) == Bound(All(s), key)
  {
    RunIsLog(c, Init(env), events, s, []);
    LookupIsWinner(LogOf(c, Init(env), events, []), env, key);
    LookupIsMerged(s.shared.layers, env, key);
  }
}
