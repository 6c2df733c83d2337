/** The configuration and its watchers as the objects they are; every method is one step of the
    reload protocol. */
module ConfigObjects {
  import opened Decimal
  import opened ConfigLayers
  import opened ConfigReload

  /** A provider's layer, updated in place. */
  class Storage {
    var viper: Layer

    constructor (data: Layer)
      ensures viper == data
    {
      viper := data;
    }
  }

  /** The configuration of one component. `accepted` records the initial configuration and every one
      that took effect. */
  class ConfigWatcher<T(==)> {
    var configData: T
    var onRefresh: bool
    ghost var accepted: seq<T>
    ghost var failed: bool

    ghost predicate Valid()
      reads this
    {
      accepted != [] && configData == accepted[|accepted| - 1]
    }

    ghost function View(): Component<T>
      reads this
    {
      Component(configData, failed)
    }

    constructor (initial: T)
      ensures Valid() && View() == Component(initial, false) && accepted == [initial] && !onRefresh
    {
      configData := initial;
      onRefresh := false;
      accepted := [initial];
      failed := false;
    }

    method OnRefresh()
      requires Valid()
      modifies this
      ensures Valid() && onRefresh && View() == old(View()) && accepted == old(accepted)
    {
      onRefresh := true;
    }

    method Get() returns (data: T)
      requires Valid()
      ensures data == accepted[|accepted| - 1]
    {
      data := configData;
    }

    /** `newCfg` is what the component would create now, `equal` how it compares with the stored
        configuration, `answer` what the comparison and the callback do on this call. A panic is
        reported as an error, with the first result left as it was set at the start. */
    method TryUpdate(newCfg: T, equal: bool, answer: Answer) returns (ok: bool, err: bool)
      requires Valid()
      modifies this
      ensures Valid()
      ensures var a := if onRefresh || answer.ComparePanics? then answer else Accept;
        && onRefresh == old(onRefresh)
        && View() == Refreshed(old(View()), newCfg, equal, a)
        && accepted == old(accepted) + (if !equal && a.Accept? then [newCfg] else [])
        && err == failed == (a.ComparePanics? || (!equal && !a.Accept?))
        && ok == (a.ComparePanics? || (!equal && !a.Reject?))
    {
      ok, err := true, false;
      failed := false;
      if answer.ComparePanics? {
        err, failed := true, true;
        return;
      }
      if equal {
        ok := false;
        return;
      }
      if onRefresh {
        if answer.Reject? {
          ok, err, failed := false, true, true;
          return;
        }
        if answer.CallbackPanics? {
          err, failed := true, true;
          return;
        }
      }
      configData := newCfg;
      accepted := accepted + [newCfg];
    }
  }

  /** One turn of a component as subscription number `k`. */
  function Turn<T(==)>(c: Components<T>, k: nat, merged: Layer, answer: Answer, hasCallback: bool, x: Component<T>)
    : Component<T>
  {
    var new' := c.create(k, merged);
    Refreshed(x, new', c.same(k, new', x.data), if hasCallback || answer.ComparePanics? then answer else Accept)
  }

  /** A turn is what the protocol serves; without a callback every configuration is accepted. */
  lemma TurnIsServed<T>(c: Components<T>, s: State<T>, k: nat, answer: Answer)
    requires k < |s.subs|
    ensures Turn(c, k, All(s), answer, true, s.subs[k].component) == Served(c, s, k, answer).component
    ensures Turn(c, k, All(s), answer, false, s.subs[k].component) ==
      Served(c, s, k, if answer.ComparePanics? then answer else Accept).component
  {}

  /** What a trigger makes of a watcher that is subscribed once: the configuration of the layers when it
      differs and is accepted, else the old one, with a failure if it was not accepted. */
  ghost predicate RefreshedFrom<T>(c: Components<T>, k: nat, layers: seq<Layer>, env: Layer, answer: Answer,
                                       hasCallback: bool, before: Component<T>, after: Component<T>)
  {
    var new' := c.create(k, Merged(layers, env));
    if answer.ComparePanics? then after == Component(before.data, true)
    else if c.same(k, new', before.data) then after == Component(before.data, false)
    else if answer.Accept? || !hasCallback then after == Component(new', false)
    else after == Component(before.data, true)
  }

  ghost predicate SubscribedOnce<T>(subscribes: seq<ConfigWatcher<T>>, k: nat) {
    k < |subscribes| && forall i :: 0 <= i < |subscribes| && i != k ==> subscribes[i] != subscribes[k]
  }

  /** Subscription numbers, each at most once. */
  ghost predicate Distinct(turns: seq<nat>) {
    forall i, j :: 0 <= i < j < |turns| ==> turns[i] != turns[j]
  }

  ghost predicate Within(turns: seq<nat>, n: nat) {
    forall i :: 0 <= i < |turns| ==> turns[i] < n
  }

  /** All of `n` subscriptions, in some order. */
  ghost predicate IsOrder(turns: seq<nat>, n: nat) {
    Distinct(turns) && Within(turns, n) && forall k: nat :: k < n ==> k in turns
  }

  function Numbers(n: nat): (ks: set<nat>)
    ensures forall k: nat :: k in ks <==> k < n
  {
    if n == 0 then {} else Numbers(n - 1) + {n - 1}
  }

  /** The component of a watcher after some turns; it may hold several subscriptions. */
  ghost function Turns<T>(subscribes: seq<ConfigWatcher<T>>, w: ConfigWatcher<T>, c: Components<T>, merged: Layer,
                          answers: seq<Answer>, x: Component<T>, hasCallback: bool, turns: seq<nat>): Component<T>
    requires |subscribes| == |answers| && Within(turns, |subscribes|)
  {
    if turns == [] then x
    else
      var k := turns[|turns| - 1];
      var before := Turns(subscribes, w, c, merged, answers, x, hasCallback, turns[..|turns| - 1]);
      if subscribes[k] == w then Turn(c, k, merged, answers[k], hasCallback, before) else before
  }

  /** A watcher that is subscribed once takes exactly one turn, in whatever order. */
  lemma {:induction false} OneTurn<T>(subscribes: seq<ConfigWatcher<T>>, k: nat, c: Components<T>, merged: Layer,
                                      answers: seq<Answer>, x: Component<T>, hasCallback: bool, turns: seq<nat>)
    requires |subscribes| == |answers| && Distinct(turns) && Within(turns, |subscribes|)
    requires SubscribedOnce(subscribes, k)
    ensures Turns(subscribes, subscribes[k], c, merged, answers, x, hasCallback, turns) ==
      if k in turns then Turn(c, k, merged, answers[k], hasCallback, x) else x
  {
    if turns != [] {
      var n := |turns| - 1;
      assert forall i :: i in turns <==> i in turns[..n] || i == turns[n];
      OneTurn(subscribes, k, c, merged, answers, x, hasCallback, turns[..n]);
    }
  }

  /** No later turn is one of the same watcher. */
  ghost predicate LastTurn<T>(subscribes: seq<ConfigWatcher<T>>, turns: seq<nat>, n: nat)
    requires Within(turns, |subscribes|)
  {
    n < |turns| && forall m :: n < m < |turns| ==> subscribes[turns[m]] != subscribes[turns[n]]
  }

  /** A watcher is left as its last turn leaves it, however often it is subscribed. */
  lemma {:induction false} LastTurnCounts<T>(subscribes: seq<ConfigWatcher<T>>, n: nat, c: Components<T>, merged: Layer,
                                             answers: seq<Answer>, x: Component<T>, hasCallback: bool, turns: seq<nat>)
    returns (before: Component<T>)
    requires |subscribes| == |answers| && Within(turns, |subscribes|) && LastTurn(subscribes, turns, n)
    ensures Turns(subscribes, subscribes[turns[n]], c, merged, answers, x, hasCallback, turns) ==
      Turn(c, turns[n], merged, answers[turns[n]], hasCallback, before)
    decreases |turns|
  {
    var front := turns[..|turns| - 1];
    if n == |front| {
      before := Turns(subscribes, subscribes[turns[n]], c, merged, answers, x, hasCallback, front);
    } else {
      assert front[n] == turns[n] && forall m :: n < m < |front| ==> front[m] == turns[m];
      assert subscribes[turns[|front|]] != subscribes[turns[n]];
      before := LastTurnCounts(subscribes, n, c, merged, answers, x, hasCallback, front);
    }
  }

  ghost function Views<T>(subscribes: seq<ConfigWatcher<T>>): (xs: seq<Component<T>>)
    reads subscribes
    ensures |xs| == |subscribes|
  {
    seq(|subscribes|, i requires 0 <= i < |subscribes| reads subscribes => subscribes[i].View())
  }

  ghost function Callbacks<T>(subscribes: seq<ConfigWatcher<T>>): (hs: seq<bool>)
    reads subscribes
    ensures |hs| == |subscribes|
  {
    seq(|subscribes|, i requires 0 <= i < |subscribes| reads subscribes => subscribes[i].onRefresh)
  }

  /** Every watcher is as its turns left it, from the components `xs`. */
  ghost predicate AfterTurns<T>(subscribes: seq<ConfigWatcher<T>>, c: Components<T>, merged: Layer,
                                answers: seq<Answer>, xs: seq<Component<T>>, hs: seq<bool>, turns: seq<nat>)
    requires |subscribes| == |answers| == |xs| == |hs| && Within(turns, |subscribes|)
    reads subscribes
  {
    forall i :: 0 <= i < |subscribes| ==>
      var w := subscribes[i];
      w.Valid() && w.onRefresh == hs[i] && w.View() == Turns(subscribes, w, c, merged, answers, xs[i], hs[i], turns)
  }

  lemma NextTurn<T>(subscribes: seq<ConfigWatcher<T>>, w: ConfigWatcher<T>, c: Components<T>, merged: Layer,
                    answers: seq<Answer>, x: Component<T>, hasCallback: bool, turns: seq<nat>, k: nat)
    requires k < |subscribes| == |answers| && Within(turns, |subscribes|)
    ensures var before := Turns(subscribes, w, c, merged, answers, x, hasCallback, turns);
      Turns(subscribes, w, c, merged, answers, x, hasCallback, turns + [k]) ==
      if subscribes[k] == w then Turn(c, k, merged, answers[k], hasCallback, before) else before
  {
    assert (turns + [k])[..|turns|] == turns;
  }

  /** The goroutine of one subscription. */
  method TakeTurn<T(==)>(subscribes: seq<ConfigWatcher<T>>, c: Components<T>, k: nat, merged: Layer, answers: seq<Answer>,
                         ghost xs: seq<Component<T>>, ghost hs: seq<bool>, ghost turns: seq<nat>)
    requires k < |subscribes| == |answers| == |xs| == |hs| && Within(turns, |subscribes|)
    requires AfterTurns(subscribes, c, merged, answers, xs, hs, turns)
    modifies subscribes[k]
    ensures AfterTurns(subscribes, c, merged, answers, xs, hs, turns + [k])
  {
    var w := subscribes[k];
    var newCfg := c.create(k, merged);
    var ok, err := w.TryUpdate(newCfg, c.same(k, newCfg, w.configData), answers[k]);
    forall i | 0 <= i < |subscribes|
      ensures subscribes[i].View() ==
        Turns(subscribes, subscribes[i], c, merged, answers, xs[i], hs[i], turns + [k])
    {
      NextTurn(subscribes, subscribes[i], c, merged, answers, xs[i], hs[i], turns, k);
    }
  }

  lemma NoTurns<T>(subscribes: seq<ConfigWatcher<T>>, c: Components<T>, merged: Layer, answers: seq<Answer>)
    requires |answers| == |subscribes| && forall i :: 0 <= i < |subscribes| ==> subscribes[i].Valid()
    ensures AfterTurns(subscribes, c, merged, answers, Views(subscribes), Callbacks(subscribes), [])
  {}

  /** All of them, in whatever order the locks of the watchers let them through. */
  method TakeTurns<T(==)>(subscribes: seq<ConfigWatcher<T>>, c: Components<T>, merged: Layer, answers: seq<Answer>,
                          ghost xs: seq<Component<T>>, ghost hs: seq<bool>)
    returns (ghost order: seq<nat>)
    requires |subscribes| == |answers| == |xs| == |hs|
    requires AfterTurns(subscribes, c, merged, answers, xs, hs, [])
    modifies subscribes
    ensures IsOrder(order, |subscribes|)
    ensures AfterTurns(subscribes, c, merged, answers, xs, hs, order)
  {
    order := [];
    var waiting := Numbers(|subscribes|);
    while waiting != {}
      invariant forall k: nat :: k in waiting <==> k < |subscribes| && k !in order
      invariant Distinct(order) && Within(order, |subscribes|)
      invariant AfterTurns(subscribes, c, merged, answers, xs, hs, order)
      decreases waiting
    {
      var k :| k in waiting;
      TakeTurn(subscribes, c, k, merged, answers, xs, hs, order);
      order, waiting := order + [k], waiting - {k};
    }
  }

  lemma OnceRefreshed<T>(subscribes: seq<ConfigWatcher<T>>, k: nat, c: Components<T>, layers: seq<Layer>, env: Layer,
                         answers: seq<Answer>, x: Component<T>, hasCallback: bool, order: seq<nat>)
    requires |subscribes| == |answers| && IsOrder(order, |subscribes|) && SubscribedOnce(subscribes, k)
    ensures RefreshedFrom(c, k, layers, env, answers[k], hasCallback, x,
                          Turns(subscribes, subscribes[k], c, Merged(layers, env), answers, x, hasCallback, order))
  {
    OneTurn(subscribes, k, c, Merged(layers, env), answers, x, hasCallback, order);
  }

  /** What a turn tells of the watcher it left, whatever it was before: unless the turn failed it has the
      configuration of the layers or something equal to it. */
  ghost predicate LeftBy<T>(c: Components<T>, k: nat, layers: seq<Layer>, env: Layer, answer: Answer, hasCallback: bool,
                            after: Component<T>)
  {
    var new' := c.create(k, Merged(layers, env));
    && (after.failed ==> answer.ComparePanics? || (hasCallback && !answer.Accept?))
    && (answer.ComparePanics? ==> after.failed)
    && (!after.failed ==> after.data == new' || c.same(k, new', after.data))
  }

  lemma LastRefreshed<T>(subscribes: seq<ConfigWatcher<T>>, c: Components<T>, layers: seq<Layer>, env: Layer,
                         answers: seq<Answer>, xs: seq<Component<T>>, hs: seq<bool>, order: seq<nat>)
    requires |subscribes| == |answers| == |xs| == |hs| && IsOrder(order, |subscribes|)
    requires AfterTurns(subscribes, c, Merged(layers, env), answers, xs, hs, order)
    ensures forall n :: 0 <= n < |order| && LastTurn(subscribes, order, n) ==>
      LeftBy(c, order[n], layers, env, answers[order[n]], hs[order[n]], subscribes[order[n]].View())
  {
    forall n | 0 <= n < |order| && LastTurn(subscribes, order, n)
      ensures LeftBy(c, order[n], layers, env, answers[order[n]], hs[order[n]], subscribes[order[n]].View())
    {
      var k := order[n];
      var before := LastTurnCounts(subscribes, n, c, Merged(layers, env), answers, xs[k], hs[k], order);
    }
  }

  lemma AllRefreshed<T>(subscribes: seq<ConfigWatcher<T>>, c: Components<T>, layers: seq<Layer>, env: Layer,
                        answers: seq<Answer>, xs: seq<Component<T>>, hs: seq<bool>, order: seq<nat>)
    requires |subscribes| == |answers| == |xs| == |hs| && IsOrder(order, |subscribes|)
    requires AfterTurns(subscribes, c, Merged(layers, env), answers, xs, hs, order)
    ensures forall k :: 0 <= k < |subscribes| && SubscribedOnce(subscribes, k) ==>
      RefreshedFrom(c, k, layers, env, answers[k], hs[k], xs[k], subscribes[k].View())
  {
    forall k | 0 <= k < |subscribes| && SubscribedOnce(subscribes, k)
      ensures RefreshedFrom(c, k, layers, env, answers[k], hs[k], xs[k], subscribes[k].View())
    {
      OnceRefreshed(subscribes, k, c, layers, env, answers, xs[k], hs[k], order);
    }
  }

  class Config<T(==)> {
    var envViper: Layer
    var storages: seq<Storage>
    var subscribes: seq<ConfigWatcher<T>>
    var watchChan: Chan
    var closed: bool

    ghost predicate Valid()
      reads this, storages, subscribes
    {
      && (forall i, j :: 0 <= i < j < |storages| ==> storages[i] != storages[j])
      && (forall i :: 0 <= i < |subscribes| ==> subscribes[i].Valid())
    }

    ghost function Layers(): seq<Layer>
      reads this, storages
    {
      seq(|storages|, i requires 0 <= i < |storages| reads this, storages => storages[i].viper)
    }

    /** The state that the protocol shares. */
    ghost function View(): Shared
      reads this, storages
    {
      Shared(Layers(), watchChan, closed)
    }

    constructor (env: Layer)
      ensures Valid() && View() == Shared([], NoChan, false) && envViper == env && subscribes == []
    {
      envViper := env;
      storages, subscribes := [], [];
      watchChan, closed := NoChan, false;
    }

    /** Puts a provider's layer in front of the others; a provider that cannot be read adds none. */
    method LoadFromProvider(providerData: Option<Layer>) returns (ok: bool)
      requires Valid()
      modifies this`storages
      ensures Valid() && ok == providerData.Some?
      ensures View() == if ok then old(View()).(layers := [providerData.value] + old(Layers())) else old(View())
      ensures |storages| == |Layers()|
    {
      if providerData.None? {
        return false;
      }
      var s := new Storage(providerData.value);
      storages := [s] + storages;
      return true;
    }

    /** The first half of Watch: the channel exists before any callback is registered. */
    method MakeChannel()
      requires Valid()
      modifies this`watchChan
      ensures Valid() && View() == old(View()).(chan := Open(false))
    {
      watchChan := Open(false);
    }

    /** The callback that a storage registered with its provider. */
    method OnChange(i: nat, data: Layer, mergeOk: bool) returns (panicked: bool)
      requires Valid() && i < |storages|
      modifies this`watchChan, storages[i]
      ensures Valid() && storages == old(storages)
      ensures panicked <==> Change(old(View()), i, data, mergeOk).Panicked?
      ensures !panicked ==> Change(old(View()), i, data, mergeOk) == Fine(View())
      ensures var merges := !old(watchChan).NoChan? && !old(closed) && mergeOk;
        && storages[i].viper == old(storages[i].viper) + (if merges then data else map[])
        && watchChan == if merges && !panicked then Open(true) else old(watchChan)
    {
      if watchChan.NoChan? || closed {
        return false;
      }
      if !mergeOk {
        return false;
      }
      storages[i].viper := storages[i].viper + data;
      assert Layers() == old(Layers())[i := old(Layers())[i] + data];
      if watchChan.Closed? {
        return true;
      }
      watchChan := Open(true);
      return false;
    }

    /** Closes the providers, of which some may fail, and the channel; the second call does nothing. */
    method Close(failures: seq<bool>) returns (err: bool, panicked: bool)
      requires Valid() && |failures| == |storages|
      modifies this`watchChan, this`closed
      ensures Valid() && err == (!old(closed) && true in failures)
      ensures panicked <==> ConfigReload.Close(old(View())).Panicked?
      ensures !panicked ==> ConfigReload.Close(old(View())) == Fine(View())
      ensures !panicked ==> closed && (watchChan.NoChan? <==> old(watchChan).NoChan?)
      ensures !panicked && !old(closed) && !watchChan.NoChan? ==> watchChan == Closed(old(watchChan).full)
    {
      err, panicked := false, false;
      if closed {
        return;
      }
      for i := 0 to |storages|
        invariant err == (true in failures[..i])
      {
        err := err || failures[i];
      }
      assert failures[..|storages|] == failures;
      match watchChan {
        case NoChan =>
        case Open(full) => watchChan := Closed(full);
        case Closed(_) => panicked := true; return;
      }
      closed := true;
    }

    method Subscribe(w: ConfigWatcher<T>)
      requires Valid() && w.Valid()
      modifies this`subscribes
      ensures Valid() && subscribes == old(subscribes) + [w]
    {
      subscribes := subscribes + [w];
    }

    /** One trigger: a turn for each subscription, in any order, on the same layers; each touches only
        the fields of its watcher. `merged` is what the lookups see. */
    method TriggerUpdates(c: Components<T>, merged: Layer, answers: seq<Answer>) returns (ghost order: seq<nat>)
      requires Valid() && |answers| == |subscribes|
      requires merged == Merged(Layers(), envViper)
      modifies subscribes
      ensures Valid() && View() == old(View()) && IsOrder(order, |subscribes|)
      ensures AfterTurns(subscribes, c, merged, answers, old(Views(subscribes)), old(Callbacks(subscribes)), order)
      ensures forall k :: 0 <= k < |subscribes| && SubscribedOnce(subscribes, k) ==>
        RefreshedFrom(c, k, Layers(), envViper, answers[k], old(subscribes[k].onRefresh), old(subscribes[k].View()),
                      subscribes[k].View())
      ensures forall n :: 0 <= n < |order| && LastTurn(subscribes, order, n) ==>
        LeftBy(c, order[n], Layers(), envViper, answers[order[n]], old(subscribes[order[n]].onRefresh),
               subscribes[order[n]].View())
    {
      ghost var xs, hs := Views(subscribes), Callbacks(subscribes);
      NoTurns(subscribes, c, merged, answers);
      order := TakeTurns(subscribes, c, merged, answers, xs, hs);
      AllRefreshed(subscribes, c, Layers(), envViper, answers, xs, hs, order);
      LastRefreshed(subscribes, c, Layers(), envViper, answers, xs, hs, order);
    }

    /** The first layer in which the key is set, or the environment. */
    method GetViperInstance(key: string) returns (layer: Layer)
      ensures layer == LayerFor(Layers(), envViper, key)
    {
      ghost var layers := Layers();
      var i := 0;
      assert layers[0..] == layers;
      while i < |storages|
        invariant 0 <= i <= |storages|
        invariant LayerFor(layers, envViper, key) == LayerFor(layers[i..], envViper, key)
      {
        assert layers[i..][0] == storages[i].viper && layers[i..][1..] == layers[i + 1..];
        if key in storages[i].viper {
          return storages[i].viper;
        }
        i := i + 1;
      }
      return envViper;
    }
  }
}
