/** The layered configuration: a key is looked up in the provider layers, the last loaded first,
    and then in the environment layer. */
module ConfigLayers {
  import opened Decimal

  type Layer = map<string, string>

  /** The first layer in which the key is set, or the environment. */
  function LayerFor(layers: seq<Layer>, env: Layer, key: string): Layer {
    if layers == [] then env else if key in layers[0] then layers[0] else LayerFor(layers[1..], env, key)
  }

  function Lookup(layers: seq<Layer>, env: Layer, key: string): Option<string> {
    var layer := LayerFor(layers, env, key);
    if key in layer then Some(layer[key]) else None
  }

  /** All layers as one map. */
  function Merged(layers: seq<Layer>, env: Layer): Layer {
    if layers == [] then env else Merged(layers[1..], env) + layers[0]
  }

  /** What happens to the layers: a provider is loaded in front of the others, or the data that the
      provider loaded as number `j` reports is merged into its layer. */
  datatype Update = Load(data: Layer) | Merge(j: nat, data: Layer)

  function Updated(layers: seq<Layer>, update: Update): seq<Layer> {
    match update
    case Load(data) => [data] + layers
    case Merge(j, data) =>
      if j < |layers| then
        var i := |layers| - 1 - j;
        layers[i := layers[i] + data]
      else layers
  }

  function LayersAfter(updates: seq<Update>): seq<Layer> {
    if updates == [] then [] else Updated(LayersAfter(updates[..|updates| - 1]), updates[|updates| - 1])
  }

  lemma LayersAppend(updates: seq<Update>, update: Update)
    ensures LayersAfter(updates + [update]) == Updated(LayersAfter(updates), update)
  {
    assert (updates + [update])[..|updates|] == updates;
  }

  /** How many providers were loaded. */
  function Loads(updates: seq<Update>): nat {
    if updates == [] then 0
    else Loads(updates[..|updates| - 1]) + if updates[|updates| - 1].Load? then 1 else 0
  }

  /** The value the updates of provider `j` leave under a key: the last one that mentions it. */
  function ProviderValue(updates: seq<Update>, j: nat, key: string): Option<string> {
    if updates == [] then None
    else
      var init, last := updates[..|updates| - 1], updates[|updates| - 1];
      var mine := match last case Load(_) => Loads(init) == j case Merge(k, _) => k == j && j < Loads(init);
      if mine && key in last.data then Some(last.data[key]) else ProviderValue(init, j, key)
  }

  /** The value of the provider with the highest number below `n` that has one, or the environment's. */
  function Winner(updates: seq<Update>, env: Layer, n: nat, key: string): Option<string> {
    if n == 0 then (if key in env then Some(env[key]) else None)
    else if ProviderValue(updates, n - 1, key).Some? then ProviderValue(updates, n - 1, key)
    else Winner(updates, env, n - 1, key)
  }

  function Bound(layer: Layer, key: string): Option<string> {
    if key in layer then Some(layer[key]) else None
  }

  /** The search stops at the first layer with the key, and at the environment when there is none. */
  lemma {:induction false} LayerForFirst(layers: seq<Layer>, env: Layer, key: string, i: nat)
    requires i <= |layers| && forall j :: 0 <= j < i ==> key !in layers[j]
    ensures i < |layers| && key in layers[i] ==> LayerFor(layers, env, key) == layers[i]
    ensures i == |layers| ==> LayerFor(layers, env, key) == env
  {
    if i > 0 {
      assert key !in layers[0] && forall j :: 0 <= j < i - 1 ==> layers[1..][j] == layers[j + 1];
      LayerForFirst(layers[1..], env, key, i - 1);
    }
  }

  lemma {:induction false} LookupIsMerged(layers: seq<Layer>, env: Layer, key: string)
    ensures Lookup(layers, env, key) == Bound(Merged(layers, env), key)
  {
    if layers != [] {
      LookupIsMerged(layers[1..], env, key);
    }
  }

  lemma {:induction false} LayerCount(updates: seq<Update>)
    ensures |LayersAfter(updates)| == Loads(updates)
  {
    if updates != [] {
      LayerCount(updates[..|updates| - 1]);
    }
  }

  /** Each layer holds exactly the last values of its provider. */
  lemma {:induction false} LayerIsProvider(updates: seq<Update>, j: nat, key: string)
    ensures |LayersAfter(updates)| == Loads(updates)
    ensures ProviderValue(updates, j, key) ==
      if j < Loads(updates) then Bound(LayersAfter(updates)[Loads(updates) - 1 - j], key) else None
  {
    LayerCount(updates);
    if updates != [] {
      var init := updates[..|updates| - 1];
      LayerCount(init);
      LayerIsProvider(init, j, key);
    }
  }

  lemma {:induction false} WinnerFrom(updates: seq<Update>, env: Layer, n: nat, key: string)
    requires n <= Loads(updates) == |LayersAfter(updates)|
    ensures Lookup(LayersAfter(updates)[Loads(updates) - n..], env, key) == Winner(updates, env, n, key)
  {
    if n > 0 {
      var layers, i := LayersAfter(updates), Loads(updates) - n;
      WinnerFrom(updates, env, n - 1, key);
      LayerIsProvider(updates, n - 1, key);
      assert layers[i..][1..] == layers[i + 1..];
      assert layers[i..][0] == layers[i];
    }
  }

  /** After any loads and merges, a lookup yields the value of the provider loaded last among those
      that ever bound the key, and of that provider the value it reported last. */
  lemma LookupIsWinner(updates: seq<Update>, env: Layer, key: string)
    ensures Lookup(LayersAfter(updates), env, key) == Winner(updates, env, Loads(updates), key)
  {
    LayerCount(updates);
    WinnerFrom(updates, env, Loads(updates), key);
    assert LayersAfter(updates)[0..] == LayersAfter(updates);
  }

  /** A key bound by a provider stays bound by it. */
  lemma {:induction false} StaysBound(updates: seq<Update>, more: seq<Update>, j: nat, key: string)
    requires ProviderValue(updates, j, key).Some?
    ensures ProviderValue(updates + more, j, key).Some?
  {
    if more == [] {
      assert updates + more == updates;
    } else {
      var n := |more| - 1;
      StaysBound(updates, more[..n], j, key);
      assert (updates + more)[..|updates + more| - 1] == updates + more[..n];
    }
  }
}
