/** Any number of service instances writing their configuration file to one store at the same
    time: each lists the store under its prefix, merges the entries over its file, and inserts every
    key that is absent. */
module Bootstrap {
  import opened ConsulMerge
  import opened ConsulTree

  type Store = map<string, string>

  /** An instance is about to read, has keys left to insert, or is through; `failed` once one of
      its requests reported an error. */
  datatype Phase =
    | Start
    | Inserting(data: Store, pending: set<string>, failed: bool)
    | Finished(failed: bool)

  datatype Instance = Instance(prefix: string, file: Store, phase: Phase)

  /** The store, the instances, and the log of creations. */
  datatype State = State(store: Store, instances: seq<Instance>, created: seq<string>)

  /** One atomic step: a read, with the pairs in the order in which the listing returns them, a
      create-if-absent request (whose answer may get lost before or after it took effect), or the end
      of the wait for all inserts. */
  datatype Event =
    | Read(i: nat, ok: bool, pairs: seq<Pair>)
    | Insert(i: nat, key: string, ok: bool, applied: bool)
    | Wait(i: nat)

  ghost predicate Enabled(s: State, e: Event) {
    && e.i < |s.instances|
    && match e
       case Read(i, ok, pairs) =>
         s.instances[i].phase.Start? && (ok ==> PairsOf(Listed(s.instances[i].prefix, s.store), pairs))
       case Insert(i, key, ok, applied) =>
         s.instances[i].phase.Inserting? && key in s.instances[i].phase.pending && (ok ==> applied)
       case Wait(i) => s.instances[i].phase.Inserting? && s.instances[i].phase.pending == {}
  }

  function SetPhase(s: State, i: nat, p: Phase): State
    requires i < |s.instances|
  {
    s.(instances := s.instances[i := s.instances[i].(phase := p)])
  }

  /** The store's check-and-set with index zero: it creates the entry or does nothing. */
  function CreateIfAbsent(s: State, key: string, value: string): State {
    if key in s.store then s else s.(store := s.store[key := value], created := s.created + [key])
  }

  ghost function Next(s: State, e: Event): State
    requires Enabled(s, e)
  {
    var me := s.instances[e.i];
    match e
    case Read(i, ok, pairs) =>
      if ok then
        var data := me.file + Reread(me.prefix, pairs);
        SetPhase(s, i, Inserting(data, data.Keys, false))
      else SetPhase(s, i, Finished(true))
    case Insert(i, key, ok, applied) =>
      var p := me.phase.(pending := me.phase.pending - {key}, failed := me.phase.failed || !ok);
      if key in me.phase.data && applied then CreateIfAbsent(SetPhase(s, i, p), key, me.phase.data[key])
      else SetPhase(s, i, p)
    case Wait(i) => SetPhase(s, i, Finished(me.phase.failed))
  }

  ghost predicate Runs(s: State, events: seq<Event>, s': State)
    decreases |events|
  {
    if events == [] then s' == s
    else Enabled(s, events[0]) && Runs(Next(s, events[0]), events[1..], s')
  }

  /** Some run leads from one state to the other. */
  ghost predicate Reaches(s: State, s': State) {
    exists events :: Runs(s, events, s')
  }

  /** Instances that have not read yet; the keys of a file lie below its prefix. */
  predicate Initial(s: State) {
    && s.created == []
    && forall i :: 0 <= i < |s.instances| ==>
         s.instances[i].phase == Start && FileBelow(s.instances[i].prefix, s.instances[i].file)
  }

  predicate FileBelow(prefix: string, file: Store) {
    forall k :: k in file ==> prefix + "/" <= k
  }

  // ---------- Invariant ----------

  /** The keys of the file and of all copies are there. */
  predicate Bound(p: Instance, first: Store, store: Store) {
    p.file.Keys + Copies(p.prefix, first).Keys <= store.Keys
  }

  /** Existing entries stay as they are. */
  predicate Extends(before: Store, after: Store) {
    forall k :: k in before ==> k in after && after[k] == before[k]
  }

  predicate Has(store: Store, key: string, value: string) {
    key in store && store[key] == value
  }

  /** Where an instance takes an entry from that is not in the store: its file, or the copy of an entry
      outside its prefix; what lay outside from the start goes before the file. */
  predicate Offers(p: Instance, first: Store, store: Store, key: string, value: string) {
    if key in Copies(p.prefix, first) then Has(Copies(p.prefix, first), key, value)
    else Has(p.file, key, value) || Has(Copies(p.prefix, store), key, value)
  }

  ghost predicate InstanceOk(p: Instance, first: Store, store: Store) {
    match p.phase
    case Start => true
    case Inserting(data, pending, failed) =>
      && pending <= data.Keys && Bound(p, first, data)
      && (forall k :: k in data && k !in store ==>
            Offers(p, first, store, k, data[k]) && (k in pending || failed))
    case Finished(failed) => failed || Bound(p, first, store)
  }

  ghost predicate Origin(instances: seq<Instance>, first: Store, store: Store, key: string, value: string) {
    exists i :: 0 <= i < |instances| && Offers(instances[i], first, store, key, value)
  }

  ghost predicate InstancesOk(first: Store, s: State) {
    forall i :: 0 <= i < |s.instances| ==> InstanceOk(s.instances[i], first, s.store)
  }

  ghost predicate OriginsOk(first: Store, s: State) {
    forall k :: k in s.store && k !in first ==> Origin(s.instances, first, s.store, k, s.store[k])
  }

  /** The log lists the new keys, each once. */
  predicate LogOk(first: Store, store: Store, created: seq<string>) {
    && (forall k :: k in created ==> k in store)
    && (forall k :: k in store ==> (k in created <==> k !in first))
    && (forall i, j :: 0 <= i < j < |created| ==> created[i] != created[j])
  }

  ghost predicate Inv(first: Store, s: State) {
    Extends(first, s.store) && InstancesOk(first, s) && OriginsOk(first, s) && LogOk(first, s.store, s.created)
  }

  lemma OffersStays(p: Instance, first: Store, before: Store, after: Store, key: string, value: string)
    requires Extends(before, after) && Offers(p, first, before, key, value)
    ensures Offers(p, first, after, key, value)
  {
    if key in Copies(p.prefix, before) {
      CopiesGrow(p.prefix, before, after, key);
    }
  }

  lemma InstanceStays(p: Instance, first: Store, before: Store, after: Store)
    requires InstanceOk(p, first, before) && Extends(before, after)
    ensures InstanceOk(p, first, after)
  {
    if p.phase.Inserting? {
      forall k | k in p.phase.data && k !in after
        ensures Offers(p, first, after, k, p.phase.data[k]) && (k in p.phase.pending || p.phase.failed)
      {
        OffersStays(p, first, before, after, k, p.phase.data[k]);
      }
    }
  }

  /** What the instance goes on to insert once it has read. */
  lemma ReadOk(p: Instance, first: Store, store: Store, pairs: seq<Pair>)
    requires Extends(first, store) && PairsOf(Listed(p.prefix, store), pairs)
    ensures var data := p.file + Reread(p.prefix, pairs);
      InstanceOk(p.(phase := Inserting(data, data.Keys, false)), first, store)
  {
    var data := p.file + Reread(p.prefix, pairs);
    forall k | k in Copies(p.prefix, first) ensures k in data {
      CopiesGrow(p.prefix, first, store, k);
      RereadStore(p.prefix, store, pairs, k);
    }
    forall k | k in data && k !in store ensures Offers(p, first, store, k, data[k]) {
      RereadStore(p.prefix, store, pairs, k);
      if k in Copies(p.prefix, first) {
        CopiesGrow(p.prefix, first, store, k);
      }
    }
  }

  /** What is left of an instance after an insert; unless it failed the key is there. */
  lemma InsertOk(p: Instance, first: Store, before: Store, after: Store, key: string, ok: bool)
    requires InstanceOk(p, first, before) && p.phase.Inserting? && Extends(before, after)
    requires ok && key in p.phase.data ==> key in after
    ensures InstanceOk(p.(phase := p.phase.(pending := p.phase.pending - {key}, failed := p.phase.failed || !ok)),
                       first, after)
  {
    InstanceStays(p, first, before, after);
  }

  lemma WaitOk(p: Instance, first: Store, store: Store)
    requires InstanceOk(p, first, store) && p.phase.Inserting? && p.phase.pending == {}
    ensures InstanceOk(p.(phase := Finished(p.phase.failed)), first, store)
  {}

  lemma StepActor(first: Store, s: State, e: Event)
    requires Inv(first, s) && Enabled(s, e)
    ensures InstanceOk(Next(s, e).instances[e.i], first, Next(s, e).store)
  {
    var p := s.instances[e.i];
    assert InstanceOk(p, first, s.store);
    match e
    case Read(i, ok, pairs) => if ok { ReadOk(p, first, s.store, pairs); }
    case Insert(i, key, ok, applied) => InsertOk(p, first, s.store, Next(s, e).store, key, ok);
    case Wait(i) => WaitOk(p, first, s.store);
  }

  lemma StepExtends(s: State, e: Event)
    requires Enabled(s, e)
    ensures Extends(s.store, Next(s, e).store) && |Next(s, e).instances| == |s.instances|
    ensures forall i :: 0 <= i < |s.instances| && i != e.i ==> Next(s, e).instances[i] == s.instances[i]
    ensures forall i :: 0 <= i < |s.instances| ==>
      SameFile(s.instances[i], Next(s, e).instances[i])
  {}

  predicate SameFile(p: Instance, q: Instance) {
    q.prefix == p.prefix && q.file == p.file
  }

  lemma OriginStays(a: seq<Instance>, b: seq<Instance>, first: Store, before: Store, after: Store, k: string, v: string)
    requires |a| == |b| && (forall i :: 0 <= i < |a| ==> SameFile(a[i], b[i]))
    requires Extends(before, after) && Origin(a, first, before, k, v)
    ensures Origin(b, first, after, k, v)
  {
    var i :| 0 <= i < |a| && Offers(a[i], first, before, k, v);
    OffersStays(a[i], first, before, after, k, v);
    assert Offers(b[i], first, after, k, v);
  }

  lemma CreatedOrigin(first: Store, s: State, e: Event, k: string)
    requires Inv(first, s) && Enabled(s, e) && k in Next(s, e).store && k !in s.store
    ensures Origin(s.instances, first, s.store, k, Next(s, e).store[k])
  {
    assert InstanceOk(s.instances[e.i], first, s.store);
    assert Offers(s.instances[e.i], first, s.store, k, Next(s, e).store[k]);
  }

  lemma StepInstances(first: Store, s: State, e: Event)
    requires Inv(first, s) && Enabled(s, e)
    ensures InstancesOk(first, Next(s, e))
  {
    var s' := Next(s, e);
    StepExtends(s, e);
    forall i | 0 <= i < |s'.instances| ensures InstanceOk(s'.instances[i], first, s'.store) {
      if i == e.i { StepActor(first, s, e); } else { InstanceStays(s.instances[i], first, s.store, s'.store); }
    }
  }

  lemma StepOrigins(first: Store, s: State, e: Event)
    requires Inv(first, s) && Enabled(s, e)
    ensures OriginsOk(first, Next(s, e))
  {
    var s' := Next(s, e);
    StepExtends(s, e);
    forall k | k in s'.store && k !in first ensures Origin(s'.instances, first, s'.store, k, s'.store[k]) {
      if k !in s.store { CreatedOrigin(first, s, e, k); }
      OriginStays(s.instances, s'.instances, first, s.store, s'.store, k, s'.store[k]);
    }
  }

  lemma LogGrows(first: Store, store: Store, created: seq<string>, key: string, value: string)
    requires Extends(first, store) && LogOk(first, store, created) && key !in store
    ensures LogOk(first, store[key := value], created + [key])
  {}

  lemma StepStore(s: State, e: Event) returns (key: string, value: string)
    requires Enabled(s, e)
    ensures var t := Next(s, e);
      || (t.store == s.store && t.created == s.created)
      || (key !in s.store && t.store == s.store[key := value] && t.created == s.created + [key])
  {
    key, value := "", "";
    if e.Insert? && e.key in s.instances[e.i].phase.data {
      key, value := e.key, s.instances[e.i].phase.data[e.key];
    }
  }

  lemma StepInv(first: Store, s: State, e: Event)
    requires Inv(first, s) && Enabled(s, e)
    ensures Inv(first, Next(s, e)) && Extends(s.store, Next(s, e).store)
  {
    StepInstances(first, s, e);
    StepOrigins(first, s, e);
    StepExtends(s, e);
    var key, value := StepStore(s, e);
    if key !in s.store {
      LogGrows(first, s.store, s.created, key, value);
    }
  }

  lemma {:induction false} RunInv(first: Store, s: State, events: seq<Event>, s': State)
    requires Inv(first, s) && Runs(s, events, s')
    ensures Inv(first, s') && Extends(s.store, s'.store)
    decreases |events|
  {
    if events != [] {
      StepInv(first, s, events[0]);
      RunInv(first, Next(s, events[0]), events[1..], s');
    }
  }

  lemma InitialInv(s: State)
    requires Initial(s)
    ensures Inv(s.store, s)
  {}

  /** No step changes a prefix or a file. */
  lemma {:induction false} FilesFixed(s: State, events: seq<Event>, s': State)
    requires Runs(s, events, s')
    ensures |s'.instances| == |s.instances|
    ensures forall i :: 0 <= i < |s.instances| ==> SameFile(s.instances[i], s'.instances[i])
    decreases |events|
  {
    if events != [] {
      StepExtends(s, events[0]);
      FilesFixed(Next(s, events[0]), events[1..], s');
    }
  }

  /** In every interleaving of any number of bootstraps: entries that exist are never changed, a key
      is created at most once, every new entry has the value of some instance's file or is the copy of
      an entry outside some instance's prefix, and an instance that finished without an error left
      every key of its file and of the copies bound. */
  lemma BootstrapsAreSafe(s: State, events: seq<Event>, s': State)
    requires Initial(s) && Runs(s, events, s')
    ensures Extends(s.store, s'.store)
    ensures forall k :: k in s'.store && k !in s.store ==> Origin(s.instances, s.store, s'.store, k, s'.store[k])
    ensures forall k :: k in s'.created <==> k in s'.store && k !in s.store
    ensures forall i, j :: 0 <= i < j < |s'.created| ==> s'.created[i] != s'.created[j]
    ensures |s'.instances| == |s.instances|
    ensures forall i :: 0 <= i < |s.instances| && s'.instances[i].phase == Finished(false) ==>
      Bound(s.instances[i], s.store, s'.store)
  {
    InitialInv(s);
    RunInv(s.store, s, events, s');
    FilesFixed(s, events, s');
    OriginsOfRun(s.instances, s.store, s');
    BoundAfterRun(s.instances, s.store, s');
  }

  lemma OriginsOfRun(instances: seq<Instance>, first: Store, s': State)
    requires OriginsOk(first, s') && |s'.instances| == |instances|
    requires forall i :: 0 <= i < |instances| ==> SameFile(instances[i], s'.instances[i])
    ensures forall k :: k in s'.store && k !in first ==> Origin(instances, first, s'.store, k, s'.store[k])
  {
    forall k | k in s'.store && k !in first ensures Origin(instances, first, s'.store, k, s'.store[k]) {
      OriginStays(s'.instances, instances, first, s'.store, s'.store, k, s'.store[k]);
    }
  }

  lemma BoundAfterRun(instances: seq<Instance>, first: Store, s': State)
    requires InstancesOk(first, s') && |s'.instances| == |instances|
    requires forall i :: 0 <= i < |instances| ==> SameFile(instances[i], s'.instances[i])
    ensures forall i :: 0 <= i < |instances| && s'.instances[i].phase == Finished(false) ==>
      Bound(instances[i], first, s'.store)
  {
    forall i | 0 <= i < |instances| && s'.instances[i].phase == Finished(false)
      ensures Bound(instances[i], first, s'.store)
    {
      assert InstanceOk(s'.instances[i], first, s'.store);
    }
  }

  // ---------- Success and failure ----------

  /** The instance has been told of an error. */
  predicate HasFailed(p: Instance) {
    match p.phase
    case Start => false
    case Inserting(_, _, failed) => failed
    case Finished(failed) => failed
  }

  /** The instance could not read, or one of its requests reports an error. */
  predicate Fails(e: Event, i: nat) {
    e.i == i && ((e.Read? && !e.ok) || (e.Insert? && !e.ok))
  }

  ghost predicate SomeFailure(events: seq<Event>, i: nat) {
    exists n :: 0 <= n < |events| && Fails(events[n], i)
  }

  lemma StepFails(s: State, e: Event, i: nat)
    requires Enabled(s, e) && i < |s.instances|
    ensures i < |Next(s, e).instances|
    ensures HasFailed(Next(s, e).instances[i]) <==> HasFailed(s.instances[i]) || Fails(e, i)
  {}

  lemma FailureInFront(events: seq<Event>, i: nat)
    requires events != []
    ensures SomeFailure(events, i) <==> Fails(events[0], i) || SomeFailure(events[1..], i)
  {
    if SomeFailure(events, i) {
      var n :| 0 <= n < |events| && Fails(events[n], i);
      assert n > 0 ==> events[1..][n - 1] == events[n];
    }
    if SomeFailure(events[1..], i) {
      var n :| 0 <= n < |events[1..]| && Fails(events[1..][n], i);
      assert events[n + 1] == events[1..][n];
    }
  }

  lemma {:induction false} FailedSoFar(s: State, events: seq<Event>, s': State, i: nat)
    requires Runs(s, events, s') && i < |s.instances|
    ensures i < |s'.instances|
    ensures HasFailed(s'.instances[i]) <==> HasFailed(s.instances[i]) || SomeFailure(events, i)
    decreases |events|
  {
    if events != [] {
      StepFails(s, events[0], i);
      FailureInFront(events, i);
      FailedSoFar(Next(s, events[0]), events[1..], s', i);
    }
  }

  /** A bootstrap that is through reports an error exactly if its read or one of its requests did. */
  lemma FailedExactly(s: State, events: seq<Event>, s': State, i: nat)
    requires Initial(s) && Runs(s, events, s') && i < |s.instances| == |s'.instances|
    requires s'.instances[i].phase.Finished?
    ensures s'.instances[i].phase == Finished(SomeFailure(events, i))
  {
    FailedSoFar(s, events, s', i);
  }

  lemma {:induction false} RunsJoin(s: State, a: seq<Event>, t: State, b: seq<Event>, u: State)
    requires Runs(s, a, t) && Runs(t, b, u)
    ensures Runs(s, a + b, u)
    decreases |a|
  {
    if a == [] {
      assert a + b == b;
    } else {
      RunsJoin(Next(s, a[0]), a[1..], t, b, u);
      assert (a + b)[1..] == a[1..] + b;
    }
  }

  /** The other instances are as they were. */
  ghost predicate OnlyMoved(s: State, s': State, i: nat) {
    |s'.instances| == |s.instances| && forall j :: 0 <= j < |s.instances| && j != i ==> s'.instances[j] == s.instances[j]
  }

  lemma {:induction false} InsertAll(s: State, i: nat) returns (events: seq<Event>, s': State)
    requires i < |s.instances| && s.instances[i].phase.Inserting? && !s.instances[i].phase.failed
    ensures Runs(s, events, s') && OnlyMoved(s, s', i)
    ensures s'.instances[i].phase == Inserting(s.instances[i].phase.data, {}, false)
    decreases s.instances[i].phase.pending
  {
    var p := s.instances[i].phase;
    if p.pending == {} {
      events, s' := [], s;
    } else {
      var key :| key in p.pending;
      var e := Insert(i, key, true, true);
      OneStep(s, e);
      var more;
      more, s' := InsertAll(Next(s, e), i);
      RunsJoin(s, [e], Next(s, e), more, s');
      events := [e] + more;
    }
  }

  lemma SucceedOne(s: State, i: nat) returns (events: seq<Event>, s': State)
    requires i < |s.instances| && s.instances[i].phase == Start
    ensures Runs(s, events, s') && OnlyMoved(s, s', i) && s'.instances[i].phase == Finished(false)
  {
    var pairs := SomeListing(Listed(s.instances[i].prefix, s.store));
    var read, wait := Read(i, true, pairs), Wait(i);
    var t := Next(s, read);
    OneStep(s, read);
    var more, u := InsertAll(t, i);
    RunsJoin(s, [read], t, more, u);
    OneStep(u, wait);
    RunsJoin(s, [read] + more, u, [wait], Next(u, wait));
    events, s' := [read] + more + [wait], Next(u, wait);
  }

  /** From every start there is a run in which all instances succeed. */
  lemma SuccessfulRun(s: State) returns (events: seq<Event>, s': State)
    requires Initial(s)
    ensures Runs(s, events, s') && AllSucceeded(s')
  {
    events, s' := [], s;
    var n := 0;
    while n < |s.instances|
      invariant 0 <= n <= |s.instances| == |s'.instances|
      invariant Runs(s, events, s')
      invariant forall j :: 0 <= j < n ==> s'.instances[j].phase == Finished(false)
      invariant forall j :: n <= j < |s.instances| ==> s'.instances[j].phase == Start
    {
      var more, t := SucceedOne(s', n);
      RunsJoin(s, events, s', more, t);
      events, s', n := events + more, t, n + 1;
    }
  }

  /** An insert of the key took effect. */
  ghost predicate Inserted(events: seq<Event>, key: string) {
    exists n :: 0 <= n < |events| && events[n].Insert? && events[n].key == key && events[n].applied
  }

  lemma InsertedInFront(events: seq<Event>, key: string)
    requires events != []
    ensures Inserted(events, key) <==>
      (events[0].Insert? && events[0].key == key && events[0].applied) || Inserted(events[1..], key)
  {
    if Inserted(events, key) {
      var n :| 0 <= n < |events| && events[n].Insert? && events[n].key == key && events[n].applied;
      assert n > 0 ==> events[1..][n - 1] == events[n];
    }
    if Inserted(events[1..], key) {
      var n :| 0 <= n < |events[1..]| && events[1..][n].Insert? && events[1..][n].key == key && events[1..][n].applied;
      assert events[n + 1] == events[1..][n];
    }
  }

  lemma StepKeys(first: Store, s: State, e: Event, key: string)
    requires Inv(first, s) && Enabled(s, e)
    ensures key in Next(s, e).store <==> key in s.store || (e.Insert? && e.key == key && e.applied)
  {
    assert InstanceOk(s.instances[e.i], first, s.store);
  }

  lemma {:induction false} KeysOfRun(first: Store, s: State, events: seq<Event>, s': State, key: string)
    requires Inv(first, s) && Runs(s, events, s')
    ensures key in s'.store <==> key in s.store || Inserted(events, key)
    decreases |events|
  {
    if events != [] {
      StepInv(first, s, events[0]);
      StepKeys(first, s, events[0], key);
      InsertedInFront(events, key);
      KeysOfRun(first, Next(s, events[0]), events[1..], s', key);
    }
  }

  /** The new keys are those of which an insert took effect. */
  lemma InsertedKeys(s: State, events: seq<Event>, s': State, key: string)
    requires Initial(s) && Runs(s, events, s')
    ensures key in s'.store <==> key in s.store || Inserted(events, key)
  {
    InitialInv(s);
    KeysOfRun(s.store, s, events, s', key);
  }

  // ---------- Instances of one prefix ----------

  ghost predicate OnePrefix(s: State, prefix: string) {
    forall i :: 0 <= i < |s.instances| ==> s.instances[i].prefix == prefix
  }

  /** Some instance's file has the entry. */
  ghost predicate FromFile(instances: seq<Instance>, key: string, value: string) {
    exists i :: 0 <= i < |instances| && Has(instances[i].file, key, value)
  }

  lemma OriginBelow(s: State, prefix: string, after: Store, k: string, v: string)
    requires Initial(s) && OnePrefix(s, prefix) && Origin(s.instances, s.store, after, k, v)
    ensures prefix + "/" <= k
  {
    var i :| 0 <= i < |s.instances| && Offers(s.instances[i], s.store, after, k, v);
    assert FileBelow(s.instances[i].prefix, s.instances[i].file);
  }

  /** A new entry is a copy of what lay outside at the start, or else has the value of some file. */
  lemma NewEntry(s: State, events: seq<Event>, s': State, prefix: string, k: string)
    requires Initial(s) && OnePrefix(s, prefix) && Runs(s, events, s') && k in s'.store && k !in s.store
    ensures var copies := Copies(prefix, s.store);
      if k in copies then s'.store[k] == copies[k] else FromFile(s.instances, k, s'.store[k])
  {
    BootstrapsAreSafe(s, events, s');
    forall j | j in s'.store && j !in s.store ensures prefix + "/" <= j {
      OriginBelow(s, prefix, s'.store, j, s'.store[j]);
    }
    SameCopies(prefix, s.store, s'.store);
    var i :| 0 <= i < |s.instances| && Offers(s.instances[i], s.store, s'.store, k, s'.store[k]);
    assert s.instances[i].prefix == prefix;
  }

  ghost predicate NewFromFiles(s: State, s': State) {
    forall k :: k in s'.store && k !in s.store ==> FromFile(s.instances, k, s'.store[k])
  }

  /** Every copy has its key bound from the start, or is in some file too. */
  ghost predicate CopiesFiled(s: State, prefix: string) {
    forall k :: k in Copies(prefix, s.store) ==> k in s.store || FromFile(s.instances, k, Copies(prefix, s.store)[k])
  }

  /** An instance that has not read can create any entry that it offers. */
  lemma CreatingRun(s: State, i: nat, k: string) returns (events: seq<Event>, s': State)
    requires i < |s.instances| && s.instances[i].phase.Start? && k !in s.store
    requires k in s.instances[i].file || k in Copies(s.instances[i].prefix, s.store)
    ensures Runs(s, events, s') && k in s'.store
    ensures k in Copies(s.instances[i].prefix, s.store) ==> s'.store[k] == Copies(s.instances[i].prefix, s.store)[k]
  {
    var pairs := SomeListing(Listed(s.instances[i].prefix, s.store));
    RereadStore(s.instances[i].prefix, s.store, pairs, k);
    var t := Next(s, Read(i, true, pairs));
    s' := Next(t, Insert(i, k, true, true));
    events := [Read(i, true, pairs), Insert(i, k, true, true)];
    TwoSteps(s, Read(i, true, pairs), Insert(i, k, true, true));
  }

  lemma OneStep(s: State, e: Event)
    requires Enabled(s, e)
    ensures Runs(s, [e], Next(s, e))
  {
    assert [e][1..] == [];
    assert Runs(Next(s, e), [], Next(s, e));
  }

  lemma TwoSteps(s: State, e: Event, f: Event)
    requires Enabled(s, e) && Enabled(Next(s, e), f)
    ensures Runs(s, [e, f], Next(Next(s, e), f))
  {
    OneStep(Next(s, e), f);
    assert [e, f][1..] == [f];
  }

  lemma FiledNew(s: State, events: seq<Event>, s': State, prefix: string)
    requires Initial(s) && OnePrefix(s, prefix) && CopiesFiled(s, prefix) && Runs(s, events, s')
    ensures NewFromFiles(s, s')
  {
    forall k | k in s'.store && k !in s.store ensures FromFile(s.instances, k, s'.store[k]) {
      NewEntry(s, events, s', prefix, k);
    }
  }

  lemma UnfiledRun(s: State, prefix: string) returns (events: seq<Event>, s': State)
    requires Initial(s) && OnePrefix(s, prefix) && s.instances != [] && !CopiesFiled(s, prefix)
    ensures Runs(s, events, s') && !NewFromFiles(s, s')
  {
    var k :| k in Copies(prefix, s.store) && k !in s.store && !FromFile(s.instances, k, Copies(prefix, s.store)[k]);
    assert s.instances[0].prefix == prefix && s.instances[0].phase == Start;
    events, s' := CreatingRun(s, 0, k);
  }

  /** In all runs of instances with one prefix every new entry comes from a file, exactly if nothing
      outside the prefix has a copy that is neither bound from the start nor in some file. */
  lemma NewEntriesFromFiles(s: State, prefix: string)
    requires Initial(s) && OnePrefix(s, prefix) && s.instances != []
    ensures CopiesFiled(s, prefix) <==> forall s' :: Reaches(s, s') ==> NewFromFiles(s, s')
  {
    if CopiesFiled(s, prefix) {
      forall s' | Reaches(s, s') ensures NewFromFiles(s, s') {
        var events :| Runs(s, events, s');
        FiledNew(s, events, s', prefix);
      }
    } else {
      var events, s' := UnfiledRun(s, prefix);
      assert Reaches(s, s');
    }
  }

  // ---------- Outcomes ----------

  ghost predicate AllSucceeded(s: State) {
    forall i :: 0 <= i < |s.instances| ==> s.instances[i].phase == Finished(false)
  }

  ghost predicate SameFiles(s: State, file: Store) {
    forall i :: 0 <= i < |s.instances| ==> s.instances[i].file == file
  }

  /** Every copy has its key bound already, or the file has the same entry. */
  predicate NothingCopied(prefix: string, file: Store, store: Store) {
    forall k :: k in Copies(prefix, store) ==> k in store || Has(file, k, Copies(prefix, store)[k])
  }

  lemma FinalEntry(s: State, events: seq<Event>, s': State, prefix: string, file: Store, k: string)
    requires Initial(s) && OnePrefix(s, prefix) && SameFiles(s, file) && s.instances != []
    requires Runs(s, events, s') && AllSucceeded(s')
    ensures var all := file + Copies(prefix, s.store) + s.store;
      (k in s'.store <==> k in all) && (k in s'.store ==> s'.store[k] == all[k])
  {
    BootstrapsAreSafe(s, events, s');
    assert s'.instances[0].phase == Finished(false) && s.instances[0].file == file && s.instances[0].prefix == prefix;
    assert Bound(s.instances[0], s.store, s'.store);
    if k in s'.store && k !in s.store {
      NewEntry(s, events, s', prefix, k);
      if FromFile(s.instances, k, s'.store[k]) {
        var i :| 0 <= i < |s.instances| && Has(s.instances[i].file, k, s'.store[k]);
        assert s.instances[i].file == file;
      }
    }
  }

  /** Replicas of one service agree on the outcome: once all succeeded, the store is the file
      overridden by the copies of what lay outside the prefix and by what was there before, whatever the
      interleaving. The copies make no difference exactly if they are bound already or in the file. */
  lemma ReplicasConverge(s: State, events: seq<Event>, s': State, prefix: string, file: Store)
    requires Initial(s) && OnePrefix(s, prefix) && SameFiles(s, file) && s.instances != []
    requires Runs(s, events, s') && AllSucceeded(s')
    ensures s'.store == file + Copies(prefix, s.store) + s.store
    ensures s'.store == file + s.store <==> NothingCopied(prefix, file, s.store)
  {
    var copies := Copies(prefix, s.store);
    var all := file + copies + s.store;
    forall k ensures k in s'.store <==> k in all ensures k in s'.store ==> s'.store[k] == all[k] {
      FinalEntry(s, events, s', prefix, file, k);
    }
    assert s'.store == all;
    WithoutCopies(file, copies, s.store);
  }

  lemma WithoutCopies(file: Store, copies: Store, store: Store)
    ensures file + copies + store == file + store <==>
      forall k :: k in copies ==> k in store || Has(file, k, copies[k])
  {
    if file + copies + store == file + store {
      forall k | k in copies && k !in store ensures Has(file, k, copies[k]) {
        assert k in file + copies + store && (file + copies + store)[k] == (file + store)[k];
      }
    }
  }

  /** The instance has nothing to create. */
  predicate Settled(p: Instance, store: Store) {
    match p.phase
    case Start => Bound(p, store, store)
    case Inserting(data, pending, _) => forall k :: k in pending && k in data ==> k in store
    case Finished(_) => true
  }

  ghost predicate AllSettled(s: State) {
    forall i :: 0 <= i < |s.instances| ==> Settled(s.instances[i], s.store)
  }

  lemma SettledStep(s: State, e: Event)
    requires Enabled(s, e) && AllSettled(s)
    ensures AllSettled(Next(s, e)) && Next(s, e).store == s.store && Next(s, e).created == s.created
  {
    var p, n := s.instances[e.i], Next(s, e);
    assert Settled(p, s.store);
    if e.Read? && e.ok {
      forall k | k in p.file + Reread(p.prefix, e.pairs) ensures k in s.store {
        RereadStore(p.prefix, s.store, e.pairs, k);
      }
    }
    StepExtends(s, e);
    forall i | 0 <= i < |n.instances| ensures Settled(n.instances[i], n.store) {
      assert Settled(s.instances[i], s.store);
    }
  }

  lemma {:induction false} SettledRun(s: State, events: seq<Event>, s': State)
    requires AllSettled(s) && Runs(s, events, s')
    ensures s'.store == s.store && s'.created == s.created
    decreases |events|
  {
    if events != [] {
      SettledStep(s, events[0]);
      SettledRun(Next(s, events[0]), events[1..], s');
    }
  }

  lemma UnsettledRun(s: State, i: nat) returns (events: seq<Event>, s': State)
    requires i < |s.instances| && !Settled(s.instances[i], s.store)
    ensures Runs(s, events, s') && s'.store != s.store
  {
    var p := s.instances[i];
    match p.phase
    case Start =>
      var k :| k in p.file.Keys + Copies(p.prefix, s.store).Keys && k !in s.store;
      events, s' := CreatingRun(s, i, k);
    case Inserting(data, pending, _) =>
      var k :| k in pending && k in data && k !in s.store;
      OneStep(s, Insert(i, k, true, true));
      events, s' := [Insert(i, k, true, true)], Next(s, Insert(i, k, true, true));
      assert k in s'.store;
  }

  /** Bootstraps write nothing, in whatever interleaving, exactly if all instances are settled. */
  lemma RepeatWritesNothing(s: State)
    ensures AllSettled(s) <==> forall s' :: Reaches(s, s') ==> s'.store == s.store && s'.created == s.created
  {
    if AllSettled(s) {
      forall s' | Reaches(s, s') ensures s'.store == s.store && s'.created == s.created {
        var events :| Runs(s, events, s');
        SettledRun(s, events, s');
      }
    } else {
      var i :| 0 <= i < |s.instances| && !Settled(s.instances[i], s.store);
      var events, s' := UnsettledRun(s, i);
      assert Reaches(s, s') && s'.store != s.store;
    }
  }

  /** After a success the same instance, bootstrapped anew, is settled: copies are not copied again. */
  lemma SettledAfterSuccess(s: State, events: seq<Event>, s': State, prefix: string, i: nat)
    requires Initial(s) && OnePrefix(s, prefix) && Runs(s, events, s')
    requires i < |s.instances| == |s'.instances| && s'.instances[i].phase == Finished(false)
    ensures Settled(s.instances[i], s'.store)
  {
    BootstrapsAreSafe(s, events, s');
    forall k | k in s'.store && k !in s.store ensures prefix + "/" <= k {
      OriginBelow(s, prefix, s'.store, k, s'.store[k]);
    }
    SameCopies(prefix, s.store, s'.store);
  }

  /** A service without any configuration of its own takes over an entry of its neighbour. */
  lemma NeighbourCopied(prefix: string, key: string, v: string) returns (events: seq<Event>, s': State)
    requires Outside(prefix, key)
    ensures Runs(State(map[key := v], [Instance(prefix, map[], Start)], []), events, s')
    ensures Has(s'.store, Rekeyed(prefix, key), v) && Rekeyed(prefix, key) != key
  {
    var s := State(map[key := v], [Instance(prefix, map[], Start)], []);
    CopyFound(prefix, s.store, key);
    RekeyedBelow(prefix, key);
    events, s' := CreatingRun(s, 0, Rekeyed(prefix, key));
  }

  lemma NeighbourExample()
    ensures Outside("app", "app2/k") && Rekeyed("app", "app2/k") == "app/app2/k"
  {
    assert "app" + "/" == "app/" && "app2/k"[3] != "app/"[3];
    assert "app" + ("/" + "app2/k") == "app/app2/k";
  }
}
