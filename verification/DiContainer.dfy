/** The dependency-injection container: services by type name, injected on registration when all
    their dependencies are there, and otherwise when the container is built. */
module DiContainer {

  /** What ResolveDeps answers: nothing, an error that wraps the unregistered-type error, another. */
  datatype Answer = Succeeds | ReportsUnregistered | ReportsOther

  /** An instance: whether it is a pointer, and the parameter types of its ResolveDeps, if it has one. */
  datatype Service = Service(id: int, isPointer: bool, hasResolve: bool, params: seq<string>, answer: Answer)

  datatype Dependency = Dependency(service: Service, injected: bool)

  /** A call of a service's ResolveDeps. */
  datatype Call = Call(service: Service, args: seq<Service>)

  type Registry = map<string, Dependency>

  /** The calls made on behalf of each type name, in order. */
  type Log = map<string, seq<Call>>

  datatype State = State(deps: Registry, initialized: bool, log: Log)

  datatype Injected = Done | NotPointer | Unregistered | Failed

  datatype Registered = Accepted | AlreadyRegistered | Refused(reason: Injected)

  /** All parameter types of the service are registered. */
  predicate Satisfied(deps: Registry, svc: Service) {
    svc.hasResolve ==> forall i :: 0 <= i < |svc.params| ==> svc.params[i] in deps
  }

  /** The registered instances for some parameter types. */
  function ArgsOf(deps: Registry, params: seq<string>): seq<Service>
    requires forall i :: 0 <= i < |params| ==> params[i] in deps
  {
    seq(|params|, i requires 0 <= i < |params| => deps[params[i]].service)
  }

  /** The call that injecting the service makes, if any. */
  function CallsFor(deps: Registry, svc: Service): seq<Call> {
    if svc.isPointer && svc.hasResolve && Satisfied(deps, svc) then [Call(svc, ArgsOf(deps, svc.params))] else []
  }

  function Injection(deps: Registry, svc: Service): Injected {
    if !svc.isPointer then NotPointer
    else if !svc.hasResolve then Done
    else if !Satisfied(deps, svc) then Unregistered
    else
      match svc.answer
      case Succeeds => Done
      case ReportsUnregistered => Unregistered
      case ReportsOther => Failed
  }

  function CallsAt(log: Log, name: string): seq<Call> {
    if name in log then log[name] else []
  }

  /** What a registration answers and leaves behind. */
  function RegisterResult(s: State, name: string, svc: Service): Registered {
    if name in s.deps then AlreadyRegistered
    else
      var r := Injection(s.deps, svc);
      if r.Done? || (r.Unregistered? && !s.initialized) then Accepted else Refused(r)
  }

  function Register(s: State, name: string, svc: Service): State {
    if name in s.deps then s
    else
      var logged := s.(log := s.log[name := CallsAt(s.log, name) + CallsFor(s.deps, svc)]);
      if RegisterResult(s, name, svc).Accepted?
      then logged.(deps := s.deps[name := Dependency(svc, Injection(s.deps, svc).Done?)])
      else logged
  }

  /** The names whose service a build has to inject. */
  predicate Deferred(deps: Registry, name: string) {
    name in deps && !deps[name].injected
  }

  /** The log after injecting the deferred services among `names`. */
  function BuildLog(deps: Registry, log: Log, names: set<string>): Log {
    map name | name in log.Keys + (set n | n in names && Deferred(deps, n)) ::
      if name in names && Deferred(deps, name) then CallsAt(log, name) + CallsFor(deps, deps[name].service)
      else CallsAt(log, name)
  }

  predicate BuildSucceeds(deps: Registry) {
    forall name :: name in deps && !deps[name].injected ==> Injection(deps, deps[name].service).Done?
  }

  /** Building injects every deferred service, in whatever order, and is over for good once all of
      them succeeded. It leaves the marks of the entries as they are. */
  function Build(s: State): State {
    if s.initialized then s
    else s.(initialized := BuildSucceeds(s.deps), log := BuildLog(s.deps, s.log, s.deps.Keys))
  }

  class Container {
    var dependencies: Registry
    var initialized: bool
    ghost var log: Log

    ghost function View(): State
      reads this
    {
      State(dependencies, initialized, log)
    }

    constructor ()
      ensures View() == State(map[], false, map[])
    {
      dependencies, initialized, log := map[], false, map[];
    }

    /** The loop that looks up the arguments one by one. */
    method CollectArgs(params: seq<string>) returns (ok: bool, args: seq<Service>)
      ensures ok <==> forall i :: 0 <= i < |params| ==> params[i] in dependencies
      ensures ok ==> args == ArgsOf(dependencies, params)
    {
      args := [];
      var i := 0;
      while i < |params|
        invariant 0 <= i <= |params| && |args| == i
        invariant forall k :: 0 <= k < i ==> params[k] in dependencies
        invariant forall k :: 0 <= k < i ==> args[k] == dependencies[params[k]].service
      {
        if params[i] !in dependencies {
          return false, args;
        }
        args := args + [dependencies[params[i]].service];
        i := i + 1;
      }
      return true, args;
    }

    /** Finds ResolveDeps, looks up its arguments and calls it. */
    method Inject(ghost name: string, instance: Service) returns (r: Injected)
      modifies this`log
      ensures r == Injection(dependencies, instance)
      ensures log == old(log)[name := CallsAt(old(log), name) + CallsFor(dependencies, instance)]
    {
      ghost var before := CallsAt(log, name);
      assert before + [] == before;
      log := log[name := before];
      if !instance.isPointer {
        return NotPointer;
      }
      if !instance.hasResolve {
        return Done;
      }
      var ok, args := CollectArgs(instance.params);
      if !ok {
        return Unregistered;
      }
      log := log[name := before + [Call(instance, args)]];
      match instance.answer {
        case Succeeds => return Done;
        case ReportsUnregistered => return Unregistered;
        case ReportsOther => return Failed;
      }
    }

    method RegisterService(typeName: string, instance: Service) returns (r: Registered)
      modifies this
      ensures r == RegisterResult(old(View()), typeName, instance)
      ensures View() == Register(old(View()), typeName, instance)
    {
      if typeName in dependencies {
        return AlreadyRegistered;
      }
      var injected := Inject(typeName, instance);
      if initialized {
        if injected.Done? {
          dependencies := dependencies[typeName := Dependency(instance, true)];
          return Accepted;
        }
        return Refused(injected);
      }
      if injected.Done? {
        dependencies := dependencies[typeName := Dependency(instance, true)];
        return Accepted;
      }
      if injected.Unregistered? {
        dependencies := dependencies[typeName := Dependency(instance, false)];
        return Accepted;
      }
      return Refused(injected);
    }

    /** Services are visited in any order. */
    method BuildAll() returns (ok: bool)
      modifies this`initialized, this`log
      ensures View() == Build(old(View()))
      ensures ok == initialized
    {
      if initialized {
        return true;
      }
      ok := true;
      var todo := dependencies.Keys;
      BuildLogNone(dependencies, log);
      while todo != {}
        invariant todo <= dependencies.Keys
        invariant log == BuildLog(dependencies, old(log), dependencies.Keys - todo)
        invariant ok <==> forall name :: name in dependencies && name !in todo && !dependencies[name].injected ==>
          Injection(dependencies, dependencies[name].service).Done?
        decreases todo
      {
        var name :| name in todo;
        var dep := dependencies[name];
        BuildLogNext(dependencies, old(log), dependencies.Keys - todo, name);
        assert dependencies.Keys - (todo - {name}) == dependencies.Keys - todo + {name};
        todo := todo - {name};
        if !dep.injected {
          var r := Inject(name, dep.service);
          ok := ok && r.Done?;
        }
      }
      assert dependencies.Keys - {} == dependencies.Keys;
      initialized := ok;
    }
  }

  lemma BuildLogNone(deps: Registry, log: Log)
    ensures BuildLog(deps, log, deps.Keys - deps.Keys) == log
  {
    assert deps.Keys - deps.Keys == {};
    var none := BuildLog(deps, log, {});
    assert none.Keys == log.Keys;
  }

  /** What the log holds of a name when some have been visited. */
  lemma BuildLogAt(deps: Registry, log: Log, names: set<string>, n: string)
    ensures n in BuildLog(deps, log, names) <==> n in log || (n in names && Deferred(deps, n))
    ensures CallsAt(BuildLog(deps, log, names), n) ==
      if n in names && Deferred(deps, n) then CallsAt(log, n) + CallsFor(deps, deps[n].service) else CallsAt(log, n)
  {}

  lemma SameLog(a: Log, b: Log)
    requires forall n :: n in a <==> n in b
    requires forall n :: CallsAt(a, n) == CallsAt(b, n)
    ensures a == b
  {
    forall n | n in a ensures a[n] == b[n] {
      assert CallsAt(a, n) == CallsAt(b, n);
    }
  }

  lemma BuildLogNext(deps: Registry, log: Log, seen: set<string>, name: string)
    requires name in deps && name !in seen
    ensures var before := BuildLog(deps, log, seen);
      BuildLog(deps, log, seen + {name}) ==
      if Deferred(deps, name) then before[name := CallsAt(before, name) + CallsFor(deps, deps[name].service)] else before
  {
    var before, after := BuildLog(deps, log, seen), BuildLog(deps, log, seen + {name});
    var next :=
      if Deferred(deps, name) then before[name := CallsAt(before, name) + CallsFor(deps, deps[name].service)] else before;
    forall n ensures n in after <==> n in next ensures CallsAt(after, n) == CallsAt(next, n) {
      BuildLogAt(deps, log, seen, n);
      BuildLogAt(deps, log, seen + {name}, n);
    }
    SameLog(after, next);
  }

  // ---------- What the answers are, case by case ----------

  /** A parameter type of its ResolveDeps has no entry. */
  ghost predicate Misses(deps: Registry, svc: Service) {
    svc.hasResolve && exists p :: p in svc.params && p !in deps
  }

  /** A pointer whose ResolveDeps, if it has one, is called and answers without an error. */
  ghost predicate Injects(deps: Registry, svc: Service) {
    svc.isPointer && !Misses(deps, svc) && (svc.hasResolve ==> svc.answer.Succeeds?)
  }

  /** A type is missing, or ResolveDeps itself reports one. */
  ghost predicate WantsMore(deps: Registry, svc: Service) {
    svc.isPointer && (Misses(deps, svc) || (svc.hasResolve && svc.answer.ReportsUnregistered?))
  }

  lemma MissesParam(deps: Registry, svc: Service)
    ensures Misses(deps, svc) <==> !Satisfied(deps, svc)
  {
    if !Satisfied(deps, svc) {
      var i :| 0 <= i < |svc.params| && svc.params[i] !in deps;
      assert svc.params[i] in svc.params;
    }
  }

  /** Before the container is built a service is taken when it can be injected or has to wait for more
      types; afterwards only when it can be injected. A name that is taken panics, and each refusal has
      its reason. */
  lemma RegistrationAnswer(s: State, name: string, svc: Service)
    ensures var r := RegisterResult(s, name, svc);
      && (r == AlreadyRegistered <==> name in s.deps)
      && (r == Accepted <==> name !in s.deps && (Injects(s.deps, svc) || (!s.initialized && WantsMore(s.deps, svc))))
      && (r == Refused(NotPointer) <==> name !in s.deps && !svc.isPointer)
      && (r == Refused(Unregistered) <==> name !in s.deps && s.initialized && WantsMore(s.deps, svc))
      && (r == Refused(Failed) <==>
            name !in s.deps && svc.isPointer && svc.hasResolve && !Misses(s.deps, svc) && svc.answer.ReportsOther?)
  {
    MissesParam(s.deps, svc);
  }

  /** A call with the instances that stand in the registry for the parameter types, in their order. */
  ghost predicate CallsWith(deps: Registry, svc: Service, calls: seq<Call>) {
    && |calls| == 1 && calls[0].service == svc && |calls[0].args| == |svc.params|
    && forall i :: 0 <= i < |svc.params| ==> svc.params[i] in deps && calls[0].args[i] == deps[svc.params[i]].service
  }

  lemma CallsMade(deps: Registry, svc: Service)
    ensures if svc.isPointer && svc.hasResolve && !Misses(deps, svc) then CallsWith(deps, svc, CallsFor(deps, svc))
      else CallsFor(deps, svc) == []
  {
    MissesParam(deps, svc);
  }

  /** An accepted registration adds the one entry, marked as injected if it is; a refused one adds none.
      ResolveDeps is called once, with the registered instances, when all its types are there. */
  lemma RegistrationEffect(s: State, name: string, svc: Service) returns (more: seq<Call>)
    ensures var s' := Register(s, name, svc);
      && s'.initialized == s.initialized
      && (s'.deps == if RegisterResult(s, name, svc) == Accepted
            then s.deps[name := Dependency(svc, Injects(s.deps, svc))] else s.deps)
      && (forall n :: CallsAt(s'.log, n) == CallsAt(s.log, n) + if n == name then more else [])
    ensures if name !in s.deps && svc.isPointer && svc.hasResolve && !Misses(s.deps, svc)
      then CallsWith(s.deps, svc, more) else more == []
  {
    more := if name in s.deps then [] else CallsFor(s.deps, svc);
    MissesParam(s.deps, svc);
    CallsMade(s.deps, svc);
    forall n ensures CallsAt(s.log, n) + [] == CallsAt(s.log, n) {}
  }

  /** A late registration is accepted exactly when the same one before the build would have been
      injected at once, and it leaves the same entry. */
  lemma LateLikeInjected(early: State, late: State, name: string, svc: Service)
    requires early.deps == late.deps && !early.initialized && late.initialized && name !in late.deps
    ensures RegisterResult(late, name, svc) == Accepted <==>
      name in Register(early, name, svc).deps && Register(early, name, svc).deps[name].injected
    ensures RegisterResult(late, name, svc) == Accepted ==> Register(late, name, svc).deps == Register(early, name, svc).deps
  {}

  /** A build ends the initialization exactly when every service that still waits can be injected. It
      calls each of them that misses nothing once more, and nobody else. */
  lemma BuildEffect(s: State, name: string) returns (more: seq<Call>)
    ensures var s' := Build(s);
      && s'.deps == s.deps
      && (s'.initialized <==> s.initialized || forall n :: Deferred(s.deps, n) ==> Injects(s.deps, s.deps[n].service))
      && CallsAt(s'.log, name) == CallsAt(s.log, name) + more
    ensures
      if !s.initialized && Deferred(s.deps, name)
        && s.deps[name].service.isPointer && s.deps[name].service.hasResolve && !Misses(s.deps, s.deps[name].service)
      then CallsWith(s.deps, s.deps[name].service, more) else more == []
  {
    var called := !s.initialized && Deferred(s.deps, name);
    more := if called then CallsFor(s.deps, s.deps[name].service) else [];
    if called {
      CallsMade(s.deps, s.deps[name].service);
    }
    assert CallsAt(s.log, name) + [] == CallsAt(s.log, name);
    forall n | n in s.deps
      ensures Injection(s.deps, s.deps[n].service).Done? <==> Injects(s.deps, s.deps[n].service)
    {
      MissesParam(s.deps, s.deps[n].service);
    }
  }

  // ---------- Invariant of all runs ----------

  datatype Step = RegisterStep(name: string, service: Service) | BuildStep

  function Apply(s: State, step: Step): State {
    match step
    case RegisterStep(name, svc) => Register(s, name, svc)
    case BuildStep => Build(s)
  }

  function Run(s: State, steps: seq<Step>): State
    decreases |steps|
  {
    if steps == [] then s else Run(Apply(s, steps[0]), steps[1..])
  }

  /** Injected services have all they need, and once the container is initialized every service has. */
  predicate Closed(s: State) {
    && (forall name :: name in s.deps ==> s.deps[name].service.isPointer)
    && (forall name :: name in s.deps && s.deps[name].injected ==> Satisfied(s.deps, s.deps[name].service))
    && (s.initialized ==> forall name :: name in s.deps ==> Satisfied(s.deps, s.deps[name].service))
  }

  /** Names are kept, with their services and marks. */
  predicate Grows(before: Registry, after: Registry) {
    forall name :: name in before ==> name in after && after[name] == before[name]
  }

  lemma SatisfiedGrows(before: Registry, after: Registry, svc: Service)
    requires Satisfied(before, svc) && Grows(before, after)
    ensures Satisfied(after, svc) && CallsFor(before, svc) == CallsFor(after, svc)
  {
    if svc.hasResolve {
      assert ArgsOf(before, svc.params) == ArgsOf(after, svc.params);
    }
  }

  lemma StepKeepsClosed(s: State, step: Step)
    requires Closed(s)
    ensures Closed(Apply(s, step)) && Grows(s.deps, Apply(s, step).deps)
    ensures s.initialized ==> Apply(s, step).initialized
  {
    var s' := Apply(s, step);
    assert Grows(s.deps, s'.deps);
    forall name | name in s.deps && Satisfied(s.deps, s.deps[name].service)
      ensures Satisfied(s'.deps, s.deps[name].service)
    {
      SatisfiedGrows(s.deps, s'.deps, s.deps[name].service);
    }
  }

  /** In every run of registrations and builds the registry only grows and never rebinds a name, and
      its closure properties hold. */
  lemma {:induction false} RunKeepsClosed(s: State, steps: seq<Step>)
    requires Closed(s)
    ensures Closed(Run(s, steps)) && Grows(s.deps, Run(s, steps).deps)
    ensures s.initialized ==> Run(s, steps).initialized
    decreases |steps|
  {
    if steps != [] {
      StepKeepsClosed(s, steps[0]);
      RunKeepsClosed(Apply(s, steps[0]), steps[1..]);
    }
  }

  /** A registration that is refused, late or early, changes no entry; only calls already made show. */
  lemma RefusedChangesNothing(s: State, name: string, svc: Service)
    requires !RegisterResult(s, name, svc).Accepted?
    ensures Register(s, name, svc).deps == s.deps && Register(s, name, svc).initialized == s.initialized
    ensures forall other :: other != name ==> CallsAt(Register(s, name, svc).log, other) == CallsAt(s.log, other)
    ensures svc.answer.Succeeds? ==> CallsAt(Register(s, name, svc).log, name) == CallsAt(s.log, name)
  {}

  // ---------- Order of the registrations ----------

  datatype Registration = Registration(name: string, service: Service)

  const NEW := State(map[], false, map[])

  function RegisterAll(regs: seq<Registration>): State {
    if regs == [] then NEW
    else Register(RegisterAll(regs[..|regs| - 1]), regs[|regs| - 1].name, regs[|regs| - 1].service)
  }

  /** Pointers with distinct type names, whose ResolveDeps never fails. */
  ghost predicate WellBehaved(regs: seq<Registration>) {
    && (forall r :: r in regs ==> r.service.isPointer && r.service.answer.Succeeds?)
    && (forall i, j :: 0 <= i < j < |regs| ==> regs[i].name != regs[j].name)
  }

  /** Some registration binds the name to the service. */
  predicate Binds(regs: seq<Registration>, name: string, svc: Service) {
    Registration(name, svc) in regs
  }

  predicate Known(regs: seq<Registration>, name: string) {
    exists i :: 0 <= i < |regs| && regs[i].name == name
  }

  /** Every parameter type of every service is registered, cycles or not. */
  ghost predicate Complete(regs: seq<Registration>) {
    forall r :: r in regs && r.service.hasResolve ==>
      forall i :: 0 <= i < |r.service.params| ==> Known(regs, r.service.params[i])
  }

  /** The call hands over exactly the instances registered for the parameter types. */
  ghost predicate RightCall(regs: seq<Registration>, svc: Service, call: Call) {
    && call.service == svc && |call.args| == |svc.params|
    && forall i :: 0 <= i < |svc.params| ==> Binds(regs, svc.params[i], call.args[i])
  }

  /** The entries are the registrations; injected ones have had their call, the others none. */
  ghost predicate Registers(s: State, regs: seq<Registration>) {
    && !s.initialized
    && (forall r :: r in regs ==> r.name in s.deps && s.deps[r.name].service == r.service)
    && (forall name :: name in s.deps ==> Binds(regs, name, s.deps[name].service))
    && (forall name :: name in s.deps ==>
          var d := s.deps[name];
          if d.injected then Satisfied(s.deps, d.service) && CallsAt(s.log, name) == CallsFor(s.deps, d.service)
          else CallsAt(s.log, name) == [])
    && (forall name :: name !in s.deps ==> CallsAt(s.log, name) == [])
  }

  lemma EntryStays(before: Registry, after: Registry, name: string)
    requires Grows(before, after) && name in before && Satisfied(before, before[name].service)
    ensures Satisfied(after, after[name].service)
    ensures CallsFor(after, after[name].service) == CallsFor(before, before[name].service)
  {
    SatisfiedGrows(before, after, before[name].service);
  }

  lemma RegistersNext(s: State, regs: seq<Registration>, r: Registration)
    requires Registers(s, regs) && r.service.isPointer && r.service.answer.Succeeds? && r.name !in s.deps
    ensures Registers(Register(s, r.name, r.service), regs + [r])
  {
    var s' := Register(s, r.name, r.service);
    assert forall x :: x in regs + [r] <==> x in regs || x == r;
    assert Grows(s.deps, s'.deps);
    if Satisfied(s.deps, r.service) {
      SatisfiedGrows(s.deps, s'.deps, r.service);
    }
    forall name | name in s.deps && s.deps[name].injected
      ensures Satisfied(s'.deps, s'.deps[name].service)
      ensures CallsFor(s'.deps, s'.deps[name].service) == CallsFor(s.deps, s.deps[name].service)
    {
      EntryStays(s.deps, s'.deps, name);
    }
  }

  lemma {:induction false} RegisteredAll(regs: seq<Registration>)
    requires WellBehaved(regs)
    ensures Registers(RegisterAll(regs), regs)
  {
    if regs != [] {
      var init, r := regs[..|regs| - 1], regs[|regs| - 1];
      assert regs == init + [r] && r in regs;
      RegisteredAll(init);
      var s := RegisterAll(init);
      forall i | 0 <= i < |init| ensures init[i].name != r.name {
        assert regs[i] == init[i];
      }
      KnownIsRegistered(s, init, r.name);
      RegistersNext(s, init, r);
    }
  }

  lemma KnownIsRegistered(s: State, regs: seq<Registration>, name: string)
    requires Registers(s, regs)
    ensures Known(regs, name) <==> name in s.deps
  {
    if Known(regs, name) {
      var i :| 0 <= i < |regs| && regs[i].name == name;
      assert regs[i] in regs;
    }
    if name in s.deps {
      assert Binds(regs, name, s.deps[name].service);
    }
  }

  lemma CompleteIsSatisfied(s: State, regs: seq<Registration>)
    requires Registers(s, regs)
    ensures Complete(regs) <==> forall name :: name in s.deps ==> Satisfied(s.deps, s.deps[name].service)
  {
    forall name ensures Known(regs, name) <==> name in s.deps {
      KnownIsRegistered(s, regs, name);
    }
    if Complete(regs) {
      forall name | name in s.deps ensures Satisfied(s.deps, s.deps[name].service) {
        assert Registration(name, s.deps[name].service) in regs;
      }
    } else {
      var r, i :| r in regs && r.service.hasResolve && 0 <= i < |r.service.params| && !Known(regs, r.service.params[i]);
      assert !Satisfied(s.deps, s.deps[r.name].service);
    }
  }

  /** What the first build after the registrations must leave behind. */
  ghost predicate AllInjectedOnce(log: Log, regs: seq<Registration>) {
    forall r :: r in regs ==>
      if r.service.hasResolve then |CallsAt(log, r.name)| == 1 && RightCall(regs, r.service, CallsAt(log, r.name)[0])
      else CallsAt(log, r.name) == []
  }

  lemma CallIsRight(s: State, regs: seq<Registration>, svc: Service)
    requires Registers(s, regs) && Satisfied(s.deps, svc) && svc.isPointer && svc.hasResolve
    ensures |CallsFor(s.deps, svc)| == 1 && RightCall(regs, svc, CallsFor(s.deps, svc)[0])
  {
    var call := CallsFor(s.deps, svc)[0];
    forall i | 0 <= i < |svc.params| ensures Binds(regs, svc.params[i], call.args[i]) {
      assert call.args[i] == s.deps[svc.params[i]].service;
    }
  }

  lemma BuiltCalls(s: State, regs: seq<Registration>, r: Registration)
    requires Registers(s, regs) && r in regs && r.service.isPointer && Satisfied(s.deps, r.service)
    ensures CallsAt(Build(s).log, r.name) == CallsFor(s.deps, r.service)
  {
    var calls := CallsFor(s.deps, r.service);
    assert calls + [] == calls && [] + calls == calls;
  }

  /** For any order of registration, dependency cycles included: the first build succeeds exactly when
      every parameter type is registered, and then every service has been injected exactly once, with
      exactly the registered instances. */
  lemma FirstBuild(regs: seq<Registration>)
    requires WellBehaved(regs)
    ensures var s := Build(RegisterAll(regs));
      && (s.initialized <==> Complete(regs))
      && (s.initialized ==> AllInjectedOnce(s.log, regs))
  {
    var s := RegisterAll(regs);
    RegisteredAll(regs);
    CompleteIsSatisfied(s, regs);
    forall name | name in s.deps ensures s.deps[name].service.isPointer && s.deps[name].service.answer.Succeeds? {
      assert Registration(name, s.deps[name].service) in regs;
    }
    if Complete(regs) {
      forall r | r in regs
        ensures if r.service.hasResolve
          then |CallsAt(Build(s).log, r.name)| == 1 && RightCall(regs, r.service, CallsAt(Build(s).log, r.name)[0])
          else CallsAt(Build(s).log, r.name) == []
      {
        BuiltCalls(s, regs, r);
        if r.service.hasResolve { CallIsRight(s, regs, r.service); }
      }
    }
  }

  lemma SameRegistrations(a: seq<Registration>, b: seq<Registration>)
    requires multiset(a) == multiset(b)
    ensures forall r :: r in a <==> r in b
    ensures Complete(a) <==> Complete(b)
  {
    assert forall r :: r in a <==> r in multiset(a);
    assert forall r :: r in b <==> r in multiset(b);
    forall name ensures Known(a, name) <==> Known(b, name) {
      if Known(a, name) {
        var i :| 0 <= i < |a| && a[i].name == name;
        assert a[i] in b;
      }
      if Known(b, name) {
        var i :| 0 <= i < |b| && b[i].name == name;
        assert b[i] in a;
      }
    }
  }

  /** The registration has its entry. */
  predicate Entry(s: State, r: Registration) {
    r.name in s.deps && s.deps[r.name].service == r.service
  }

  /** Two orders of the same registrations build alike. */
  lemma OrderIrrelevant(a: seq<Registration>, b: seq<Registration>)
    requires WellBehaved(a) && WellBehaved(b) && multiset(a) == multiset(b)
    ensures var s, t := Build(RegisterAll(a)), Build(RegisterAll(b));
      && (s.initialized <==> t.initialized)
      && (forall r :: r in a ==> Entry(s, r) && Entry(t, r))
      && (s.initialized ==> AllInjectedOnce(s.log, a) && AllInjectedOnce(t.log, a))
  {
    SameRegistrations(a, b);
    FirstBuild(a);
    FirstBuild(b);
    RegisteredAll(a);
    RegisteredAll(b);
  }

  // ---------- Runs with several builds ----------

  /** Registrations of pointers whose ResolveDeps never fails, and builds, in any order. */
  predicate WellBehavedRun(steps: seq<Step>) {
    forall step :: step in steps && step.RegisterStep? ==> step.service.isPointer && step.service.answer.Succeeds?
  }

  ghost predicate WellBehavedState(s: State) {
    && Closed(s)
    && (forall name :: name in s.deps ==> s.deps[name].service.answer.Succeeds?)
    && (forall name :: name in s.deps && !s.deps[name].injected ==> s.deps[name].service.hasResolve)
  }

  /** The service still waits for its injection, although all its parameter types are there. */
  predicate Waiting(s: State, name: string) {
    !s.initialized && Deferred(s.deps, name) && Satisfied(s.deps, s.deps[name].service)
  }

  /** A build that fails and yet injects the service. */
  predicate Repeats(s: State, step: Step, name: string) {
    step.BuildStep? && Waiting(s, name) && !BuildSucceeds(s.deps)
  }

  /** How often the service was injected by a build that failed. */
  function Repetitions(s: State, steps: seq<Step>, name: string): nat
    decreases |steps|
  {
    if steps == [] then 0
    else (if Repeats(s, steps[0], name) then 1 else 0) + Repetitions(Apply(s, steps[0]), steps[1..], name)
  }

  /** One for a service that is through with its injection. */
  function Settled(s: State, name: string): nat {
    if name in s.deps && s.deps[name].service.hasResolve && (s.deps[name].injected || s.initialized) then 1 else 0
  }

  function Copies(call: seq<Call>, n: nat): seq<Call> {
    if n == 0 then [] else Copies(call, n - 1) + call
  }

  lemma {:induction false} CopiesLength(call: seq<Call>, n: nat)
    requires |call| <= 1
    ensures |Copies(call, n)| == if call == [] then 0 else n
    ensures forall c :: c in Copies(call, n) ==> [c] == call
  {
    if n > 0 {
      CopiesLength(call, n - 1);
    }
  }

  /** The log so far: the service was called with what is registered now, once if it is settled and
      once for each of `n` repetitions. */
  ghost predicate Counted(s: State, name: string, n: nat) {
    if name in s.deps then
      && (n > 0 ==> Satisfied(s.deps, s.deps[name].service))
      && CallsAt(s.log, name) == Copies(CallsFor(s.deps, s.deps[name].service), Settled(s, name) + n)
    else n == 0 && CallsAt(s.log, name) == []
  }

  lemma StepKeepsWellBehaved(s: State, step: Step)
    requires WellBehavedState(s) && WellBehavedRun([step])
    ensures WellBehavedState(Apply(s, step)) && Grows(s.deps, Apply(s, step).deps)
    ensures s.initialized ==> Apply(s, step).initialized
  {
    assert step in [step];
    StepKeepsClosed(s, step);
  }

  lemma CopiesNext(call: seq<Call>, n: nat)
    ensures Copies(call, n) + call == Copies(call, n + 1)
  {}

  /** A registration adds the one call that settles its service, and none if it has to wait. */
  lemma RegisterCounts(s: State, name: string, svc: Service, other: string, n: nat)
    requires WellBehavedState(s) && svc.isPointer && svc.answer.Succeeds? && Counted(s, other, n)
    ensures Counted(Register(s, name, svc), other, n)
  {
    var s' := Register(s, name, svc);
    if other in s.deps {
      var d := s.deps[other];
      if Satisfied(s.deps, d.service) {
        SatisfiedGrows(s.deps, s'.deps, d.service);
      }
    } else if other == name && Satisfied(s.deps, svc) {
      SatisfiedGrows(s.deps, s'.deps, svc);
      CopiesNext(CallsFor(s.deps, svc), 0);
    }
  }

  /** What a build that is not the end of it leaves in the log. */
  lemma BuildCalls(s: State, name: string)
    requires WellBehavedState(s)
    ensures CallsAt(Build(s).log, name) == CallsAt(s.log, name) +
      if !s.initialized && Deferred(s.deps, name) then CallsFor(s.deps, s.deps[name].service) else []
  {
    assert CallsAt(s.log, name) + [] == CallsAt(s.log, name);
  }

  /** A successful build settles every deferred service; a failed one repeats those that wait. */
  lemma BuildSettles(s: State, name: string)
    requires WellBehavedState(s) && !s.initialized && Deferred(s.deps, name)
    ensures Settled(s, name) == 0 && CallsFor(s.deps, s.deps[name].service) ==
      if Waiting(s, name) then [Call(s.deps[name].service, ArgsOf(s.deps, s.deps[name].service.params))] else []
    ensures Settled(Build(s), name) + (if Repeats(s, BuildStep, name) then 1 else 0) == 1 || !Waiting(s, name)
    ensures !Waiting(s, name) ==> !Build(s).initialized
  {}

  /** One more call, or none, between two states with the same entries. */
  lemma CountedNext(s: State, t: State, name: string, n: nat, m: nat, more: nat)
    requires t.deps == s.deps && name in s.deps && Counted(s, name, n) && more <= 1
    requires CallsAt(t.log, name) ==
      CallsAt(s.log, name) + if more == 1 then CallsFor(s.deps, s.deps[name].service) else []
    requires Settled(t, name) + m == Settled(s, name) + n + more
    requires m > 0 ==> Satisfied(s.deps, s.deps[name].service)
    ensures Counted(t, name, m)
  {
    var calls := CallsFor(s.deps, s.deps[name].service);
    CopiesNext(calls, Settled(s, name) + n);
    assert Copies(calls, Settled(s, name) + n) + [] == Copies(calls, Settled(s, name) + n);
  }

  lemma DeferredCounts(s: State, name: string, n: nat)
    requires WellBehavedState(s) && Counted(s, name, n) && !s.initialized && Deferred(s.deps, name)
    ensures Counted(Build(s), name, n + if Repeats(s, BuildStep, name) then 1 else 0)
  {
    var m := n + if Repeats(s, BuildStep, name) then 1 else 0;
    BuildCalls(s, name);
    BuildSettles(s, name);
    CountedNext(s, Build(s), name, n, m, if Waiting(s, name) then 1 else 0);
  }

  /** A build adds one call for each service that is deferred and has all it needs; when the build
      fails, that call is a repetition. */
  lemma BuildCounts(s: State, name: string, n: nat)
    requires WellBehavedState(s) && Counted(s, name, n)
    ensures Counted(Build(s), name, n + if Repeats(s, BuildStep, name) then 1 else 0)
  {
    if !s.initialized && Deferred(s.deps, name) {
      DeferredCounts(s, name, n);
    } else {
      BuildCalls(s, name);
      if name in s.deps {
        CountedNext(s, Build(s), name, n, n, 0);
      }
    }
  }

  lemma {:induction false} RunKeepsWellBehaved(s: State, steps: seq<Step>)
    requires WellBehavedState(s) && WellBehavedRun(steps)
    ensures WellBehavedState(Run(s, steps)) && Grows(s.deps, Run(s, steps).deps)
    decreases |steps|
  {
    if steps != [] {
      FirstStep(steps);
      StepKeepsWellBehaved(s, steps[0]);
      RunKeepsWellBehaved(Apply(s, steps[0]), steps[1..]);
    }
  }

  lemma StepCounts(s: State, step: Step, name: string, n: nat) returns (t: State, m: nat)
    requires WellBehavedState(s) && WellBehavedRun([step]) && Counted(s, name, n)
    ensures t == Apply(s, step) && m == n + if Repeats(s, step, name) then 1 else 0
    ensures WellBehavedState(t) && Counted(t, name, m)
  {
    t, m := Apply(s, step), n + if Repeats(s, step, name) then 1 else 0;
    StepKeepsWellBehaved(s, step);
    if step.BuildStep? {
      BuildCounts(s, name, n);
    } else {
      assert step in [step];
      RegisterCounts(s, step.name, step.service, name, n);
    }
  }

  lemma RunBegins(s: State, steps: seq<Step>, name: string)
    requires steps != []
    ensures Run(s, steps) == Run(Apply(s, steps[0]), steps[1..])
    ensures Repetitions(s, steps, name) ==
      (if Repeats(s, steps[0], name) then 1 else 0) + Repetitions(Apply(s, steps[0]), steps[1..], name)
  {}

  /** The first step of a run, and what is left to do. */
  lemma FirstCounts(s: State, steps: seq<Step>, name: string, n: nat) returns (t: State, m: nat)
    requires WellBehavedState(s) && WellBehavedRun(steps) && steps != [] && Counted(s, name, n)
    ensures Run(s, steps) == Run(t, steps[1..])
    ensures n + Repetitions(s, steps, name) == m + Repetitions(t, steps[1..], name)
    ensures WellBehavedState(t) && WellBehavedRun(steps[1..]) && Counted(t, name, m)
  {
    FirstStep(steps);
    RunBegins(s, steps, name);
    t, m := StepCounts(s, steps[0], name, n);
  }

  lemma {:induction false} RunCounts(s: State, steps: seq<Step>, name: string, n: nat) returns (end: State, total: nat)
    requires WellBehavedState(s) && WellBehavedRun(steps) && Counted(s, name, n)
    ensures end == Run(s, steps) && total == n + Repetitions(s, steps, name)
    ensures Counted(end, name, total)
    decreases |steps|
  {
    if steps == [] {
      end, total := s, n;
    } else {
      var t, m := FirstCounts(s, steps, name, n);
      end, total := RunCounts(t, steps[1..], name, m);
    }
  }

  lemma FirstStep(steps: seq<Step>)
    requires WellBehavedRun(steps) && steps != []
    ensures WellBehavedRun([steps[0]]) && WellBehavedRun(steps[1..])
  {
    assert steps[0] in steps && forall x :: x in steps[1..] ==> x in steps;
  }

  /** In every run of registrations and builds that ends with an initialized container, a service was
      called once, and once more for every failed build that found it waiting with all its parameter
      types registered; every call hands over exactly the registered instances. */
  lemma CallsOfRun(steps: seq<Step>, name: string)
    requires WellBehavedRun(steps) && Run(NEW, steps).initialized
    requires name in Run(NEW, steps).deps && Run(NEW, steps).deps[name].service.hasResolve
    ensures var s := Run(NEW, steps);
      var svc, calls := s.deps[name].service, CallsAt(s.log, name);
      && |calls| == 1 + Repetitions(NEW, steps, name)
      && Satisfied(s.deps, svc)
      && forall c :: c in calls ==> c == Call(svc, ArgsOf(s.deps, svc.params))
  {
    var s := Run(NEW, steps);
    var end, total := RunCounts(NEW, steps, name, 0);
    RunKeepsWellBehaved(NEW, steps);
    CopiesLength(CallsFor(s.deps, s.deps[name].service), 1 + Repetitions(NEW, steps, name));
  }

  // ---------- Exactly once ----------

  /** At every build that fails, each service that still waits for its injection misses a parameter type. */
  ghost predicate IdleUntilComplete(s: State, steps: seq<Step>)
    decreases |steps|
  {
    steps == [] || (
      && (steps[0].BuildStep? && !s.initialized && !BuildSucceeds(s.deps) ==>
            forall name :: Deferred(s.deps, name) ==> !Satisfied(s.deps, s.deps[name].service))
      && IdleUntilComplete(Apply(s, steps[0]), steps[1..]))
  }

  /** Every service with ResolveDeps was called exactly once, with exactly the registered instances. */
  ghost predicate InjectedOnce(s: State) {
    forall name :: name in s.deps && s.deps[name].service.hasResolve ==>
      var svc := s.deps[name].service;
      Satisfied(s.deps, svc) && CallsAt(s.log, name) == [Call(svc, ArgsOf(s.deps, svc.params))]
  }

  lemma {:induction false} IdleNeverRepeats(s: State, steps: seq<Step>, name: string)
    requires IdleUntilComplete(s, steps)
    ensures Repetitions(s, steps, name) == 0
    decreases |steps|
  {
    if steps != [] {
      IdleNeverRepeats(Apply(s, steps[0]), steps[1..], name);
    }
  }

  lemma {:induction false} SomeRepeats(s: State, steps: seq<Step>) returns (name: string)
    requires WellBehavedState(s) && WellBehavedRun(steps) && !IdleUntilComplete(s, steps)
    ensures WellBehavedState(Run(s, steps)) && Grows(s.deps, Run(s, steps).deps)
    ensures name in Run(s, steps).deps && Run(s, steps).deps[name].service.hasResolve
    ensures Repetitions(s, steps, name) > 0
    decreases |steps|
  {
    var step, s' := steps[0], Apply(s, steps[0]);
    FirstStep(steps);
    StepKeepsWellBehaved(s, step);
    if step.BuildStep? && !s.initialized && !BuildSucceeds(s.deps)
        && exists x :: Deferred(s.deps, x) && Satisfied(s.deps, s.deps[x].service) {
      name :| Deferred(s.deps, name) && Satisfied(s.deps, s.deps[name].service);
      assert Repeats(s, step, name);
      RunKeepsWellBehaved(s', steps[1..]);
    } else {
      name := SomeRepeats(s', steps[1..]);
    }
  }

  /** In every run that ends initialized, each service was injected exactly once, with the registered
      instances, if and only if no failing build found a waiting service that had all it needs. */
  lemma ExactlyOnce(steps: seq<Step>)
    requires WellBehavedRun(steps) && Run(NEW, steps).initialized
    ensures InjectedOnce(Run(NEW, steps)) <==> IdleUntilComplete(NEW, steps)
  {
    var s := Run(NEW, steps);
    if IdleUntilComplete(NEW, steps) {
      forall name | name in s.deps && s.deps[name].service.hasResolve
        ensures var svc := s.deps[name].service;
          Satisfied(s.deps, svc) && CallsAt(s.log, name) == [Call(svc, ArgsOf(s.deps, svc.params))]
      {
        IdleNeverRepeats(NEW, steps, name);
        CallsOfRun(steps, name);
        var calls := CallsAt(s.log, name);
        assert calls == [calls[0]] && calls[0] in calls;
      }
    } else {
      var name := SomeRepeats(NEW, steps);
      CallsOfRun(steps, name);
    }
  }

  /** Four names and their services. */
  datatype Four = Four(a: Registration, b: Registration, x: Registration, y: Registration)

  function AsStep(r: Registration): Step {
    RegisterStep(r.name, r.service)
  }

  function TwoBuilds(f: Four): seq<Step> {
    [AsStep(f.a), AsStep(f.b), AsStep(f.x), BuildStep, AsStep(f.y), BuildStep]
  }

  /** Well-behaved services with distinct names; a needs b, x needs y. */
  predicate TwoPairs(f: Four) {
    && (forall r :: r in {f.a, f.b, f.x, f.y} ==> r.service.isPointer && r.service.answer.Succeeds?)
    && f.a.name !in {f.b.name, f.x.name, f.y.name} && f.b.name !in {f.x.name, f.y.name}
    && f.x.name != f.y.name
    && f.a.service.hasResolve && f.a.service.params == [f.b.name]
    && f.x.service.hasResolve && f.x.service.params == [f.y.name]
    && !f.b.service.hasResolve && !f.y.service.hasResolve
  }

  function Entries(f: Four): Registry {
    map[f.a.name := Dependency(f.a.service, false), f.b.name := Dependency(f.b.service, true),
        f.x.name := Dependency(f.x.service, false)]
  }

  /** The container after the three registrations before the first build. */
  lemma BeforeFirstBuild(f: Four)
    requires TwoPairs(f)
    ensures var s := Register(Register(Register(NEW, f.a.name, f.a.service), f.b.name, f.b.service), f.x.name, f.x.service);
      s.deps == Entries(f) && !s.initialized && CallsAt(s.log, f.a.name) == []
  {
    var one := Register(NEW, f.a.name, f.a.service);
    assert !Satisfied(NEW.deps, f.a.service) by { assert f.a.service.params[0] !in NEW.deps; }
    var two := Register(one, f.b.name, f.b.service);
    assert !Satisfied(two.deps, f.x.service) by { assert f.x.service.params[0] !in two.deps; }
  }

  /** A build that injects one service while another misses a parameter type. */
  lemma FailedBuildInjects(s: State, name: string, other: string)
    requires !s.initialized && Deferred(s.deps, name) && Deferred(s.deps, other)
    requires s.deps[other].service.hasResolve && !Satisfied(s.deps, s.deps[other].service)
    ensures Build(s).deps == s.deps && !Build(s).initialized
    ensures CallsAt(Build(s).log, name) == CallsAt(s.log, name) + CallsFor(s.deps, s.deps[name].service)
  {}

  lemma OneArgument(deps: Registry, svc: Service, name: string)
    requires svc.isPointer && svc.hasResolve && svc.params == [name] && name in deps
    ensures CallsFor(deps, svc) == [Call(svc, [deps[name].service])]
  {
    assert ArgsOf(deps, svc.params) == [deps[name].service];
  }

  lemma FirstBuildFails(f: Four, s: State)
    requires TwoPairs(f) && s.deps == Entries(f) && !s.initialized && CallsAt(s.log, f.a.name) == []
    ensures Build(s).deps == s.deps && !Build(s).initialized
    ensures CallsAt(Build(s).log, f.a.name) == [Call(f.a.service, [f.b.service])]
  {
    assert !Satisfied(s.deps, f.x.service) by { assert f.x.service.params[0] !in s.deps; }
    FailedBuildInjects(s, f.a.name, f.x.name);
    OneArgument(s.deps, f.a.service, f.b.name);
  }

  lemma SecondBuild(f: Four, s: State)
    requires TwoPairs(f) && s.deps == Entries(f) && !s.initialized
    requires CallsAt(s.log, f.a.name) == [Call(f.a.service, [f.b.service])]
    ensures var t := Build(Register(s, f.y.name, f.y.service));
      t.initialized && CallsAt(t.log, f.a.name) == [Call(f.a.service, [f.b.service]), Call(f.a.service, [f.b.service])]
  {
    var t := Register(s, f.y.name, f.y.service);
    assert t.deps == Entries(f)[f.y.name := Dependency(f.y.service, true)];
    assert CallsAt(t.log, f.a.name) == CallsAt(s.log, f.a.name);
    OneArgument(t.deps, f.a.service, f.b.name);
  }

  /** With a needing b and x needing y, the build before y is registered fails but injects a, and the
      build after it injects a again. */
  lemma InjectedTwice(f: Four)
    requires TwoPairs(f)
    ensures var s := Run(NEW, TwoBuilds(f));
      s.initialized && CallsAt(s.log, f.a.name) == [Call(f.a.service, [f.b.service]), Call(f.a.service, [f.b.service])]
  {
    var s := Register(Register(Register(NEW, f.a.name, f.a.service), f.b.name, f.b.service), f.x.name, f.x.service);
    BeforeFirstBuild(f);
    FirstBuildFails(f, s);
    SecondBuild(f, Build(s));
    RunOfTwoBuilds(f);
  }

  lemma RunFront(s: State, step: Step, rest: seq<Step>)
    ensures Run(s, [step] + rest) == Run(Apply(s, step), rest)
  {
    assert ([step] + rest)[1..] == rest;
  }

  lemma RunOfTwoBuilds(f: Four)
    ensures var s := Register(Register(Register(NEW, f.a.name, f.a.service), f.b.name, f.b.service), f.x.name, f.x.service);
      Run(NEW, TwoBuilds(f)) == Build(Register(Build(s), f.y.name, f.y.service))
  {
    var s1 := Apply(NEW, AsStep(f.a));
    var s2 := Apply(s1, AsStep(f.b));
    var s3 := Apply(s2, AsStep(f.x));
    RunFront(Apply(Build(s3), AsStep(f.y)), BuildStep, []);
    RunFront(Build(s3), AsStep(f.y), [BuildStep]);
    RunFront(s3, BuildStep, [AsStep(f.y), BuildStep]);
    RunFront(s2, AsStep(f.x), [BuildStep, AsStep(f.y), BuildStep]);
    RunFront(s1, AsStep(f.b), [AsStep(f.x), BuildStep, AsStep(f.y), BuildStep]);
    RunFront(NEW, AsStep(f.a), [AsStep(f.b), AsStep(f.x), BuildStep, AsStep(f.y), BuildStep]);
  }
}
