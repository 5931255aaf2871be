/** The container object of src/IoCContainer.ts: its fields are updated in place by `register`,
    the `bootstrap` setter and `_dequeue`. Every method except `Enqueue` is proved to do exactly
    what the corresponding function of IoCModel does to the abstract state `Abs()`; `Enqueue`
    states its effect on the queue directly. */
module Container {
  import opened IoCModel

  class IoCContainer {
    /** `_modules`: None until `bootstrap` runs. */
    var modules: Option<map<Name, Module>>
    /** `_queue`: the buffered `register` calls, oldest first. */
    var queue: seq<Pending>
    /** The id the next `new clazz(...)` produces. */
    var nextId: Id
    /** Every construction so far: which class built which id from which argument instances. */
    ghost var built: map<Id, Construction>

    ghost function Abs(): State
      reads this
    {
      State(modules, queue, nextId, built)
    }

    ghost predicate Valid()
      reads this
    {
      IoCModel.Valid(Abs())
    }

    /** The private constructor: buffering mode with an empty queue. */
    constructor ()
      ensures Valid() && Abs() == Initial()
    {
      modules := None;
      queue := [];
      nextId := 0;
      built := map[];
    }

    /** `resolve(dep)`; it changes nothing. */
    method Resolve(dep: Name) returns (r: Result<Id>)
      ensures r == IoCModel.Resolve(Abs(), dep)
      ensures modules.None? ==> r == Err(NoModulesDefined)
      ensures modules.Some? && (dep !in modules.value || modules.value[dep].instance.None?) ==>
                r == Err(NotBootstrapped(dep))
      ensures modules.Some? && dep in modules.value && modules.value[dep].instance.Some? ==>
                r == Ok(modules.value[dep].instance.value)
    {
      if modules.None? {
        return Err(NoModulesDefined);
      }
      var m := modules.value;
      if dep !in m || m[dep].instance.None? {
        return Err(NotBootstrapped(dep));
      }
      r := Ok(m[dep].instance.value);
    }

    /** `_getDepsOfClass(deps)`: resolves each dependency in order; the first failure is
        the result. */
    method GetDepsOfClass(deps: seq<Name>) returns (r: Result<seq<Id>>)
      ensures r == ResolveAll(Abs(), deps)
    {
      var instances: seq<Id> := [];
      for i := 0 to |deps|
        invariant |instances| == i
        invariant forall j :: 0 <= j < i ==> IoCModel.Resolve(Abs(), deps[j]) == Ok(instances[j])
      {
        var x := Resolve(deps[i]);
        if x.Err? {
          ghost var all := ResolveAll(Abs(), deps);
          ghost var k :| 0 <= k < |deps| && IoCModel.Resolve(Abs(), deps[k]) == Err(all.error) &&
                         forall j :: 0 <= j < k ==> IoCModel.Resolve(Abs(), deps[j]).Ok?;
          assert k == i;
          return Err(x.error);
        }
        instances := instances + [x.value];
      }
      r := Ok(instances);
      assert r.value == ResolveAll(Abs(), deps).value;
    }

    /** `_enqueue(name, deps, clazz)`: the buffering branch of `IoCModel.Register`, stated
        directly on the queue. */
    method Enqueue(name: Name, deps: seq<Name>, clazz: ClassTag)
      modifies this`queue
      ensures queue == old(queue) + [Pending(name, deps, clazz)]
    {
      queue := queue + [Pending(name, deps, clazz)];
    }

    /** `register(name, deps, clazz)`. */
    method Register(name: Name, deps: seq<Name>, clazz: ClassTag) returns (o: Outcome)
      requires Valid()
      modifies this
      ensures Valid()
      ensures (Abs(), o) == IoCModel.Register(old(Abs()), name, deps, clazz)
      ensures old(modules).None? ==>
                o == Pass && queue == old(queue) + [Pending(name, deps, clazz)] &&
                modules == old(modules) && nextId == old(nextId) && built == old(built)
      ensures old(modules).Some? ==> queue == old(queue) && modules.Some?
      ensures o.Fail? ==> Abs() == old(Abs())
      ensures forall n :: Instance(old(Abs()), n).Some? ==> Instance(Abs(), n) == Instance(old(Abs()), n)
    {
      RegisterPreserves(Abs(), name, deps, clazz);
      if modules.None? {
        Enqueue(name, deps, clazz);
        return Pass;
      }
      var m := modules.value;
      if name !in m {
        return Fail(NotBootstrapped(name));
      }
      if m[name].instance.Some? {
        return Pass;
      }
      var depsOfClass := GetDepsOfClass(deps);
      if depsOfClass.Err? {
        return Fail(depsOfClass.error);
      }
      // `new clazz(...depsOfClass)`: a fresh instance built from exactly these arguments
      var id := nextId;
      nextId := nextId + 1;
      built := built[id := Construction(clazz, depsOfClass.value)];
      modules := Some(m[name := m[name].(instance := Some(id))]);
      o := Pass;
    }

    /** The first pass of `_dequeue()`: `this._modules[name] = { dependencies, reference }`
        for every queued tuple, in queue order. */
    method AssignQueued()
      requires Valid() && modules.Some?
      modifies this`modules
      ensures Valid()
      ensures modules == Some(Assign(old(modules.value), queue))
    {
      var q := queue;
      for i := 0 to |q|
        invariant modules == Some(Assign(old(modules.value), q[..i]))
      {
        var p := q[i];
        assert q[..i + 1][..i] == q[..i];
        modules := Some(modules.value[p.name := Module(p.reference, p.dependencies, None)]);
      }
      assert q[..|q|] == q;
      AssignDeclares(old(modules.value), q);
      assert forall n :: Instance(Abs(), n).Some? ==> Instance(Abs(), n) == Instance(old(Abs()), n);
    }

    /** The second pass of `_dequeue()`: `register` every queued tuple with its own arguments,
        in queue order, leaving at the first one that throws. */
    method RegisterQueued() returns (o: Outcome)
      requires Valid() && modules.Some?
      modifies this
      ensures Valid() && modules.Some?
      ensures (Abs(), o) == Drain(old(Abs()), old(queue), 0)
    {
      var q := queue;
      o := Pass;
      for i := 0 to |q|
        invariant Valid() && modules.Some? && queue == q && o == Pass
        invariant Drain(Abs(), q, i) == Drain(old(Abs()), q, 0)
      {
        var p := q[i];
        o := Register(p.name, p.dependencies, p.reference);
        if o.Fail? {
          return;
        }
      }
      assert Drain(Abs(), q, |q|) == (Abs(), Pass);
    }

    /** `_dequeue()`: the assignment pass, then the registration pass, then the queue is
        cleared; a failing `register` leaves before the queue is cleared. */
    method Dequeue() returns (o: Outcome)
      requires Valid() && modules.Some?
      modifies this
      ensures Valid()
      ensures (Abs(), o) == IoCModel.Dequeue(old(Abs()))
      ensures modules.Some?
    {
      AssignQueued();
      o := RegisterQueued();
      if o.Fail? {
        return;
      }
      ValidWithQueue(Abs(), []);
      queue := [];
    }

    /** The `bootstrap` setter: `_modules = {}`, then `_dequeue()`. It does not check whether
        the container was bootstrapped before. */
    method Bootstrap() returns (o: Outcome)
      requires Valid()
      modifies this
      ensures Valid()
      ensures (Abs(), o) == IoCModel.Bootstrap(old(Abs()))
      ensures modules.Some?
      ensures o == Pass <==> Ordered(old(queue))
      ensures o == Pass ==>
                queue == [] &&
                (forall n :: n in modules.value <==> n in Names(old(queue))) &&
                (forall n :: n in Names(old(queue)) ==> modules.value[n].instance.Some?) &&
                (forall j :: 0 <= j < |old(queue)| && FirstOccurrence(old(queue), j) ==>
                   WiredAs(Abs(), old(queue)[j]))
      ensures o.Fail? ==>
                queue == old(queue) &&
                o == Fail(NotBootstrapped(MissingDep(old(queue), FirstViolation(old(queue), 0)))) &&
                (forall n :: n in modules.value <==> n in Names(old(queue))) &&
                (forall n :: Instance(Abs(), n).Some? <==> n in Names(old(queue)[..FirstViolation(old(queue), 0)]))
    {
      ghost var s := Abs();
      modules := Some(map[]);
      o := Dequeue();
      assert (Abs(), o) == IoCModel.Bootstrap(s);
      BootstrapSucceedsIffOrdered(s);
      if Ordered(s.queue) {
        BootstrapSucceeds(s);
      } else {
        BootstrapFails(s);
      }
    }
  }
}
