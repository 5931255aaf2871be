/** The repository's own wiring (index.ts with the three `@Register` decorators) and the
    behaviours the container promises, each as a small client of the container. The decorators
    run at module load, before `bootstrap`; here they are explicit `Register` calls in the
    order index.ts imports the classes. */
module Demo {
  import opened IoCModel
  import opened Container

  const ServiceA: Pending := Pending("IServiceA", [], ClassTag("ServiceA"))
  const ServiceB: Pending := Pending("IServiceB", ["IServiceA"], ClassTag("ServiceB"))
  const DoThing: Pending := Pending("IDoThing", ["IServiceA", "IServiceB"], ClassTag("DoThing"))

  /** The queue the three decorators leave, with dependencies always queued first. */
  lemma {:induction false} IndexQueueOrdered()
    ensures Ordered([ServiceA, ServiceB, DoThing])
    ensures forall j :: 0 <= j < 3 ==> FirstOccurrence([ServiceA, ServiceB, DoThing], j)
  {
    var q := [ServiceA, ServiceB, DoThing];
    assert q[..0] == [];
    assert q[..1] == [ServiceA];
    assert q[..2] == [ServiceA, ServiceB];
    assert Names(q[..1]) == {"IServiceA"};
    assert Names(q[..2]) == {"IServiceA", "IServiceB"};
    assert Names(q[..0]) == {};
  }

  /** In any valid state where the three tuples are wired, the three instances are distinct,
      and each was built from the singletons its dependencies resolve to. */
  lemma IndexWired(t: State)
    requires Valid(t) && WiredAs(t, ServiceA) && WiredAs(t, ServiceB) && WiredAs(t, DoThing)
    ensures Resolve(t, "IServiceA").Ok? && Resolve(t, "IServiceB").Ok? && Resolve(t, "IDoThing").Ok?
    ensures var a, b, d := Resolve(t, "IServiceA").value, Resolve(t, "IServiceB").value, Resolve(t, "IDoThing").value;
      a in t.built && b in t.built && d in t.built &&
      t.built[a] == Construction(ClassTag("ServiceA"), []) &&
      t.built[b] == Construction(ClassTag("ServiceB"), [a]) &&
      t.built[d] == Construction(ClassTag("DoThing"), [a, b]) &&
      a != b && b != d && a != d
  {
    assert ResolveAll(t, ServiceA.dependencies).value == [];
    assert ResolveAll(t, ServiceB.dependencies).value == [Resolve(t, "IServiceA").value];
    assert ResolveAll(t, DoThing.dependencies).value == [Resolve(t, "IServiceA").value, Resolve(t, "IServiceB").value];
  }

  /** Bootstrapping the queue index.ts leaves builds ServiceA from nothing, ServiceB from the
      ServiceA singleton, and DoThing from the ServiceA and ServiceB singletons. */
  lemma IndexBootstrap()
    ensures var t := Bootstrap(State(None, [ServiceA, ServiceB, DoThing], 0, map[])).0;
      Resolve(t, "IServiceA").Ok? && Resolve(t, "IServiceB").Ok? && Resolve(t, "IDoThing").Ok? &&
      var a, b, d := Resolve(t, "IServiceA").value, Resolve(t, "IServiceB").value, Resolve(t, "IDoThing").value;
      a in t.built && b in t.built && d in t.built &&
      t.built[a] == Construction(ClassTag("ServiceA"), []) &&
      t.built[b] == Construction(ClassTag("ServiceB"), [a]) &&
      t.built[d] == Construction(ClassTag("DoThing"), [a, b]) &&
      a != b && b != d && a != d
  {
    var q := [ServiceA, ServiceB, DoThing];
    var s := State(None, q, 0, map[]);
    IndexQueueOrdered();
    BootstrapSucceeds(s);
    var t := Bootstrap(s).0;
    assert WiredAs(t, q[0]) && WiredAs(t, q[1]) && WiredAs(t, q[2]);
    IndexWired(t);
  }

  /** The queue of the two services alone. */
  lemma ServicesQueueOrdered()
    ensures Ordered([ServiceA, ServiceB]) && Names([ServiceA, ServiceB]) == {"IServiceA", "IServiceB"}
  {
    var q := [ServiceA, ServiceB];
    assert q[..0] == [] && q[..1] == [ServiceA];
    assert Names(q[..1]) == {"IServiceA"};
  }

  /** index.ts: register ServiceA, ServiceB, DoThing, bootstrap, then resolve 'IDoThing'.
      DoThing's instance was constructed with exactly the ServiceA and ServiceB singletons,
      and ServiceB's with that same ServiceA singleton. */
  method IndexWiring() returns (c: IoCContainer, thing: Id, serviceA: Id, serviceB: Id)
    ensures c.Valid() && c.modules.Some? && c.queue == []
    ensures serviceA in c.built && serviceB in c.built && thing in c.built
    ensures c.built[serviceA] == Construction(ClassTag("ServiceA"), [])
    ensures c.built[serviceB] == Construction(ClassTag("ServiceB"), [serviceA])
    ensures c.built[thing] == Construction(ClassTag("DoThing"), [serviceA, serviceB])
    ensures thing != serviceA && thing != serviceB && serviceA != serviceB
    ensures IoCModel.Resolve(c.Abs(), "IServiceA") == Ok(serviceA)
    ensures IoCModel.Resolve(c.Abs(), "IServiceB") == Ok(serviceB)
    ensures IoCModel.Resolve(c.Abs(), "IDoThing") == Ok(thing)
  {
    c := new IoCContainer();
    var o := c.Register(ServiceA.name, ServiceA.dependencies, ServiceA.reference);
    o := c.Register(ServiceB.name, ServiceB.dependencies, ServiceB.reference);
    o := c.Register(DoThing.name, DoThing.dependencies, DoThing.reference);
    assert c.Abs() == State(None, [ServiceA, ServiceB, DoThing], 0, map[]);
    o := c.Bootstrap();
    IndexBootstrap();
    var r := c.Resolve("IServiceA");
    serviceA := r.value;
    r := c.Resolve("IServiceB");
    serviceB := r.value;
    r := c.Resolve("IDoThing");
    thing := r.value;
  }

  /** Two `resolve` calls for the same name return the same instance, and registering an
      already-built name again after bootstrap changes nothing. */
  method SingletonAfterBootstrap() returns (first: Result<Id>, second: Result<Id>, again: Outcome)
    ensures first.Ok? && first == second && again == Pass
  {
    var c := new IoCContainer();
    var o := c.Register(ServiceA.name, ServiceA.dependencies, ServiceA.reference);
    assert c.queue == [ServiceA];
    assert [ServiceA][..0] == [];
    assert Ordered([ServiceA]);
    o := c.Bootstrap();
    assert Names([ServiceA]) == {"IServiceA"};
    first := c.Resolve("IServiceA");
    again := c.Register(ServiceA.name, ServiceA.dependencies, ServiceA.reference);
    second := c.Resolve("IServiceA");
  }

  /** ServiceB queued before the ServiceA it depends on: bootstrap throws for 'IServiceA'
      while registering ServiceB, builds neither service, and keeps both tuples queued. */
  method MisorderedBootstrap() returns (o: Outcome, a: Result<Id>, b: Result<Id>, pending: seq<Pending>)
    ensures o == Fail(NotBootstrapped("IServiceA"))
    ensures a == Err(NotBootstrapped("IServiceA"))
    ensures b == Err(NotBootstrapped("IServiceB"))
    ensures pending == [ServiceB, ServiceA]
  {
    var c := new IoCContainer();
    o := c.Register(ServiceB.name, ServiceB.dependencies, ServiceB.reference);
    o := c.Register(ServiceA.name, ServiceA.dependencies, ServiceA.reference);
    var q := [ServiceB, ServiceA];
    assert c.queue == q;
    assert q[..0] == [];
    assert Violation(q, 0) by {
      assert "IServiceA" in q[0].dependencies;
    }
    assert FirstViolation(q, 0) == 0;
    assert FirstMissing(ServiceB.dependencies, {}) == 0;
    assert MissingDep(q, 0) == "IServiceA";
    o := c.Bootstrap();
    a := c.Resolve("IServiceA");
    b := c.Resolve("IServiceB");
    pending := c.queue;
  }

  /** `resolve` before `bootstrap` throws "No modules defined.". */
  method ResolveBeforeBootstrap() returns (r: Result<Id>)
    ensures r == Err(NoModulesDefined)
  {
    var c := new IoCContainer();
    var o := c.Register(ServiceA.name, ServiceA.dependencies, ServiceA.reference);
    r := c.Resolve("IServiceA");
  }

  /** After bootstrapping ServiceA and ServiceB, a name never registered neither resolves nor
      can be registered late. */
  method UnknownAfterBootstrap() returns (r: Result<Id>, late: Outcome)
    ensures r == Err(NotBootstrapped("C"))
    ensures late == Fail(NotBootstrapped("C"))
  {
    var c := new IoCContainer();
    var o := c.Register(ServiceA.name, ServiceA.dependencies, ServiceA.reference);
    o := c.Register(ServiceB.name, ServiceB.dependencies, ServiceB.reference);
    assert c.queue == [ServiceA, ServiceB];
    ServicesQueueOrdered();
    o := c.Bootstrap();
    r := c.Resolve("C");
    late := c.Register("C", [], ClassTag("C"));
  }
}
