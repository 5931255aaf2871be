/** The IoC container's state as a value, and its operations as functions over it.

    `register`, `resolve`, `_getDepsOfClass`, `_dequeue` and the `bootstrap` setter of
    src/IoCContainer.ts are stated here once, as functions; `_enqueue` is the buffering branch
    of `Register`. The class in container.dfy is proved to compute exactly these. Component
    constructors are opaque class tags, and `new clazz(...args)` yields a fresh instance id
    whose construction (class and argument instances) is recorded in `built`.
 */
module IoCModel {

  type Name = string

  /** An opaque component constructor (the `clazz` argument of `register`). */
  datatype ClassTag = ClassTag(className: string)

  /** The identity of one constructed component instance. */
  type Id = nat

  datatype Option<T> = None | Some(value: T)

  /** The two errors the container throws. */
  datatype Error =
    | NoModulesDefined           // "No modules defined."
    | NotBootstrapped(name: Name) // "\"<name>\" has not been bootstrapped."

  datatype Result<T> = Ok(value: T) | Err(error: Error)

  /** Completion of an operation that returns nothing or throws. */
  datatype Outcome = Pass | Fail(error: Error)

  /** One entry of `_modules`: the stored reference and dependencies, and the instance once built. */
  datatype Module = Module(reference: ClassTag, dependencies: seq<Name>, instance: Option<Id>)

  /** One element of `_queue`: a buffered `register(name, deps, clazz)` call. */
  datatype Pending = Pending(name: Name, dependencies: seq<Name>, reference: ClassTag)

  /** What `new clazz(...args)` was given when it produced an instance. */
  datatype Construction = Construction(reference: ClassTag, args: seq<Id>)

  /** `modules` is `_modules` (None before bootstrap), `queue` is `_queue`;
      `nextId` and `built` model the allocation of fresh instances. */
  datatype State = State(
    modules: Option<map<Name, Module>>,
    queue: seq<Pending>,
    nextId: Id,
    built: map<Id, Construction>)

  /** The container as its private constructor leaves it. */
  function Initial(): (s: State)
    ensures Valid(s) && s.queue == [] && s.built == map[]
    ensures forall n :: Resolve(s, n) == Err(NoModulesDefined)
  {
    State(None, [], 0, map[])
  }

  /** The instance stored for `n`, if the container is active and `n` has one. */
  function Instance(s: State, n: Name): Option<Id>
  {
    if s.modules.Some? && n in s.modules.value then s.modules.value[n].instance else None
  }

  /** Every stored instance was constructed, every construction used a fresh id,
      and no two names share an instance. */
  ghost predicate Valid(s: State)
  {
    (forall x :: x in s.built ==> x < s.nextId) &&
    (forall n :: Instance(s, n).Some? ==> Instance(s, n).value in s.built) &&
    (forall n1, n2 :: Instance(s, n1).Some? && Instance(s, n1) == Instance(s, n2) ==> n1 == n2)
  }

  /** Validity does not depend on the queue. */
  lemma ValidWithQueue(s: State, q: seq<Pending>)
    requires Valid(s)
    ensures Valid(s.(queue := q))
  {
    assert forall n :: Instance(s.(queue := q), n) == Instance(s, n);
  }

  // ---------------------------------------------------------------------------------------
  // resolve and _getDepsOfClass
  // ---------------------------------------------------------------------------------------

  /** `resolve(dep)`. */
  function Resolve(s: State, dep: Name): (r: Result<Id>)
    ensures r.Ok? <==> Instance(s, dep).Some?
    ensures r.Ok? ==> Instance(s, dep) == Some(r.value)
    ensures r.Err? ==> r.error == if s.modules.None? then NoModulesDefined else NotBootstrapped(dep)
  {
    if s.modules.None? then Err(NoModulesDefined)
    else if dep !in s.modules.value || s.modules.value[dep].instance.None? then Err(NotBootstrapped(dep))
    else Ok(s.modules.value[dep].instance.value)
  }

  /** `_getDepsOfClass(deps)`: `deps.map(resolve)`, where the first failing `resolve` throws. */
  function ResolveAll(s: State, deps: seq<Name>): (r: Result<seq<Id>>)
    ensures r.Ok? <==> forall i :: 0 <= i < |deps| ==> Resolve(s, deps[i]).Ok?
    ensures r.Ok? ==> |r.value| == |deps| && forall i :: 0 <= i < |deps| ==> Resolve(s, deps[i]) == Ok(r.value[i])
    ensures r.Err? ==> exists k :: 0 <= k < |deps| && Resolve(s, deps[k]) == Err(r.error) &&
                                    forall i :: 0 <= i < k ==> Resolve(s, deps[i]).Ok?
    decreases |deps|
  {
    if deps == [] then Ok([])
    else
      match Resolve(s, deps[0])
      case Err(e) => Err(e)
      case Ok(x) =>
        var rest := ResolveAll(s, deps[1..]);
        if rest.Err? then
          assert exists k :: 0 <= k < |deps| - 1 && Resolve(s, deps[1..][k]) == Err(rest.error) &&
                             forall i :: 0 <= i < k ==> Resolve(s, deps[1..][i]).Ok?;
          var k :| 0 <= k < |deps| - 1 && Resolve(s, deps[1..][k]) == Err(rest.error) &&
                   forall i :: 0 <= i < k ==> Resolve(s, deps[1..][i]).Ok?;
          assert Resolve(s, deps[k + 1]) == Err(rest.error);
          Err(rest.error)
        else
          Ok([x] + rest.value)
  }

  /** Resolving in state `t` gives what it gave in `s` for every name `s` had already built. */
  lemma ResolveAllStable(s: State, t: State, deps: seq<Name>)
    requires ResolveAll(s, deps).Ok?
    requires forall n :: Instance(s, n).Some? ==> Instance(t, n) == Instance(s, n)
    ensures ResolveAll(t, deps) == ResolveAll(s, deps)
  {
  }

  // ---------------------------------------------------------------------------------------
  // register and _enqueue
  // ---------------------------------------------------------------------------------------

  /** `this._modules[name].instance = new clazz(...args)`: a fresh id, wired to `args`. */
  function Construct(s: State, name: Name, clazz: ClassTag, args: seq<Id>): (t: State)
    requires s.modules.Some? && name in s.modules.value
    ensures Instance(t, name) == Some(s.nextId) && s.nextId in t.built
    ensures forall n :: n != name ==> Instance(t, n) == Instance(s, n)
    ensures t.modules.Some? && t.modules.value.Keys == s.modules.value.Keys && t.queue == s.queue
  {
    var m := s.modules.value;
    s.(modules := Some(m[name := m[name].(instance := Some(s.nextId))]),
       nextId := s.nextId + 1,
       built := s.built[s.nextId := Construction(clazz, args)])
  }

  /** What `Construct` changes: one fresh id for `name`, recorded with its arguments;
      nothing else. */
  lemma ConstructFacts(s: State, name: Name, clazz: ClassTag, args: seq<Id>)
    requires Valid(s) && s.modules.Some? && name in s.modules.value && Instance(s, name).None?
    ensures var t := Construct(s, name, clazz, args);
      Valid(t) && s.nextId !in s.built &&
      Instance(t, name) == Some(s.nextId) &&
      (forall n :: n != name ==> Instance(t, n) == Instance(s, n)) &&
      t.built == s.built[s.nextId := Construction(clazz, args)] &&
      t.nextId == s.nextId + 1 && t.queue == s.queue &&
      t.modules.Some? && t.modules.value.Keys == s.modules.value.Keys
  {
    var t := Construct(s, name, clazz, args);
    assert s.nextId !in s.built;
    assert forall n :: n != name ==> Instance(t, n) == Instance(s, n);
    assert Instance(t, name) == Some(s.nextId);
    assert forall x :: x in t.built ==> x < t.nextId;
    assert forall n :: Instance(t, n).Some? ==> Instance(t, n).value in t.built;
    forall n1, n2 | Instance(t, n1).Some? && Instance(t, n1) == Instance(t, n2)
      ensures n1 == n2
    {
      if n1 != name && n2 != name {
        assert Instance(s, n1) == Instance(s, n2);
      }
    }
  }

  /** `register(name, deps, clazz)`: buffers before bootstrap; afterwards rejects unknown names,
      ignores built ones, and otherwise builds the instance from the resolved dependencies. */
  function Register(s: State, name: Name, deps: seq<Name>, clazz: ClassTag): (r: (State, Outcome))
    ensures r.1.Fail? ==> r.0 == s
    ensures r.0.modules.Some? == s.modules.Some?
    ensures s.modules.Some? ==> r.0.queue == s.queue && r.0.modules.value.Keys == s.modules.value.Keys
    ensures forall n :: Instance(s, n).Some? ==> Instance(r.0, n) == Instance(s, n)
  {
    if s.modules.None? then (s.(queue := s.queue + [Pending(name, deps, clazz)]), Pass)
    else if name !in s.modules.value then (s, Fail(NotBootstrapped(name)))
    else if s.modules.value[name].instance.Some? then (s, Pass)
    else
      match ResolveAll(s, deps)
      case Err(e) => (s, Fail(e))
      case Ok(args) => (Construct(s, name, clazz, args), Pass)
  }

  /** Before bootstrap, `register` always succeeds and only appends the call to the queue. */
  lemma RegisterBuffers(s: State, name: Name, deps: seq<Name>, clazz: ClassTag)
    requires s.modules.None?
    ensures var (t, o) := Register(s, name, deps, clazz);
      o == Pass && t.queue == s.queue + [Pending(name, deps, clazz)] &&
      t.modules == s.modules && t.nextId == s.nextId && t.built == s.built
  {
  }

  /** After bootstrap, `register` of a name `_modules` does not hold fails and changes nothing. */
  lemma RegisterUnknownFails(s: State, name: Name, deps: seq<Name>, clazz: ClassTag)
    requires s.modules.Some? && name !in s.modules.value
    ensures Register(s, name, deps, clazz) == (s, Fail(NotBootstrapped(name)))
  {
  }

  /** After bootstrap, `register` of a name that already has an instance is a no-op. */
  lemma RegisterBuiltIsNoop(s: State, name: Name, deps: seq<Name>, clazz: ClassTag)
    requires Instance(s, name).Some?
    ensures Register(s, name, deps, clazz) == (s, Pass)
  {
  }

  /** After bootstrap, `register` of a declared, unbuilt name either builds exactly one fresh
      instance from `resolve(deps[i])` for each i, or fails with the first failing dependency's
      error and stores nothing. */
  lemma RegisterBuilds(s: State, name: Name, deps: seq<Name>, clazz: ClassTag)
    requires Valid(s)
    requires s.modules.Some? && name in s.modules.value && Instance(s, name).None?
    ensures var (t, o) := Register(s, name, deps, clazz);
      (o == Pass <==> forall i :: 0 <= i < |deps| ==> Resolve(s, deps[i]).Ok?) &&
      (o == Pass ==>
        s.nextId !in s.built &&
        Instance(t, name) == Some(s.nextId) &&
        t.built == s.built[s.nextId := Construction(clazz, t.built[s.nextId].args)] &&
        |t.built[s.nextId].args| == |deps| &&
        (forall i :: 0 <= i < |deps| ==> Resolve(s, deps[i]) == Ok(t.built[s.nextId].args[i])) &&
        (forall n :: n != name ==> Instance(t, n) == Instance(s, n)) &&
        t.queue == s.queue) &&
      (o.Fail? ==>
        t == s &&
        exists k :: 0 <= k < |deps| && Resolve(s, deps[k]) == Err(o.error) &&
                    forall i :: 0 <= i < k ==> Resolve(s, deps[i]).Ok?)
  {
  }

  /** `register` never removes or replaces a stored instance or a recorded construction,
      and keeps the container valid. */
  lemma RegisterPreserves(s: State, name: Name, deps: seq<Name>, clazz: ClassTag)
    requires Valid(s)
    ensures var (t, o) := Register(s, name, deps, clazz);
      Valid(t) &&
      (forall n :: Instance(s, n).Some? ==> Instance(t, n) == Instance(s, n)) &&
      (forall x :: x in s.built ==> x in t.built && t.built[x] == s.built[x]) &&
      t.modules.Some? == s.modules.Some? &&
      (s.modules.Some? ==> t.queue == s.queue && t.modules.value.Keys == s.modules.value.Keys)
  {
    if s.modules.Some? && name in s.modules.value && Instance(s, name).None? && ResolveAll(s, deps).Ok? {
      ConstructFacts(s, name, clazz, ResolveAll(s, deps).value);
    }
  }

  /** Registering the same name twice after bootstrap: once the first call has succeeded,
      the second changes nothing, whatever its dependencies and class. */
  lemma RegisterIdempotent(s: State, name: Name, deps: seq<Name>, clazz: ClassTag,
                            deps2: seq<Name>, clazz2: ClassTag)
    requires s.modules.Some?
    requires Register(s, name, deps, clazz).1 == Pass
    ensures var t := Register(s, name, deps, clazz).0;
      Register(t, name, deps2, clazz2) == (t, Pass) &&
      Resolve(t, name).Ok? && (Instance(s, name).Some? ==> Resolve(t, name) == Resolve(s, name))
  {
  }

  // ---------------------------------------------------------------------------------------
  // bootstrap and _dequeue
  // ---------------------------------------------------------------------------------------

  /** The names occurring in a queue. */
  function Names(q: seq<Pending>): set<Name>
    decreases |q|
  {
    if q == [] then {} else Names(q[..|q| - 1]) + {q[|q| - 1].name}
  }

  lemma NamesPrefix(q: seq<Pending>, i: nat)
    requires i < |q|
    ensures Names(q[..i + 1]) == Names(q[..i]) + {q[i].name}
  {
    assert q[..i + 1][..i] == q[..i];
  }

  /** A name is in `Names(q)` exactly when some tuple of `q` carries it. */
  lemma {:induction false} NamesHas(q: seq<Pending>, n: Name)
    ensures n in Names(q) <==> exists j :: 0 <= j < |q| && q[j].name == n
    decreases |q|
  {
    if q != [] {
      var q' := q[..|q| - 1];
      NamesHas(q', n);
      if n in Names(q') {
        var j :| 0 <= j < |q'| && q'[j].name == n;
        assert q[j].name == n;
      }
      if exists j :: 0 <= j < |q| && q[j].name == n {
        var j :| 0 <= j < |q| && q[j].name == n;
        if j < |q| - 1 {
          assert q'[j].name == n;
        }
      }
    }
  }

  /** The first pass of `_dequeue`: `this._modules[name] = { dependencies, reference }` for every
      queued tuple, in order, so a later tuple for the same name overwrites an earlier one. */
  function Assign(m: map<Name, Module>, q: seq<Pending>): (r: map<Name, Module>)
    ensures r.Keys == m.Keys + Names(q)
    decreases |q|
  {
    if q == [] then m
    else
      var p := q[|q| - 1];
      Assign(m, q[..|q| - 1])[p.name := Module(p.reference, p.dependencies, None)]
  }

  /** The first pass declares exactly the queued names, each with no instance, and leaves
      every other entry as it was. */
  lemma {:induction false} AssignDeclares(m: map<Name, Module>, q: seq<Pending>)
    ensures forall n :: n in Assign(m, q) <==> n in m || n in Names(q)
    ensures forall n :: n in Names(q) ==> Assign(m, q)[n].instance == None
    ensures forall n :: n in m && n !in Names(q) ==> Assign(m, q)[n] == m[n]
    decreases |q|
  {
    if q != [] {
      AssignDeclares(m, q[..|q| - 1]);
      NamesPrefix(q, |q| - 1);
      assert q[..|q|] == q;
    }
  }

  /** The entry the first pass leaves for a queued name holds the reference and dependencies
      of the LAST tuple queued for that name. */
  lemma {:induction false} AssignKeepsLast(m: map<Name, Module>, q: seq<Pending>, j: nat)
    requires j < |q|
    requires forall l :: j < l < |q| ==> q[l].name != q[j].name
    ensures q[j].name in Assign(m, q)
    ensures Assign(m, q)[q[j].name] == Module(q[j].reference, q[j].dependencies, None)
    decreases |q|
  {
    if j < |q| - 1 {
      var q' := q[..|q| - 1];
      assert q'[j] == q[j];
      AssignKeepsLast(m, q', j);
    }
  }

  /** The second pass of `_dequeue` from index `i`: `register` each queued tuple with its own
      arguments, stopping at the first one that throws. */
  function Drain(s: State, q: seq<Pending>, i: nat): (r: (State, Outcome))
    requires i <= |q|
    ensures s.modules.Some? ==>
              r.0.modules.Some? && r.0.modules.value.Keys == s.modules.value.Keys && r.0.queue == s.queue
    decreases |q| - i
  {
    if i == |q| then (s, Pass)
    else
      var r := Register(s, q[i].name, q[i].dependencies, q[i].reference);
      if r.1.Fail? then r else Drain(r.0, q, i + 1)
  }

  /** `_dequeue()`: assign every queued tuple, register every queued tuple, then clear the queue;
      a throwing `register` leaves before the queue is cleared. */
  function Dequeue(s: State): (r: (State, Outcome))
    requires s.modules.Some?
    ensures r.0.modules.Some? && r.0.modules.value.Keys == s.modules.value.Keys + Names(s.queue)
    ensures r.1 == Pass ==> r.0.queue == []
    ensures r.1.Fail? ==> r.0.queue == s.queue
  {
    var s1 := s.(modules := Some(Assign(s.modules.value, s.queue)));
    var (t, o) := Drain(s1, s.queue, 0);
    if o.Fail? then (t, o) else (t.(queue := []), Pass)
  }

  /** The `bootstrap` setter: `_modules = {}` (whatever it was before), then `_dequeue()`. */
  function Bootstrap(s: State): (r: (State, Outcome))
    ensures r.0.modules.Some? && r.0.modules.value.Keys == Names(s.queue)
    ensures r.1 == Pass ==> r.0.queue == []
    ensures r.1.Fail? ==> r.0.queue == s.queue
  {
    Dequeue(s.(modules := Some(map[])))
  }

  /** Queue position `i` holds the first tuple for its name. */
  predicate FirstOccurrence(q: seq<Pending>, i: nat)
    requires i < |q|
  {
    q[i].name !in Names(q[..i])
  }

  /** Every dependency of tuple `i` names a tuple queued before it. */
  predicate DeclaredBefore(q: seq<Pending>, i: nat)
    requires i < |q|
  {
    forall d :: d in q[i].dependencies ==> d in Names(q[..i])
  }

  /** Tuple `i` is the one that makes the registration pass throw, if it is reached. */
  predicate Violation(q: seq<Pending>, i: nat)
    requires i < |q|
  {
    FirstOccurrence(q, i) && !DeclaredBefore(q, i)
  }

  /** The buffering order the registration pass needs. */
  predicate Ordered(q: seq<Pending>)
  {
    forall i :: 0 <= i < |q| ==> !Violation(q, i)
  }

  /** The first violating position at or after `i`, or `|q|` if there is none. */
  function FirstViolation(q: seq<Pending>, i: nat): (k: nat)
    requires i <= |q|
    ensures i <= k <= |q|
    ensures k < |q| ==> Violation(q, k)
    ensures forall j :: i <= j < k ==> !Violation(q, j)
    decreases |q| - i
  {
    if i == |q| then |q|
    else if Violation(q, i) then i
    else FirstViolation(q, i + 1)
  }

  /** The position of the first dependency not in `known`, or `|deps|` if there is none. */
  function FirstMissing(deps: seq<Name>, known: set<Name>): (k: nat)
    ensures k <= |deps|
    ensures k < |deps| ==> deps[k] !in known
    ensures forall j :: 0 <= j < k ==> deps[j] in known
    decreases |deps|
  {
    if deps == [] then 0
    else if deps[0] !in known then 0
    else 1 + FirstMissing(deps[1..], known)
  }

  /** The dependency whose `resolve` throws when violating tuple `k` is registered. */
  function MissingDep(q: seq<Pending>, k: nat): Name
    requires k < |q| && Violation(q, k)
  {
    var deps := q[k].dependencies;
    var j := FirstMissing(deps, Names(q[..k]));
    if j < |deps| then deps[j] else assert false; ""
  }

  /** The instance for `p.name` was built by `p`'s class from exactly the instances that
      `resolve` now returns for `p`'s dependencies. */
  ghost predicate WiredAs(s: State, p: Pending)
  {
    Instance(s, p.name).Some? && Instance(s, p.name).value in s.built &&
    ResolveAll(s, p.dependencies).Ok? &&
    s.built[Instance(s, p.name).value] == Construction(p.reference, ResolveAll(s, p.dependencies).value)
  }

  /** The state of the registration pass after the tuples before position `i`: every queued
      name is declared, exactly the names queued before `i` are built, and each of them was
      built by the first tuple for it. */
  ghost predicate Drained(s: State, q: seq<Pending>, i: nat)
    requires i <= |q|
  {
    s.modules.Some? &&
    (forall n :: n in s.modules.value <==> n in Names(q)) &&
    (forall n :: Instance(s, n).Some? <==> n in Names(q[..i])) &&
    (forall j :: 0 <= j < i && FirstOccurrence(q, j) ==> WiredAs(s, q[j]))
  }

  /** A wiring fact survives any step that keeps every stored instance and every recorded
      construction. */
  lemma WiredAsStable(s: State, t: State, p: Pending)
    requires WiredAs(s, p)
    requires forall n :: Instance(s, n).Some? ==> Instance(t, n) == Instance(s, n)
    requires forall x :: x in s.built ==> x in t.built && t.built[x] == s.built[x]
    ensures WiredAs(t, p)
  {
  }

  /** One step of the registration pass at a tuple repeating an earlier name is a no-op. */
  lemma DrainStepSkips(s: State, q: seq<Pending>, i: nat)
    requires i < |q| && Drained(s, q, i) && !FirstOccurrence(q, i)
    ensures Register(s, q[i].name, q[i].dependencies, q[i].reference) == (s, Pass)
    ensures Drained(s, q, i + 1)
  {
    NamesPrefix(q, i);
    assert Instance(s, q[i].name).Some?;
    assert Register(s, q[i].name, q[i].dependencies, q[i].reference) == (s, Pass);
    assert s.modules.Some?;
    assert (forall n :: n in s.modules.value <==> n in Names(q));
    assert (forall n :: Instance(s, n).Some? <==> n in Names(q[..i+1]));
    assert (forall j :: 0 <= j < i + 1 && FirstOccurrence(q, j) ==> WiredAs(s, q[j]));
  }

  /** `register` of a declared, unbuilt name whose dependencies all resolve constructs it. */
  lemma RegisterConstructs(s: State, p: Pending)
    requires s.modules.Some? && p.name in s.modules.value && Instance(s, p.name).None?
    requires ResolveAll(s, p.dependencies).Ok?
    ensures Register(s, p.name, p.dependencies, p.reference) ==
              (Construct(s, p.name, p.reference, ResolveAll(s, p.dependencies).value), Pass)
  {
  }

  /** The registration-pass invariant advances past a first tuple once it is built and
      nothing else has changed. */
  lemma DrainedAfterBuild(s: State, t: State, q: seq<Pending>, i: nat)
    requires i < |q| && Drained(s, q, i) && FirstOccurrence(q, i)
    requires t.modules.Some? && t.modules.value.Keys == s.modules.value.Keys
    requires Instance(t, q[i].name).Some?
    requires forall n :: n != q[i].name ==> Instance(t, n) == Instance(s, n)
    requires forall x :: x in s.built ==> x in t.built && t.built[x] == s.built[x]
    requires WiredAs(t, q[i])
    ensures Drained(t, q, i + 1)
  {
    NamesPrefix(q, i);
    forall j | 0 <= j < i && FirstOccurrence(q, j)
      ensures WiredAs(t, q[j])
    {
      WiredAsStable(s, t, q[j]);
    }
  }

  /** One step of the registration pass at the first tuple for a name, whose dependencies
      are all queued before it, builds that name from its dependencies' instances. */
  lemma DrainStepBuilds(s: State, q: seq<Pending>, i: nat)
    requires Valid(s) && i < |q| && Drained(s, q, i) && FirstOccurrence(q, i) && DeclaredBefore(q, i)
    ensures var r := Register(s, q[i].name, q[i].dependencies, q[i].reference);
      r.1 == Pass && Valid(r.0) && Drained(r.0, q, i + 1) && r.0.queue == s.queue
  {
    var p := q[i];
    NamesHas(q, p.name);
    assert p.name in Names(q);
    assert Instance(s, p.name).None?;
    forall j | 0 <= j < |p.dependencies|
      ensures Resolve(s, p.dependencies[j]).Ok?
    {
      assert p.dependencies[j] in p.dependencies;
    }
    var args := ResolveAll(s, p.dependencies).value;
    RegisterConstructs(s, p);
    ConstructFacts(s, p.name, p.reference, args);
    var t := Construct(s, p.name, p.reference, args);
    ResolveAllStable(s, t, p.dependencies);
    assert WiredAs(t, p);
    DrainedAfterBuild(s, t, q, i);
  }

  /** One step of the registration pass at a violating tuple throws for its first
      dependency not queued before it, and changes nothing. */
  lemma DrainStepFails(s: State, q: seq<Pending>, i: nat)
    requires Valid(s) && i < |q| && Drained(s, q, i) && Violation(q, i)
    ensures Register(s, q[i].name, q[i].dependencies, q[i].reference) == (s, Fail(NotBootstrapped(MissingDep(q, i))))
  {
    var p := q[i];
    var deps := p.dependencies;
    var known := Names(q[..i]);
    NamesHas(q, p.name);
    assert p.name in Names(q);
    assert Instance(s, p.name).None?;
    var f := FirstMissing(deps, known);
    assert f < |deps|;
    assert Resolve(s, deps[f]).Err?;
    RegisterBuilds(s, p.name, deps, p.reference);
    var (t, o) := Register(s, p.name, deps, p.reference);
    var k :| 0 <= k < |deps| && Resolve(s, deps[k]) == Err(o.error) &&
             forall l :: 0 <= l < k ==> Resolve(s, deps[l]).Ok?;
    assert k == f;
  }

  /** The registration pass from position `i` runs up to the first violating tuple: it succeeds
      when there is none, and otherwise throws there with everything before it built. */
  lemma {:induction false} DrainRuns(s: State, q: seq<Pending>, i: nat)
    requires Valid(s) && i <= |q| && Drained(s, q, i)
    ensures var k := FirstViolation(q, i); var r := Drain(s, q, i);
      Valid(r.0) && r.0.queue == s.queue && Drained(r.0, q, k) &&
      (r.1 == Pass <==> k == |q|) &&
      (k < |q| ==> r.1 == Fail(NotBootstrapped(MissingDep(q, k))))
    decreases |q| - i
  {
    if i == |q| {
      assert Drain(s, q, i) == (s, Pass);
    } else if Violation(q, i) {
      DrainStepFails(s, q, i);
      assert FirstViolation(q, i) == i;
      assert Drain(s, q, i) == (s, Fail(NotBootstrapped(MissingDep(q, i))));
    } else {
      if FirstOccurrence(q, i) {
        DrainStepBuilds(s, q, i);
      } else {
        DrainStepSkips(s, q, i);
      }
      var t := Register(s, q[i].name, q[i].dependencies, q[i].reference).0;
      var k := FirstViolation(q, i + 1);
      assert Drain(s, q, i) == Drain(t, q, i + 1);
      assert FirstViolation(q, i) == k;
      DrainRuns(t, q, i + 1);
    }
  }

  /** The state the first pass of `bootstrap` leaves: every queued name declared, none built. */
  lemma BootstrapAssigns(s: State)
    requires Valid(s)
    ensures var s1 := s.(modules := Some(Assign(map[], s.queue)));
      Valid(s1) && Drained(s1, s.queue, 0) &&
      forall n :: n in Names(s.queue) ==> n in s1.modules.value && s1.modules.value[n].instance == None
  {
    var s1 := s.(modules := Some(Assign(map[], s.queue)));
    AssignDeclares(map[], s.queue);
    assert s.queue[..0] == [];
    assert forall n :: Instance(s1, n) == None;
  }

  /** `bootstrap` with a correctly ordered queue succeeds: every queued name is built, by its
      first tuple's class from exactly the instances `resolve` returns for that tuple's
      dependencies, no other name is declared, and the queue is cleared. */
  lemma BootstrapSucceeds(s: State)
    requires Valid(s) && Ordered(s.queue)
    ensures var (t, o) := Bootstrap(s);
      o == Pass && Valid(t) && t.queue == [] && t.modules.Some? &&
      (forall n :: n in t.modules.value <==> n in Names(s.queue)) &&
      (forall n :: n in Names(s.queue) ==> Resolve(t, n).Ok?) &&
      (forall j :: 0 <= j < |s.queue| && FirstOccurrence(s.queue, j) ==> WiredAs(t, s.queue[j]))
  {
    var q := s.queue;
    var s1 := s.(modules := Some(map[])).(modules := Some(Assign(map[], q)));
    BootstrapAssigns(s);
    DrainRuns(s1, q, 0);
    assert q[..|q|] == q;
    var (t, o) := Drain(s1, q, 0);
    assert FirstViolation(q, 0) == |q|;
    forall n | n in Names(q)
      ensures Resolve(t, n).Ok?
    {
      assert Instance(t, n).Some?;
    }
    assert forall n :: Instance(t.(queue := []), n) == Instance(t, n);
    assert forall j :: 0 <= j < |q| && FirstOccurrence(q, j) ==> WiredAs(t.(queue := []), q[j]) by {
      forall j | 0 <= j < |q| && FirstOccurrence(q, j)
        ensures WiredAs(t.(queue := []), q[j])
      {
        assert WiredAs(t, q[j]);
        ResolveAllStable(t, t.(queue := []), q[j].dependencies);
      }
    }
  }

  /** `bootstrap` with a misordered queue throws at the first violating tuple, for its first
      dependency not queued before it; the queue stays, `_modules` stays present, and exactly
      the names queued before that tuple are built. */
  lemma BootstrapFails(s: State)
    requires Valid(s) && !Ordered(s.queue)
    ensures var q := s.queue; var k := FirstViolation(q, 0); var (t, o) := Bootstrap(s);
      k < |q| &&
      o == Fail(NotBootstrapped(MissingDep(q, k))) && Valid(t) &&
      t.queue == q && t.modules.Some? &&
      (forall n :: n in t.modules.value <==> n in Names(q)) &&
      (forall n :: Resolve(t, n).Ok? <==> n in Names(q[..k]))
  {
    var q := s.queue;
    var s1 := s.(modules := Some(map[])).(modules := Some(Assign(map[], q)));
    BootstrapAssigns(s);
    DrainRuns(s1, q, 0);
    var i :| 0 <= i < |q| && Violation(q, i);
    assert FirstViolation(q, 0) < |q|;
  }

  /** `bootstrap` succeeds exactly when the queue is correctly ordered. */
  lemma BootstrapSucceedsIffOrdered(s: State)
    requires Valid(s)
    ensures Bootstrap(s).1 == Pass <==> Ordered(s.queue)
  {
    if Ordered(s.queue) {
      BootstrapSucceeds(s);
    } else {
      BootstrapFails(s);
    }
  }

  /** The setter does not guard against a second call: bootstrapping again after a successful
      bootstrap (which emptied the queue) forgets every entry, so every `resolve` then fails. */
  lemma BootstrapAgainForgets(s: State)
    requires Valid(s) && Ordered(s.queue)
    ensures var t := Bootstrap(s).0; var (u, o) := Bootstrap(t);
      o == Pass && u.modules == Some(map[]) &&
      forall n :: Resolve(u, n) == Err(NotBootstrapped(n))
  {
    BootstrapSucceeds(s);
  }
}
