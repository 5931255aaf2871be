# IoC container model

A Dafny model of the inversion-of-control container in `src/IoCContainer.ts`, with proofs about it.
The container is a single registry object. Before `bootstrap` it buffers `register(name, deps, clazz)` calls in `_queue`.
The `bootstrap` setter creates `_modules`, declares every queued name, and then registers every queued tuple in queue order.
Registering a tuple builds one singleton instance per name from the instances that `resolve` returns for its dependencies.
`resolve(name)` returns that singleton, or throws "No modules defined." or "\"name\" has not been bootstrapped.".

The project has three modules:

- `IoCModel` (model.dfy) holds the state as a value (`State`: `_modules` as an `Option` of a map, `_queue` as a sequence, plus a counter and a record of constructions). Every operation is a function over it. The lemmas state what the source promises about those functions.
- `Container` (container.dfy) holds the class `IoCContainer`. Its fields are updated in place, like the TypeScript object's. Its methods use the same loops as `_getDepsOfClass` and `_dequeue`. Each method except `Enqueue` is proved to do exactly what the matching `IoCModel` function does to the abstract state `Abs()`. `_enqueue` has no function of its own in `IoCModel`: it is the buffering branch of `IoCModel.Register`, and `Enqueue` states its effect on the queue directly.
- `Demo` (demo.dfy) builds the wiring of `index.ts` and the three `@Register` decorators as explicit calls. It also holds small clients that show the container's error cases.

Component constructors are opaque class tags (`ClassTag`).
`new clazz(...args)` is modelled as taking the next fresh id from `nextId`.
The ghost map `built` records, for each id, the class and the argument instances it was built from.
This is what lets the model say that an instance was wired to exactly these other instances.

Behaviour of the code that is easy to misread:

- A failing bootstrap does not clear `_queue`. The exception leaves `_dequeue` before `this._queue = []`.
- The setter does not guard against a second call. It resets `_modules` to `{}` and drains whatever is queued. After a successful bootstrap this forgets every entry (`BootstrapAgainForgets`). No `requires` forbids this.
- `register` builds from its own `deps` and `clazz` arguments, not from the stored entry. When one name is queued twice, its first tuple builds the instance. The entry keeps the last tuple's reference and dependencies (`AssignKeepsLast`). The later tuple's registration is a no-op.

Bootstrap succeeds exactly when the queue is `Ordered`: at each position that holds the first tuple for its name, every dependency names a tuple queued earlier.
Otherwise bootstrap throws at the first position where this fails (`FirstViolation`).
The error names the first dependency of that tuple that was not queued earlier (`MissingDep`).

## Model

| member | source | states |
|---|---|---|
| `IoCModel.Initial` | src/IoCContainer.ts:41-45 | reference definition of the container the private constructor leaves: valid, no map, empty queue, nothing built, so every resolve fails with NoModulesDefined |
| `IoCModel.Resolve` | src/IoCContainer.ts:94-101 | fails with NoModulesDefined before bootstrap; afterwards succeeds exactly when the name has a stored instance, returns that instance, and otherwise fails with NotBootstrapped(name) |
| `IoCModel.ResolveAll` | src/IoCContainer.ts:87-89 | succeeds exactly when every dependency resolves, with one instance per dependency in the order they are listed; otherwise yields the error of the first dependency that fails |
| `IoCModel.Construct` | src/IoCContainer.ts:80-81 | reference definition of `this._modules[name].instance = new clazz(...args)`: the name gets the next fresh id and no other name's instance, the declared names or the queue change; its full effect is stated by `ConstructFacts` |
| `IoCModel.ConstructFacts` | src/IoCContainer.ts:80-81 | building an instance takes an id never used before, stores it for that name only, records its class and arguments, and keeps the container valid |
| `IoCModel.Register` | src/IoCContainer.ts:71-82 | reference definition of `register`: a failure changes nothing, the mode never changes, after bootstrap the queue and the declared names are kept, and no stored instance is replaced; its four branches are stated by `RegisterBuffers`, `RegisterUnknownFails`, `RegisterBuiltIsNoop` and `RegisterBuilds` |
| `IoCModel.RegisterBuffers` | src/IoCContainer.ts:71-73 | before bootstrap, register always succeeds, appends (name, deps, clazz) to the end of the queue and changes nothing else; nothing is instantiated |
| `IoCModel.RegisterUnknownFails` | src/IoCContainer.ts:74-75 | after bootstrap, registering a name the map does not hold fails with NotBootstrapped(name) and creates no entry |
| `IoCModel.RegisterBuiltIsNoop` | src/IoCContainer.ts:76-77 | registering a name that already has an instance succeeds and changes nothing |
| `IoCModel.RegisterBuilds` | src/IoCContainer.ts:79-81 | for a declared, unbuilt name: succeeds exactly when every dependency resolves; then one fresh instance is stored for that name only, built by clazz from resolve(deps[i]) for each i in order; otherwise it fails with the first failing dependency's error and the state is unchanged |
| `IoCModel.RegisterPreserves` | src/IoCContainer.ts:71-82 | register never replaces a stored instance or a recorded construction, never changes the mode or the declared names after bootstrap, and keeps the container valid |
| `IoCModel.RegisterIdempotent` | src/IoCContainer.ts:76-77 | after a successful register following bootstrap, registering the name again is a no-op, and resolve returns the same instance as before |
| `IoCModel.Assign` | src/IoCContainer.ts:119-129 | reference definition of the assignment pass of `_dequeue`: the keys afterwards are the old keys plus the queued names; its entries are stated by `AssignDeclares` and `AssignKeepsLast` |
| `IoCModel.AssignDeclares` | src/IoCContainer.ts:119-129 | the assignment pass declares exactly the queued names, each without an instance, and leaves every other entry unchanged |
| `IoCModel.AssignKeepsLast` | src/IoCContainer.ts:121-127 | the entry left for a queued name holds the reference and dependencies of the last tuple queued for it |
| `IoCModel.FirstViolation` | src/IoCContainer.ts:131-137 | the first queue position, at or after i, whose first-occurrence tuple depends on a name not queued before it (or the queue length if there is none) |
| `IoCModel.FirstMissing` | src/IoCContainer.ts:88 | the position of the first dependency outside a given set of names (or the length if there is none) |
| `IoCModel.Drain` | src/IoCContainer.ts:131-137 | reference definition of the registration pass of `_dequeue` from a given position: after bootstrap it keeps the map present, the declared names and the queue; its outcome is stated by `DrainRuns` |
| `IoCModel.Dequeue` | src/IoCContainer.ts:118-140 | reference definition of `_dequeue`: the map stays present with the queued names added, the queue is emptied on success and kept on failure; its outcome is stated by `DrainRuns`, `BootstrapSucceeds` and `BootstrapFails` |
| `IoCModel.Bootstrap` | src/IoCContainer.ts:62-65 | reference definition of the `bootstrap` setter: afterwards the map holds exactly the queued names, the queue is emptied on success and kept on failure; its outcome is stated by `BootstrapSucceeds`, `BootstrapFails` and `BootstrapSucceedsIffOrdered` |
| `IoCModel.DrainStepSkips` | src/IoCContainer.ts:132-135 | in the registration pass, a tuple repeating an earlier name changes nothing |
| `IoCModel.DrainStepBuilds` | src/IoCContainer.ts:132-135 | in the registration pass, the first tuple for a name whose dependencies were all queued before it is built from its dependencies' instances |
| `IoCModel.DrainStepFails` | src/IoCContainer.ts:132-135 | in the registration pass, a violating tuple throws NotBootstrapped for its first dependency not queued before it, and changes nothing |
| `IoCModel.DrainRuns` | src/IoCContainer.ts:131-137 | the registration pass runs in queue order up to the first violating tuple; it succeeds exactly when there is none; otherwise it throws that tuple's missing-dependency error, with exactly the names queued before it built |
| `IoCModel.BootstrapAssigns` | src/IoCContainer.ts:62-64 | bootstrap starts from an empty map, and its assignment pass declares every queued name with no instance before any registration runs |
| `IoCModel.BootstrapSucceeds` | src/IoCContainer.ts:118-140 | with a correctly ordered queue, bootstrap succeeds and empties the queue; exactly the queued names are declared and every one resolves; each was built by its first tuple's class from exactly the instances resolve now returns for that tuple's dependencies |
| `IoCModel.BootstrapFails` | src/IoCContainer.ts:131-139 | with a misordered queue, bootstrap throws NotBootstrapped at the first violating tuple; the queue is not cleared, the map stays present with every queued name declared, and exactly the names queued before that tuple resolve |
| `IoCModel.BootstrapSucceedsIffOrdered` | src/IoCContainer.ts:131-139 | bootstrap succeeds if and only if the queue is correctly ordered |
| `IoCModel.BootstrapAgainForgets` | src/IoCContainer.ts:62-64 | a second bootstrap after a successful one succeeds but resets the map to empty, so every resolve then fails with NotBootstrapped |
| `Container.IoCContainer.constructor` | src/IoCContainer.ts:38-45 | a new container is in buffering mode (no map), with an empty queue and nothing built |
| `Container.IoCContainer.Resolve` | src/IoCContainer.ts:94-101 | returns exactly what the model's resolve gives for the current state, case by case, and changes nothing |
| `Container.IoCContainer.GetDepsOfClass` | src/IoCContainer.ts:87-89 | its loop resolves the dependencies in order, stops at the first failure, and returns exactly the model's ResolveAll |
| `Container.IoCContainer.Enqueue` | src/IoCContainer.ts:106-113 | appends (name, deps, clazz) to the end of the queue and touches nothing else |
| `Container.IoCContainer.Register` | src/IoCContainer.ts:71-82 | updates the fields exactly as the model's register does; before bootstrap only the queue grows; a failure changes nothing; no stored instance is ever replaced |
| `Container.IoCContainer.AssignQueued` | src/IoCContainer.ts:119-129 | its loop writes one entry per queued tuple in queue order, leaving exactly the model's Assign of the queue, and keeps the container valid |
| `Container.IoCContainer.RegisterQueued` | src/IoCContainer.ts:131-137 | its loop registers the queued tuples in order and stops at the first that throws, exactly as the model's Drain does, keeping the container valid |
| `Container.IoCContainer.Dequeue` | src/IoCContainer.ts:118-140 | runs the assignment pass and then the registration pass, and clears the queue only if no register threw, exactly as the model's Dequeue does; the container stays valid |
| `Container.IoCContainer.Bootstrap` | src/IoCContainer.ts:62-65 | activates the container; succeeds exactly when the queue is ordered, and then empties the queue with every queued name built and wired; on failure it keeps the queue, reports the first violation's missing dependency, and only names queued before it are built |
| `Demo.IndexQueueOrdered` | index.ts:1-4 | the queue that the decorators of ServiceA, ServiceB and DoThing leave, in import order, is correctly ordered |
| `Demo.ServicesQueueOrdered` | src/services/ServiceB.ts:8 | the queue of ServiceA followed by ServiceB (which depends on it) is correctly ordered |
| `Demo.IndexWired` | src/modules/DoThing.ts:9 | once the three tuples of index.ts are wired, ServiceA was built from nothing, ServiceB from the ServiceA singleton and DoThing from both singletons, as three distinct instances |
| `Demo.IndexBootstrap` | index.ts:9-13 | bootstrapping that queue builds ServiceA from nothing, ServiceB from the ServiceA singleton, and DoThing from the ServiceA and ServiceB singletons, as three distinct instances |
| `Demo.IndexWiring` | index.ts:9-18 | the same, through the container object: after registering, bootstrapping and resolving 'IDoThing', the returned ids are exactly what resolve returns for 'IServiceA', 'IServiceB' and 'IDoThing', and DoThing's instance was built from exactly the first two, ServiceB's from the first |
| `Demo.SingletonAfterBootstrap` | src/IoCContainer.ts:76-77 | two resolve calls return the same instance, and registering the built name again succeeds without change |
| `Demo.MisorderedBootstrap` | src/IoCContainer.ts:97-98 | with ServiceB queued before ServiceA, bootstrap throws NotBootstrapped('IServiceA'); neither 'IServiceA' nor 'IServiceB' resolves afterwards, and the queue is still exactly [ServiceB, ServiceA] |
| `Demo.ResolveBeforeBootstrap` | src/IoCContainer.ts:95-96 | resolve before bootstrap fails with NoModulesDefined, even for a registered name |
| `Demo.UnknownAfterBootstrap` | src/IoCContainer.ts:74-75 | after bootstrapping ServiceA and ServiceB, a name never registered neither resolves nor can be registered late |

## Left out

- The `Register` decorator and module loading order (src/IoCContainer.ts:24-31). Each decorator becomes an explicit `Register` call, made in the order `index.ts` imports the classes.
- The static singleton and its guard in the private constructor (src/IoCContainer.ts:37-45, 50-52). These rely on static-field initialisation in JavaScript. The model has one container object per `new IoCContainer()`, so the "singleton already exists" error is not modelled.
- The `Bootstrap` payload (`services`, `modules`). The setter ignores it, so `Bootstrap()` takes no argument.
- Lookup through the prototype of the `{}` map. A name such as `toString` or `__proto__` would find an inherited property in the source. The model's map holds only the names that were assigned.
- What constructors do. `new clazz(...)` is a fresh id with its class and arguments recorded. A constructor that throws, or that calls back into the container, is not modelled. The instance is always truthy, as any object is.
- Aliasing of the `deps` array. `_enqueue` (src/IoCContainer.ts:109) stores the caller's array itself, and the assignment pass (line 125) stores that same array in `_modules`. A caller that mutates its array after `register` and before `bootstrap` changes what the registration pass resolves. The model keeps a value copy of the list.
- The `console.log` bodies of `doServiceA`, `doServiceB` and `doThing`. They are output only.
- The default `deps = []` of `register` and `Register`. Callers in the model always pass the dependency list.
- `any` typing and generics. `resolve<T>` returns an instance id.
