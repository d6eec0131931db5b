/**
 * The Mesos cluster location. `Obtain` hands a request to the first framework
 * of the cluster that can provision the caller's entity and records which
 * framework holds the new task; `Release` finds the one framework holding a
 * task and forgets the pair. `Register` and `Deregister` publish the location
 * under its configured name in the management context's location registry and
 * keep the id of that definition.
 */
module MesosLocations {
  import opened Wrappers
  import opened Sequences

  /**
   * A member of the cluster's framework group as `obtain` sees it: its id,
   * whether it owns a dynamic location, and whether that location can
   * provision machines.
   */
  datatype Framework = Framework(id: string, ownsLocation: bool, provisioning: bool)

  /** The caller-context flag: absent, an entity (by id), or some other object. */
  datatype CallerContext = NoContext | EntityContext(entityId: string) | OtherContext

  /** A definition in the location registry: its id, its name and the cluster location it resolves to. */
  datatype LocationDefinition = LocationDefinition(id: string, name: string, clusterId: string)

  /** The exceptions the location's operations throw. */
  datatype LocationFailure =
    | InvalidContext          // IllegalStateException: a context that is not an entity
    | NoMachinesAvailable     // NoMachinesAvailableException: no framework can take the entity
    | NotAllocated            // IllegalArgumentException: no framework holds the task
    | NotUnique               // IllegalArgumentException from getOnlyElement: several frameworks hold it
    | MissingLocationName     // NullPointerException: no location name configured
    | AlreadyDefined(name: string)  // IllegalStateException: the name is already registered

  /** A task obtained from a framework: the task's id and the framework it runs on. */
  datatype Task = Task(id: string, framework: string)

  /** One entry of the `tasks` multimap: a framework and a task id it holds. */
  datatype Mapping = Mapping(framework: string, taskId: string)

  /** The outcome of `obtain` or `release`: what it returns or throws, and the new `tasks` multimap. */
  datatype TaskOutcome<T> = TaskOutcome(result: Result<T, LocationFailure>, tasks: set<Mapping>)

  /** The registration-related state: the location's registration id and the registry's definitions by id. */
  datatype Registration = Registration(registrationId: Option<string>, definitions: map<string, LocationDefinition>)

  /** The outcome of `register`: the definition or the failure, and the new registration state. */
  datatype RegisterOutcome = RegisterOutcome(result: Result<LocationDefinition, LocationFailure>, state: Registration)

  // ---------------------------------------------------------------------------
  // Specification
  // ---------------------------------------------------------------------------

  /** The entity passed to the frameworks' `isSupported`: Java `null` when there is no context. */
  function ContextEntity(context: CallerContext): Option<string>
  {
    match context
    case EntityContext(id) => Some(id)
    case _ => None
  }

  /** Whether a framework can take the entity: it owns a provisioning location that supports the entity. */
  function CanProvision(supports: (Framework, Option<string>) -> bool, entity: Option<string>): Framework -> bool
  {
    (f: Framework) => f.ownsLocation && f.provisioning && supports(f, entity)
  }

  /** The frameworks holding `taskId` in the multimap. */
  function Holders(tasks: set<Mapping>, taskId: string): (r: set<string>)
    ensures forall f :: f in r <==> Mapping(f, taskId) in tasks
  {
    set m | m in tasks && m.taskId == taskId :: m.framework
  }

  /**
   * What `obtain` does: a context that is not an entity is refused; otherwise
   * the first framework, in member order, that can take the entity provisions
   * the task (whose id the framework chooses, `newTaskId` here) and the pair is
   * recorded; with no such framework nothing is available and nothing changes.
   */
  function Obtained(tasks: set<Mapping>, context: CallerContext, frameworks: seq<Framework>,
                    supports: (Framework, Option<string>) -> bool, newTaskId: string): (r: TaskOutcome<Task>)
    ensures context.OtherContext? ==> r == TaskOutcome(Failure(InvalidContext), tasks)
    ensures r.result == Failure(NoMachinesAvailable) <==>
              !context.OtherContext? &&
              forall j :: 0 <= j < |frameworks| ==> !CanProvision(supports, ContextEntity(context))(frameworks[j])
    ensures r.result.Success? <==>
              !context.OtherContext? &&
              exists j :: 0 <= j < |frameworks| && CanProvision(supports, ContextEntity(context))(frameworks[j])
    ensures r.result.Failure? ==> r.tasks == tasks
    ensures r.result.Success? ==>
              exists k :: 0 <= k < |frameworks| && r.result.value == Task(newTaskId, frameworks[k].id) &&
                CanProvision(supports, ContextEntity(context))(frameworks[k]) &&
                (forall j :: 0 <= j < k ==> !CanProvision(supports, ContextEntity(context))(frameworks[j])) &&
                r.tasks == tasks + {Mapping(frameworks[k].id, newTaskId)}
  {
    if context.OtherContext? then TaskOutcome(Failure(InvalidContext), tasks)
    else
      match First(frameworks, CanProvision(supports, ContextEntity(context)))
      case None => TaskOutcome(Failure(NoMachinesAvailable), tasks)
      case Some(k) =>
        var f := frameworks[k].id;
        TaskOutcome(Success(Task(newTaskId, f)), tasks + {Mapping(f, newTaskId)})
  }

  /**
   * What `release` does: a task no framework holds is refused, a task several
   * frameworks hold makes `getOnlyElement` throw, and otherwise the one pair
   * holding it is removed and its framework returned.
   */
  ghost function Released(tasks: set<Mapping>, taskId: string): (r: TaskOutcome<string>)
    ensures r.result == Failure(NotAllocated) <==> forall f :: Mapping(f, taskId) !in tasks
    ensures r.result == Failure(NotUnique) <==> |Holders(tasks, taskId)| > 1
    ensures r.result.Success? <==> |Holders(tasks, taskId)| == 1
    ensures r.result.Failure? ==> r.tasks == tasks
    ensures r.result.Success? ==>
              Holders(tasks, taskId) == {r.result.value} && r.tasks == tasks - {Mapping(r.result.value, taskId)}
  {
    var holders := Holders(tasks, taskId);
    if holders == {} then
      TaskOutcome(Failure(NotAllocated), tasks)
    else if |holders| > 1 then
      TaskOutcome(Failure(NotUnique), tasks)
    else
      var f :| f in holders;
      SingletonSet(holders, f);
      TaskOutcome(Success(f), tasks - {Mapping(f, taskId)})
  }

  /** A set of size one holding `x` is `{x}`. */
  lemma SingletonSet<T>(s: set<T>, x: T)
    requires |s| <= 1 && x in s
    ensures s == {x}
  {
    var rest := s - {x};
    assert |s| == |rest| + 1;
    assert rest == {};
  }

  /** Whether the registry already defines a location called `name`. */
  predicate DefinedByName(definitions: map<string, LocationDefinition>, name: string)
  {
    exists id :: id in definitions && definitions[id].name == name
  }

  /**
   * What `register` does: without a configured name it throws; a name already
   * defined is refused; otherwise a definition with the fresh id `newId`,
   * resolving to this cluster location, is added and its id kept.
   */
  function Registered(s: Registration, locationName: Option<string>, clusterId: string, newId: string): (r: RegisterOutcome)
    ensures locationName.None? ==> r == RegisterOutcome(Failure(MissingLocationName), s)
    ensures locationName.Some? && DefinedByName(s.definitions, locationName.value) ==>
              r == RegisterOutcome(Failure(AlreadyDefined(locationName.value)), s)
    ensures r.result.Success? <==> locationName.Some? && !DefinedByName(s.definitions, locationName.value)
    ensures r.result.Success? ==>
              var d := r.result.value;
              d == LocationDefinition(newId, locationName.value, clusterId) &&
              r.state == Registration(Some(newId), s.definitions[newId := d])
  {
    match locationName
    case None => RegisterOutcome(Failure(MissingLocationName), s)
    case Some(name) =>
      if DefinedByName(s.definitions, name) then RegisterOutcome(Failure(AlreadyDefined(name)), s)
      else
        var d := LocationDefinition(newId, name, clusterId);
        RegisterOutcome(Success(d), Registration(Some(newId), s.definitions[newId := d]))
  }

  /** What `deregister` does: when registered, the definition is removed and the id cleared. */
  function Deregistered(s: Registration): (r: Registration)
    ensures r.registrationId.None?
    ensures s.registrationId.None? ==> r == s
    ensures s.registrationId.Some? ==>
              r.definitions.Keys == s.definitions.Keys - {s.registrationId.value} &&
              forall id :: id in r.definitions ==> r.definitions[id] == s.definitions[id]
  {
    match s.registrationId
    case None => s
    case Some(id) => Registration(None, s.definitions - {id})
  }

  // ---------------------------------------------------------------------------
  // Properties
  // ---------------------------------------------------------------------------

  /** Deregistering twice is the same as deregistering once. */
  lemma DeregisterIdempotent(s: Registration)
    ensures Deregistered(Deregistered(s)) == Deregistered(s)
  {
  }

  /**
   * Registering under a fresh id and then deregistering leaves the registry's
   * definitions as they were and the location unregistered.
   */
  lemma {:induction false} RegisterDeregisterRoundTrip(s: Registration, name: string, clusterId: string, newId: string)
    requires !DefinedByName(s.definitions, name) && newId !in s.definitions
    ensures Deregistered(Registered(s, Some(name), clusterId, newId).state) == Registration(None, s.definitions)
  {
    var d := LocationDefinition(newId, name, clusterId);
    assert s.definitions[newId := d] - {newId} == s.definitions;
  }

  /** After a successful registration the name is defined, so registering again fails. */
  lemma RegisterTwiceFails(s: Registration, name: string, clusterId: string, newId: string, newId': string)
    requires Registered(s, Some(name), clusterId, newId).result.Success?
    ensures Registered(Registered(s, Some(name), clusterId, newId).state, Some(name), clusterId, newId').result ==
              Failure(AlreadyDefined(name))
  {
    var defs := Registered(s, Some(name), clusterId, newId).state.definitions;
    assert defs[newId].name == name;
  }

  /**
   * Releasing a task just obtained under an id no framework held returns the
   * framework that provisioned it and restores the multimap.
   */
  lemma {:induction false} ObtainReleaseRoundTrip(tasks: set<Mapping>, context: CallerContext, frameworks: seq<Framework>,
                                                  supports: (Framework, Option<string>) -> bool, newTaskId: string)
    requires Holders(tasks, newTaskId) == {}
    requires Obtained(tasks, context, frameworks, supports, newTaskId).result.Success?
    ensures var o := Obtained(tasks, context, frameworks, supports, newTaskId);
            Released(o.tasks, newTaskId) == TaskOutcome(Success(o.result.value.framework), tasks)
  {
    var o := Obtained(tasks, context, frameworks, supports, newTaskId);
    var m := Mapping(o.result.value.framework, newTaskId);
    assert m !in tasks;
    assert o.tasks == tasks + {m};
    assert Holders(o.tasks, newTaskId) == {m.framework};
    assert o.tasks - {m} == tasks;
  }

  // ---------------------------------------------------------------------------
  // The registry and the location
  // ---------------------------------------------------------------------------

  /** The management context's location registry: defined locations by id. */
  class LocationRegistry {
    var definitions: map<string, LocationDefinition>

    constructor ()
      ensures definitions == map[]
    {
      definitions := map[];
    }
  }

  class MesosLocation {
    const id: string
    const locationName: Option<string>
    const registry: LocationRegistry
    var locationRegistrationId: Option<string>
    var tasks: set<Mapping>

    constructor (id: string, locationName: Option<string>, registry: LocationRegistry)
      ensures this.id == id && this.locationName == locationName && this.registry == registry
      ensures locationRegistrationId == None && tasks == {}
    {
      this.id := id;
      this.locationName := locationName;
      this.registry := registry;
      locationRegistrationId := None;
      tasks := {};
    }

    /** The registration state this location and its registry are in. */
    function State(): Registration
      reads this, registry
    {
      Registration(locationRegistrationId, registry.definitions)
    }

    /**
     * Provisions a task for the caller's entity on the first framework that can
     * take it. `supports` stands for the frameworks' `isSupported`, and
     * `newTaskId` for the id of the task the chosen framework creates.
     */
    method Obtain(context: CallerContext, frameworks: seq<Framework>,
                  supports: (Framework, Option<string>) -> bool, newTaskId: string) returns (r: Result<Task, LocationFailure>)
      modifies this`tasks
      ensures TaskOutcome(r, tasks) == Obtained(old(tasks), context, frameworks, supports, newTaskId)
    {
      if context.OtherContext? {
        return Failure(InvalidContext);
      }
      var entity := ContextEntity(context);
      var canProvision := CanProvision(supports, entity);
      var i := 0;
      while i < |frameworks|
        invariant 0 <= i <= |frameworks|
        invariant FirstFrom(frameworks, canProvision, i) == First(frameworks, canProvision)
      {
        var framework := frameworks[i];
        if framework.ownsLocation && framework.provisioning && supports(framework, entity) {
          tasks := tasks + {Mapping(framework.id, newTaskId)};
          return Success(Task(newTaskId, framework.id));
        }
        i := i + 1;
      }
      r := Failure(NoMachinesAvailable);
    }

    /** Releases a task: the single framework holding it gives it up. */
    method Release(taskId: string) returns (r: Result<string, LocationFailure>)
      modifies this`tasks
      ensures TaskOutcome(r, tasks) == Released(old(tasks), taskId)
    {
      var holders := set m | m in tasks && m.taskId == taskId :: m.framework;
      if holders == {} {
        return Failure(NotAllocated);
      }
      if |holders| > 1 {
        return Failure(NotUnique);
      }
      var framework :| framework in holders;
      SingletonSet(holders, framework);
      tasks := tasks - {Mapping(framework, taskId)};
      r := Success(framework);
    }

    /**
     * Publishes this location under its configured name; `newId` stands for the
     * id the new definition is given.
     */
    method Register(newId: string) returns (r: Result<LocationDefinition, LocationFailure>)
      modifies this`locationRegistrationId, registry
      ensures RegisterOutcome(r, State()) == Registered(old(State()), locationName, id, newId)
    {
      if locationName.None? {
        return Failure(MissingLocationName);
      }
      var name := locationName.value;
      if exists key :: key in registry.definitions && registry.definitions[key].name == name {
        return Failure(AlreadyDefined(name));
      }
      var definition := LocationDefinition(newId, name, id);
      registry.definitions := registry.definitions[newId := definition];
      locationRegistrationId := Some(newId);
      r := Success(definition);
    }

    /** Withdraws the published definition, if any, and forgets its id. */
    method Deregister()
      modifies this`locationRegistrationId, registry
      ensures State() == Deregistered(old(State()))
    {
      if locationRegistrationId.Some? {
        registry.definitions := registry.definitions - {locationRegistrationId.value};
        locationRegistrationId := None;
      }
    }
  }
}
