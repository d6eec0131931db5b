/**
 * The group placement strategy: entities with the same parent must share a
 * Docker host, and with the `exclusive` option a host may carry containers of
 * one application only. Placement decisions for one application are serialised
 * through a semaphore kept, per application id, in a map that all strategies of
 * a Docker infrastructure share.
 */
module GroupPlacement {
  import opened Wrappers
  import opened Sequences
  import opened Placement

  // ---------------------------------------------------------------------------
  // The verdict of `apply`
  // ---------------------------------------------------------------------------

  /** Containers that do not belong to the application `appId`. */
  function NotOfApplication(appId: string): Container -> bool
  {
    (c: Container) => c.appId != appId
  }

  /** Containers that belong to the application `appId`. */
  function OfApplication(appId: string): Container -> bool
  {
    (c: Container) => c.appId == appId
  }

  /** Containers whose parent is `parentId`. */
  function ChildOf(parentId: string): Container -> bool
  {
    (c: Container) => c.parentId == parentId
  }

  /** The containers the verdict counts: those not of the host owner's application. */
  function Deployed(host: Host): seq<Container>
  {
    Filter(host.containers, NotOfApplication(host.ownerAppId))
  }

  /** The counted containers of the entity's own application. */
  function SameApplication(host: Host, e: Entity): seq<Container>
  {
    Filter(Deployed(host), OfApplication(e.appId))
  }

  /** The counted containers of the entity's application that are children of the entity's parent. */
  function SameParent(host: Host, e: Entity): seq<Container>
  {
    Filter(SameApplication(host, e), ChildOf(e.parentId))
  }

  /**
   * Whether the strategy accepts `host` for entity `e`: with `exclusive`, a
   * host with more counted containers than counted containers of `e`'s
   * application is rejected; a host with none of `e`'s application is
   * accepted; otherwise the host is accepted iff one of them shares `e`'s parent.
   * Stated over the containers present: the host is accepted iff (without
   * `exclusive`, or with no counted container of another application) and (no
   * counted container of `e`'s application, or one that is `e`'s sibling).
   */
  function Accepts(exclusive: bool, e: Entity, host: Host): (r: bool)
    ensures r <==> !(exclusive && HasForeign(e, host)) && (!HasSameApplication(e, host) || HasSibling(e, host))
  {
    ExclusiveCountTest(e, host);
    SameApplicationEmpty(e, host);
    SameParentEmpty(e, host);
    if exclusive && |Deployed(host)| > |SameApplication(host, e)| then false
    else if |SameApplication(host, e)| == 0 then true
    else |SameParent(host, e)| > 0
  }

  /** The verdict for entity `e` as a predicate on hosts. */
  function Verdict(exclusive: bool, e: Entity): Host -> bool
  {
    h => Accepts(exclusive, e, h)
  }

  // ---------------------------------------------------------------------------
  // The verdict in terms of which containers are present
  // ---------------------------------------------------------------------------

  /** `c` runs on `host` and does not belong to the host owner's application. */
  predicate IsCounted(host: Host, c: Container)
  {
    c in host.containers && c.appId != host.ownerAppId
  }

  /** Some counted container belongs to an application other than `e`'s. */
  ghost predicate HasForeign(e: Entity, host: Host)
  {
    exists c :: IsCounted(host, c) && c.appId != e.appId
  }

  /** Some counted container belongs to `e`'s application. */
  ghost predicate HasSameApplication(e: Entity, host: Host)
  {
    exists c :: IsCounted(host, c) && c.appId == e.appId
  }

  /** Some counted container belongs to `e`'s application and is a child of `e`'s parent. */
  ghost predicate HasSibling(e: Entity, host: Host)
  {
    exists c :: IsCounted(host, c) && c.appId == e.appId && c.parentId == e.parentId
  }

  lemma CountedMembership(host: Host, e: Entity, c: Container)
    ensures c in Deployed(host) <==> IsCounted(host, c)
    ensures c in SameApplication(host, e) <==> IsCounted(host, c) && c.appId == e.appId
    ensures c in SameParent(host, e) <==> IsCounted(host, c) && c.appId == e.appId && c.parentId == e.parentId
  {
    FilterMembership(host.containers, NotOfApplication(host.ownerAppId), c);
    FilterMembership(Deployed(host), OfApplication(e.appId), c);
    FilterMembership(SameApplication(host, e), ChildOf(e.parentId), c);
  }

  /**
   * The strict count test `|deployed| > |sameApplication|` holds exactly when
   * some counted container belongs to another application.
   */
  lemma {:induction false} ExclusiveCountTest(e: Entity, host: Host)
    ensures |Deployed(host)| > |SameApplication(host, e)| <==> HasForeign(e, host)
  {
    var deployed := Deployed(host);
    FilterShorter(deployed, OfApplication(e.appId));
    if HasForeign(e, host) {
      var c :| IsCounted(host, c) && c.appId != e.appId;
      CountedMembership(host, e, c);
      var i :| 0 <= i < |deployed| && deployed[i] == c;
      assert !OfApplication(e.appId)(deployed[i]);
    }
    if |deployed| > |SameApplication(host, e)| {
      var i :| 0 <= i < |deployed| && !OfApplication(e.appId)(deployed[i]);
      CountedMembership(host, e, deployed[i]);
    }
  }

  lemma {:induction false} SameApplicationEmpty(e: Entity, host: Host)
    ensures |SameApplication(host, e)| == 0 <==> !HasSameApplication(e, host)
  {
    var same := SameApplication(host, e);
    if HasSameApplication(e, host) {
      var c :| IsCounted(host, c) && c.appId == e.appId;
      CountedMembership(host, e, c);
    }
    if |same| > 0 {
      CountedMembership(host, e, same[0]);
    }
  }

  lemma {:induction false} SameParentEmpty(e: Entity, host: Host)
    ensures |SameParent(host, e)| == 0 <==> !HasSibling(e, host)
  {
    var sibs := SameParent(host, e);
    if HasSibling(e, host) {
      var c :| IsCounted(host, c) && c.appId == e.appId && c.parentId == e.parentId;
      CountedMembership(host, e, c);
    }
    if |sibs| > 0 {
      CountedMembership(host, e, sibs[0]);
    }
  }

  /**
   * Containers of the host owner's application are ignored, and so is the
   * order of the containers: hosts with the same owner and the same counted
   * containers get the same verdict.
   */
  lemma {:induction false} OwnerContainersIgnored(exclusive: bool, e: Entity, host: Host, host': Host)
    requires host'.ownerAppId == host.ownerAppId
    requires forall c :: IsCounted(host, c) <==> IsCounted(host', c)
    ensures Accepts(exclusive, e, host) == Accepts(exclusive, e, host')
  {
  }

  /**
   * Without `exclusive`, containers of other applications never change the
   * verdict: hosts that agree on the counted containers of `e`'s application
   * get the same verdict.
   */
  lemma {:induction false} ForeignIgnoredUnlessExclusive(e: Entity, host: Host, host': Host)
    requires forall c: Container :: c.appId == e.appId ==> (IsCounted(host, c) <==> IsCounted(host', c))
    ensures Accepts(false, e, host) == Accepts(false, e, host')
  {
  }

  // ---------------------------------------------------------------------------
  // The semaphore registry and the strategy
  // ---------------------------------------------------------------------------

  /** Every entry of `m` is still in `m'`, mapped to the same semaphore. */
  ghost predicate Extends(m: map<string, Semaphore>, m': map<string, Semaphore>)
  {
    forall k :: k in m ==> k in m' && m'[k] == m[k]
  }

  /** A semaphore in the registry; only its identity and name are modelled. */
  class Semaphore {
    const name: string

    constructor (name: string)
      ensures this.name == name
    {
      this.name := name;
    }
  }

  /** The Docker infrastructure's semaphore map, from mutex id (an application id) to semaphore. */
  class DockerInfrastructure {
    var semaphores: map<string, Semaphore>

    constructor ()
      ensures semaphores == map[]
    {
      semaphores := map[];
    }
  }

  /**
   * The sorted copy the inherited `filterLocations` makes, under the default
   * comparator that calls all hosts equal: the stable sort leaves the copy in
   * the original order.
   */
  method SortedCopyAllEqual(locations: seq<Host>) returns (available: array<Host>)
    ensures fresh(available) && available[..] == locations
  {
    available := SortedCopy(locations, (x: Host, y: Host) => 0);
  }

  class GroupPlacementStrategy {
    var entity: Option<Entity>
    const exclusive: bool
    const infrastructure: DockerInfrastructure

    /** A strategy with the `exclusive` option left at its default, off. */
    constructor (infrastructure: DockerInfrastructure)
      ensures entity == None && !exclusive && this.infrastructure == infrastructure
    {
      this.entity := None;
      this.exclusive := false;
      this.infrastructure := infrastructure;
    }

    /** A strategy with the `exclusive` option set explicitly. */
    constructor WithExclusive(infrastructure: DockerInfrastructure, exclusive: bool)
      ensures entity == None && this.exclusive == exclusive && this.infrastructure == infrastructure
    {
      this.entity := None;
      this.exclusive := exclusive;
      this.infrastructure := infrastructure;
    }

    /** The semaphore registered for `mutexId`, or `None` if none has been created. */
    method LookupSemaphore(mutexId: string) returns (s: Option<Semaphore>)
      ensures s.Some? <==> mutexId in infrastructure.semaphores
      ensures s.Some? ==> s.value == infrastructure.semaphores[mutexId]
    {
      if mutexId in infrastructure.semaphores {
        s := Some(infrastructure.semaphores[mutexId]);
      } else {
        s := None;
      }
    }

    /**
     * The semaphore registered for `mutexId`, registering a new one, named
     * after the current entity's application, if there is none. An existing
     * entry is kept and returned; no other entry changes.
     */
    method CreateSemaphore(mutexId: string) returns (s: Semaphore)
      requires entity.Some?
      modifies infrastructure
      ensures mutexId in old(infrastructure.semaphores) ==>
                infrastructure.semaphores == old(infrastructure.semaphores) && s == old(infrastructure.semaphores)[mutexId]
      ensures mutexId !in old(infrastructure.semaphores) ==>
                fresh(s) && s.name == entity.value.appId &&
                infrastructure.semaphores == old(infrastructure.semaphores)[mutexId := s]
    {
      var candidate := new Semaphore(entity.value.appId);
      if mutexId !in infrastructure.semaphores {
        infrastructure.semaphores := infrastructure.semaphores[mutexId := candidate];
      }
      s := infrastructure.semaphores[mutexId];
    }

    /**
     * Releases the semaphore for `mutexId` if there is one; an unknown id is
     * ignored. The registry is not changed either way; `released` tells which
     * case applied.
     */
    method ReleaseMutex(mutexId: string) returns (released: bool)
      ensures released <==> mutexId in infrastructure.semaphores
    {
      var s := LookupSemaphore(mutexId);
      released := s.Some?;
    }

    /**
     * The strategy's predicate: registers a semaphore for the entity's
     * application if there is none yet, then gives the verdict.
     */
    method Apply(input: Host) returns (accepted: bool)
      requires entity.Some?
      modifies infrastructure
      ensures infrastructure.semaphores.Keys == old(infrastructure.semaphores).Keys + {entity.value.appId}
      ensures Extends(old(infrastructure.semaphores), infrastructure.semaphores)
      ensures accepted == Accepts(exclusive, entity.value, input)
    {
      var semaphore := LookupSemaphore(entity.value.appId);
      if semaphore.None? {
        var _ := CreateSemaphore(entity.value.appId);
      }
      accepted := Accepts(exclusive, entity.value, input);
    }

    /**
     * The inherited `filterLocations` with this strategy's predicate and the
     * default comparator, which calls all hosts equal: the accepted hosts in
     * their original order. A non-empty candidate list sets `entity` to the
     * context and leaves a semaphore registered for its application.
     * The copy and the sort are the shared `SortedCopy`; the filtering loop is
     * written out here rather than reusing `FilterArray` because each test
     * calls `Apply`, which registers a semaphore, so the predicate is not a
     * pure function of the host.
     */
    method FilterLocations(locations: seq<Host>, context: Option<Entity>) returns (r: seq<Host>)
      requires |locations| > 0 ==> context.Some?
      modifies this`entity, infrastructure
      ensures |locations| == 0 ==>
                r == [] && entity == old(entity) && infrastructure.semaphores == old(infrastructure.semaphores)
      ensures |locations| > 0 ==>
                entity == context && r == Filter(locations, Verdict(exclusive, context.value)) &&
                infrastructure.semaphores.Keys == old(infrastructure.semaphores).Keys + {context.value.appId}
      ensures Extends(old(infrastructure.semaphores), infrastructure.semaphores)
    {
      if |locations| == 0 {
        return [];
      }
      entity := context;
      var available := SortedCopyAllEqual(locations);
      r := [];
      var i := 0;
      while i < available.Length
        invariant 0 <= i <= available.Length
        invariant entity == context && available[..] == locations
        invariant r == Filter(locations[..i], Verdict(exclusive, context.value))
        invariant infrastructure.semaphores.Keys ==
                    old(infrastructure.semaphores).Keys + (if i > 0 then {context.value.appId} else {})
        invariant Extends(old(infrastructure.semaphores), infrastructure.semaphores)
      {
        FilterStep(locations, Verdict(exclusive, context.value), i);
        var accepted := Apply(available[i]);
        if accepted {
          r := r + [available[i]];
        }
        i := i + 1;
      }
      assert locations[..i] == locations;
    }
  }
}
