/** The registry of per-namespace reconciliation loops, driven by namespace watch events, and
    the loop itself, which passes every service of its namespace to the namespace's service
    manager. A deleted namespace's scheduler is shut down but its entry stays in the registry,
    so a namespace that is deleted and later re-created is not reconciled again. */
module NamespaceManager {
  import opened Wrappers
  import opened Model
  import opened SecretManager
  import opened ServiceManager

  /** `Watcher.Action` */
  datatype Action = ADDED | MODIFIED | DELETED | ERROR

  datatype Event = Event(action: Action, namespace: string)

  /** Seconds between two runs of a namespace's reconciliation loop. */
  const RECONCILE_PERIOD_SECONDS: int := 45

  /** A single-thread scheduler running `loop` every 45 seconds from the start, until shut down. */
  datatype Scheduler = Scheduler(loop: ReconciliationLoop, initialDelay: int, period: int, shutdown: bool)

  /** The registry seen as: which names are registered, and whether each one's scheduler has been
      shut down. */
  type Flags = map<string, bool>

  function FlagsOf(executors: map<string, Scheduler>): (r: Flags)
    ensures r.Keys == executors.Keys
    ensures forall n :: n in r ==> r[n] == executors[n].shutdown
  {
    map n | n in executors :: executors[n].shutdown
  }

  /** Registering a running scheduler for a new name adds that name, not shut down. */
  lemma FlagsOfAdded(before: map<string, Scheduler>, after: map<string, Scheduler>, name: string)
    requires name !in before && after.Keys == before.Keys + {name} && !after[name].shutdown
    requires forall n :: n in before ==> after[n] == before[n]
    ensures FlagsOf(after) == FlagsOf(before)[name := false]
  {
  }

  /** Shutting a registered scheduler down flips only that name's flag. */
  lemma FlagsOfShutDown(before: map<string, Scheduler>, name: string)
    requires name in before
    ensures FlagsOf(before[name := before[name].(shutdown := true)]) == FlagsOf(before)[name := true]
  {
  }

  /** The effect of one event on the registry: ADDED registers a running scheduler for a name
      that has none, DELETED shuts a registered scheduler down and keeps its entry, and every
      other event, or an event for another name, changes nothing. */
  function NextFlags(flags: Flags, event: Event): (r: Flags)
    ensures forall n :: n in flags && n != event.namespace ==> n in r && r[n] == flags[n]
    ensures event.action == ADDED && event.namespace !in flags ==> r == flags[event.namespace := false]
    ensures event.action == ADDED && event.namespace in flags ==> r == flags
    ensures event.action == DELETED && event.namespace in flags ==> r == flags[event.namespace := true]
    ensures event.action == DELETED && event.namespace !in flags ==> r == flags
    ensures event.action != ADDED && event.action != DELETED ==> r == flags
  {
    match event.action
    case ADDED => if event.namespace in flags then flags else flags[event.namespace := false]
    case DELETED => if event.namespace in flags then flags[event.namespace := true] else flags
    case _ => flags
  }

  /** The registry after a sequence of events, applied in order. */
  function Replay(flags: Flags, events: seq<Event>): Flags {
    if events == [] then flags else NextFlags(Replay(flags, events[..|events| - 1]), events[|events| - 1])
  }

  /** A shut-down entry stays registered and shut down whatever events follow. */
  lemma {:induction false} ShutDownIsPermanent(flags: Flags, events: seq<Event>, name: string)
    requires name in flags && flags[name]
    ensures name in Replay(flags, events) && Replay(flags, events)[name]
  {
    if events != [] {
      ShutDownIsPermanent(flags, events[..|events| - 1], name);
    }
  }

  /** The quirk: once a registered namespace is deleted, adding it again starts nothing. */
  lemma DeletedThenAddedStaysShutDown(flags: Flags, name: string, later: seq<Event>)
    requires name in flags
    ensures var afterDelete := NextFlags(flags, Event(DELETED, name));
            name in Replay(afterDelete, later) && Replay(afterDelete, later)[name]
  {
    ShutDownIsPermanent(NextFlags(flags, Event(DELETED, name)), later, name);
  }

  /** Events for other names never touch an entry. */
  lemma {:induction false} OtherNamesUntouched(flags: Flags, events: seq<Event>, name: string)
    requires forall i :: 0 <= i < |events| ==> events[i].namespace != name
    ensures (name in Replay(flags, events)) == (name in flags)
    ensures name in flags ==> Replay(flags, events)[name] == flags[name]
  {
    if events != [] {
      OtherNamesUntouched(flags, events[..|events| - 1], name);
    }
  }

  /** Starting from an empty registry, a namespace is registered exactly when it was ADDED at
      some point, and its loop is running exactly when, in addition, no DELETED for it came
      after an ADDED. */
  lemma {:induction false} RegistryHistory(events: seq<Event>, name: string)
    ensures (name in Replay(map[], events)) <==> exists i :: 0 <= i < |events| && events[i] == Event(ADDED, name)
    ensures (name in Replay(map[], events) && !Replay(map[], events)[name]) <==>
              && (exists i :: 0 <= i < |events| && events[i] == Event(ADDED, name))
              && (forall i, j :: 0 <= i < j < |events| && events[i] == Event(ADDED, name) ==> events[j] != Event(DELETED, name))
  {
    if events != [] {
      var init := events[..|events| - 1];
      var last := events[|events| - 1];
      RegistryHistory(init, name);
      assert forall i :: 0 <= i < |init| ==> init[i] == events[i];
      var before := Replay(map[], init);
      if last == Event(ADDED, name) {
        assert events[|events| - 1] == Event(ADDED, name);
        if name in before && before[name] {
          var i, j :| 0 <= i < j < |init| && init[i] == Event(ADDED, name) && init[j] == Event(DELETED, name);
          assert events[i] == Event(ADDED, name) && events[j] == Event(DELETED, name);
        }
      } else if last == Event(DELETED, name) {
        if name in before {
          var i :| 0 <= i < |init| && init[i] == Event(ADDED, name);
          assert events[i] == Event(ADDED, name) && events[|events| - 1] == Event(DELETED, name);
        }
      } else {
        if exists i, j :: 0 <= i < j < |init| && init[i] == Event(ADDED, name) && init[j] == Event(DELETED, name) {
          var i, j :| 0 <= i < j < |init| && init[i] == Event(ADDED, name) && init[j] == Event(DELETED, name);
          assert events[i] == Event(ADDED, name) && events[j] == Event(DELETED, name);
        }
      }
    }
  }

  /** The secrets after one tick of the loop has reconciled `services` in order, given the names
      already in progress. */
  function ReconcileAll(store: Store, namespace: string, inProgress: set<string>, services: seq<Service>,
                        today: Day, issue: Issuer): Store
  {
    if services == [] then store
    else
      var before := ReconcileAll(store, namespace, inProgress, services[..|services| - 1], today, issue);
      var service := services[|services| - 1];
      if IsCertificateRequest(service) && service.name !in inProgress
      then ReconcileEffect(before, namespace, service, today, issue)
      else before
  }

  /** One more service extends a tick by that service's reconciliation. */
  lemma {:induction false} ReconcileAllStep(store: Store, namespace: string, inProgress: set<string>,
                                            services: seq<Service>, i: nat, today: Day, issue: Issuer, before: Store)
    requires i < |services|
    requires before == ReconcileAll(store, namespace, inProgress, services[..i], today, issue)
    ensures ReconcileAll(store, namespace, inProgress, services[..i + 1], today, issue) ==
            if IsCertificateRequest(services[i]) && services[i].name !in inProgress
            then ReconcileEffect(before, namespace, services[i], today, issue)
            else before
  {
    assert services[..i + 1][..i] == services[..i];
  }

  /** Which of `services` a tick starts work for, given the names already in progress. */
  function StartedFlags(services: seq<Service>, inProgress: set<string>): (r: seq<bool>)
    ensures |r| == |services|
    ensures forall i :: 0 <= i < |services| ==>
              r[i] == (IsCertificateRequest(services[i]) && services[i].name !in inProgress)
  {
    seq(|services|, i requires 0 <= i < |services| =>
      IsCertificateRequest(services[i]) && services[i].name !in inProgress)
  }

  lemma {:induction false} StartedStep(services: seq<Service>, inProgress: set<string>, i: nat, started: seq<bool>, s: bool)
    requires i < |services| && started == StartedFlags(services, inProgress)[..i]
    requires s == (IsCertificateRequest(services[i]) && services[i].name !in inProgress)
    ensures started + [s] == StartedFlags(services, inProgress)[..i + 1]
  {
  }

  /** A tick writes no secret outside the loop's namespace. */
  lemma {:induction false} ReconcileAllStaysInNamespace(store: Store, namespace: string, inProgress: set<string>,
                                                        services: seq<Service>, today: Day, issue: Issuer, k: SecretKey)
    requires k in store && k.namespace != namespace
    ensures var after := ReconcileAll(store, namespace, inProgress, services, today, issue);
            k in after && after[k] == store[k]
  {
    if services != [] {
      var init := services[..|services| - 1];
      ReconcileAllStaysInNamespace(store, namespace, inProgress, init, today, issue, k);
      ReconcileTouchesOnlyItsSecret(ReconcileAll(store, namespace, inProgress, init, today, issue),
                                    namespace, services[|services| - 1], today, issue, k);
    }
  }

  /** `ReconciliationLoop`: one run reconciles every listed service of its namespace. */
  class ReconciliationLoop {
    const namespace: string
    const manager: ServiceManager

    constructor (namespace: string, manager: ServiceManager)
      ensures this.namespace == namespace && this.manager == manager
    {
      this.namespace := namespace;
      this.manager := manager;
    }

    /** `run`: `services` is the listing of the namespace's services; each is passed to
        `reconcileService` in list order. `started[i]` says whether the i-th one started work. */
    method Run(services: seq<Service>, today: Day, issue: Issuer) returns (started: seq<bool>)
      requires manager.namespace == namespace
      modifies manager, manager.store
      ensures started == StartedFlags(services, manager.inProgress)
      ensures manager.inProgress == old(manager.inProgress)
      ensures manager.store.secrets == ReconcileAll(old(manager.store.secrets), namespace, manager.inProgress,
                                                    services, today, issue)
    {
      started := [];
      for i := 0 to |services|
        invariant |started| == i
        invariant manager.inProgress == old(manager.inProgress)
        invariant started == StartedFlags(services, manager.inProgress)[..i]
        invariant manager.store.secrets == ReconcileAll(old(manager.store.secrets), namespace, manager.inProgress,
                                                        services[..i], today, issue)
      {
        ghost var before := manager.store.secrets;
        var s := manager.ReconcileService(services[i], today, issue);
        ReconcileAllStep(old(manager.store.secrets), namespace, manager.inProgress, services, i, today, issue, before);
        StartedStep(services, manager.inProgress, i, started, s);
        started := started + [s];
      }
      assert services[..|services|] == services;
    }
  }

  /** `NamespaceManager`: the map from namespace name to the scheduler of its loop. */
  class NamespaceManager {
    const store: SecretStore
    var executors: map<string, Scheduler>

    constructor (store: SecretStore)
      ensures this.store == store && executors == map[]
    {
      this.store := store;
      executors := map[];
    }

    /** `eventReceived`: dispatches ADDED and DELETED; any other action is ignored. */
    method EventReceived(action: Action, name: string)
      modifies this
      ensures FlagsOf(executors) == NextFlags(FlagsOf(old(executors)), Event(action, name))
      ensures forall n :: n in old(executors) && n != name ==> n in executors && executors[n] == old(executors)[n]
      ensures name in old(executors) && name in executors ==> executors[name].loop == old(executors)[name].loop
      ensures action == ADDED && name !in old(executors) ==>
                && fresh(executors[name].loop)
                && executors[name].loop.namespace == name
                && executors[name].loop.manager.namespace == name
                && executors[name].loop.manager.store == store
                && executors[name].loop.manager.inProgress == {}
                && executors[name].initialDelay == 0 && executors[name].period == RECONCILE_PERIOD_SECONDS
    {
      match action
      case ADDED =>
        HandleAddedNamespace(name);
        if name !in old(executors) {
          FlagsOfAdded(old(executors), executors, name);
        }
      case DELETED =>
        HandleDeletedNamespace(name);
        if name in old(executors) {
          FlagsOfShutDown(old(executors), name);
        }
      case _ =>
    }

    /** `handleAddedNamespace`: a name without an entry gets a new service manager, a loop over
        it and a running scheduler; a name with an entry, even a shut-down one, is left alone. */
    method HandleAddedNamespace(name: string)
      modifies this
      ensures name in old(executors) ==> executors == old(executors)
      ensures name !in old(executors) ==>
                && executors.Keys == old(executors).Keys + {name}
                && (forall n :: n in old(executors) ==> executors[n] == old(executors)[n])
                && !executors[name].shutdown
                && executors[name].initialDelay == 0 && executors[name].period == RECONCILE_PERIOD_SECONDS
                && fresh(executors[name].loop)
                && executors[name].loop.namespace == name
                && executors[name].loop.manager.namespace == name
                && executors[name].loop.manager.store == store
                && executors[name].loop.manager.inProgress == {}
    {
      if name !in executors {
        var serviceManager := new ServiceManager(name, store);
        var loop := new ReconciliationLoop(name, serviceManager);
        executors := executors[name := Scheduler(loop, 0, RECONCILE_PERIOD_SECONDS, false)];
      }
    }

    /** `handleDeletedNamespace`: shuts the scheduler of a registered name down and keeps the
        entry; an unknown name is ignored. */
    method HandleDeletedNamespace(name: string)
      modifies this
      ensures name !in old(executors) ==> executors == old(executors)
      ensures name in old(executors) ==> executors == old(executors)[name := old(executors)[name].(shutdown := true)]
    {
      if name in executors {
        var scheduler := executors[name];
        executors := executors[name := scheduler.(shutdown := true)];
      }
    }
  }
}
