/** The API server as the controller sees it: a store that other clients change between any
    two calls, calls that may fail with or without taking effect, and a server that fills
    in what it stores. */
module Cluster {
  import opened Options
  import opened Phares
  import W = Workloads
  import S = ServiceSpecs

  datatype WorkloadKind = Deployment | StatefulSet

  /** All of a Phare's objects have names derived from its own, so a kind names an object. */
  datatype Kind = ConfigMapKind | ServiceKind | RouteOf(route: RouteKind) | WorkloadOf(workload: WorkloadKind)

  datatype Object =
    | ConfigMap(data: map<string, string>, owner: Option<string>)
    | Service(service: S.ServiceSpec, labels: map<string, string>, annotations: map<string, string>,
              owner: Option<string>)
    | Route(route: string, labels: map<string, string>, owner: Option<string>)
    | Workload(workload: W.WorkloadSpec, owner: Option<string>)

  predicate OfKind(k: Kind, o: Object) {
    match k
    case ConfigMapKind => o.ConfigMap?
    case ServiceKind => o.Service?
    case RouteOf(_) => o.Route?
    case WorkloadOf(_) => o.Workload?
  }

  datatype Store = Store(objects: map<Kind, Object>, phare: Option<Phare>)

  predicate Present(s: Store, k: Kind) {
    k in s.objects && OfKind(k, s.objects[k])
  }

  /** The object exists and its controller is the given Phare. */
  predicate Controlled(s: Store, k: Kind, uid: string) {
    Present(s, k) && s.objects[k].owner == Some(uid)
  }

  /** A write sent to the server, an object actually removed, or a phase recorded. */
  datatype Event =
    | Wrote(kind: Kind)
    | Removed(kind: Kind, owner: Option<string>)
    | Recorded(phase: Phase)

  datatype Outcome = Works | Refused | WorksButReportsFailure

  /** Everything outside the controller: what becomes of each call, what other clients do
      before it, what the server makes of a stored object, the library functions, and
      the version the server gives a Phare whose status it writes. */
  datatype Env = Env(
    outcome: nat -> Outcome,
    others: (nat, Store) -> Store,
    admit: (Kind, Object) -> Object,
    render: Renderer,
    sha: string -> string,
    errorText: nat -> string,
    versions: nat -> string)

  /** A state of the store, and the number of the call ahead of which other clients brought
      it about; none when the controller's own call did. */
  datatype Snapshot = Snapshot(store: Store, others: Option<nat>)

  /** `seen` lists every state the store has been in. */
  datatype World = World(store: Store, clock: nat, log: seq<Event>, seen: seq<Snapshot>)

  datatype Got<T> = Found(value: T) | Missing | Unavailable

  datatype Called = Done | NotThere | Rejected

  // ---------- calls as functions ----------

  /** Other clients act, then the call arrives. */
  function Tick(env: Env, w: World): World {
    var s := env.others(w.clock, w.store);
    World(s, w.clock + 1, w.log, w.seen + [Snapshot(s, Some(w.clock))])
  }

  function Effect(w: World, s: Store, e: Event): World {
    World(s, w.clock, w.log + [e], w.seen + [Snapshot(s, None)])
  }

  function DoGet(env: Env, w: World, k: Kind): (r: (World, Got<Object>))
    ensures r.1.Found? ==> OfKind(k, r.1.value)
  {
    var t := Tick(env, w);
    if !env.outcome(w.clock).Works? then (t, Unavailable)
    else if Present(t.store, k) then (t, Found(t.store.objects[k]))
    else (t, Missing)
  }

  function DoFetch(env: Env, w: World): (World, Got<Phare>) {
    var t := Tick(env, w);
    if !env.outcome(w.clock).Works? then (t, Unavailable)
    else match t.store.phare
      case Some(p) => (t, Found(p))
      case None => (t, Missing)
  }

  function DoCreate(env: Env, w: World, k: Kind, o: Object): (World, Called) {
    var t := Tick(env, w);
    var asked := t.(log := t.log + [Wrote(k)]);
    if env.outcome(w.clock).Refused? || k in t.store.objects then (asked, Rejected)
    else
      (Effect(t, t.store.(objects := t.store.objects[k := env.admit(k, o)]), Wrote(k)),
       if env.outcome(w.clock).Works? then Done else Rejected)
  }

  /** An update or a patch: the object keeps the owner it has in the store. */
  function DoReplace(env: Env, w: World, k: Kind, o: Object): (World, Called) {
    var t := Tick(env, w);
    var asked := t.(log := t.log + [Wrote(k)]);
    if env.outcome(w.clock).Refused? then (asked, Rejected)
    else if !Present(t.store, k) then (asked, NotThere)
    else
      var kept := o.(owner := t.store.objects[k].owner);
      (Effect(t, t.store.(objects := t.store.objects[k := env.admit(k, kept)]), Wrote(k)),
       if env.outcome(w.clock).Works? then Done else Rejected)
  }

  /** Deletion is by name: it removes whatever has the name by then. */
  function DoDelete(env: Env, w: World, k: Kind): (World, Called) {
    var t := Tick(env, w);
    if env.outcome(w.clock).Refused? then (t, Rejected)
    else if !Present(t.store, k) then (t, NotThere)
    else
      (Effect(t, t.store.(objects := t.store.objects - {k}), Removed(k, t.store.objects[k].owner)),
       if env.outcome(w.clock).Works? then Done else Rejected)
  }

  function DoRecord(env: Env, w: World, status: Status): (World, Called) {
    var t := Tick(env, w);
    if env.outcome(w.clock).Refused? then (t, Rejected)
    else match t.store.phare
      case None => (t, NotThere)
      case Some(p) =>
        var written := p.(status := status, version := env.versions(w.clock));
        (Effect(t, t.store.(phare := Some(written)), Recorded(status.phase)),
         if env.outcome(w.clock).Works? then Done else Rejected)
  }

  // ---------- the server ----------

  class Api {
    const env: Env
    var store: Store
    var clock: nat
    var log: seq<Event>
    var seen: seq<Snapshot>

    function Now(): World
      reads this
    {
      World(store, clock, log, seen)
    }

    constructor (env: Env, store: Store)
      ensures this.env == env && Now() == World(store, 0, [], [Snapshot(store, None)])
    {
      this.env, this.store, this.clock, this.log, this.seen := env, store, 0, [], [Snapshot(store, None)];
    }

    /** Others go first. */
    method Arrive() returns (outcome: Outcome)
      modifies this
      ensures Now() == Tick(env, old(Now())) && outcome == env.outcome(old(clock))
    {
      outcome := env.outcome(clock);
      store := env.others(clock, store);
      seen := seen + [Snapshot(store, Some(clock))];
      clock := clock + 1;
    }

    method Commit(s: Store, e: Event)
      modifies this
      ensures Now() == Effect(old(Now()), s, e)
    {
      store, log, seen := s, log + [e], seen + [Snapshot(s, None)];
    }

    method Get(k: Kind) returns (r: Got<Object>)
      modifies this
      ensures (Now(), r) == DoGet(env, old(Now()), k)
    {
      var outcome := Arrive();
      if outcome != Works {
        return Unavailable;
      }
      if Present(store, k) {
        return Found(store.objects[k]);
      }
      return Missing;
    }

    method Fetch() returns (r: Got<Phare>)
      modifies this
      ensures (Now(), r) == DoFetch(env, old(Now()))
    {
      var outcome := Arrive();
      if outcome != Works {
        return Unavailable;
      }
      match store.phare {
        case Some(p) => return Found(p);
        case None => return Missing;
      }
    }

    method Create(k: Kind, o: Object) returns (r: Called)
      modifies this
      ensures (Now(), r) == DoCreate(env, old(Now()), k, o)
    {
      var outcome := Arrive();
      if outcome == Refused || k in store.objects {
        log := log + [Wrote(k)];
        return Rejected;
      }
      Commit(store.(objects := store.objects[k := env.admit(k, o)]), Wrote(k));
      r := if outcome == Works then Done else Rejected;
    }

    method Replace(k: Kind, o: Object) returns (r: Called)
      modifies this
      ensures (Now(), r) == DoReplace(env, old(Now()), k, o)
    {
      var outcome := Arrive();
      if outcome == Refused {
        log := log + [Wrote(k)];
        return Rejected;
      }
      if !Present(store, k) {
        log := log + [Wrote(k)];
        return NotThere;
      }
      var kept := o.(owner := store.objects[k].owner);
      Commit(store.(objects := store.objects[k := env.admit(k, kept)]), Wrote(k));
      r := if outcome == Works then Done else Rejected;
    }

    method Delete(k: Kind) returns (r: Called)
      modifies this
      ensures (Now(), r) == DoDelete(env, old(Now()), k)
    {
      var outcome := Arrive();
      if outcome == Refused {
        return Rejected;
      }
      if !Present(store, k) {
        return NotThere;
      }
      Commit(store.(objects := store.objects - {k}), Removed(k, store.objects[k].owner));
      r := if outcome == Works then Done else Rejected;
    }

    method Record(status: Status) returns (r: Called)
      modifies this
      ensures (Now(), r) == DoRecord(env, old(Now()), status)
    {
      var now := clock;
      var outcome := Arrive();
      if outcome == Refused {
        return Rejected;
      }
      match store.phare {
        case None => return NotThere;
        case Some(p) =>
          var written := p.(status := status, version := env.versions(now));
          Commit(store.(phare := Some(written)), Recorded(status.phase));
          r := if outcome == Works then Done else Rejected;
      }
    }
  }
}
