/** What a run leaves in the log: removals of the Phare's own objects only, and a phase
    that tells the truth. */
module ReconcileEvents {
  import opened Options
  import opened Phares
  import opened Cluster
  import opened ReconcileSpec
  import W = Workloads

  /** The kinds whose clean-up checks the controller first. */
  predicate Protected(k: Kind) {
    k.RouteOf? || k.WorkloadOf?
  }

  /** Ahead of call number `c` another client put an object in the place of one that the Phare
      controlled. */
  ghost predicate SwapAt(env: Env, seen: seq<Snapshot>, x: nat, c: nat, k: Kind, uid: string, o: Option<string>) {
    && x + 1 < |seen| && seen[x+1] == Snapshot(env.others(c, seen[x].store), Some(c))
    && Controlled(seen[x].store, k, uid) && Present(seen[x+1].store, k)
    && seen[x+1].store.objects[k].owner == o && o != Some(uid)
  }

  /** ... and no earlier than state number `from`. */
  ghost predicate Swapped(env: Env, seen: seq<Snapshot>, from: nat, k: Kind, uid: string, o: Option<string>) {
    exists x: nat, c: nat :: from <= x && SwapAt(env, seen, x, c, k, uid, o)
  }

  /** What the sub-reconcilers may log for the Phare `uid`: removals of protected objects are
      of its own, or of one swapped in. */
  ghost predicate Allowed(env: Env, e: Event, seen: seq<Snapshot>, from: nat, uid: string) {
    match e
    case Wrote(_) => true
    case Removed(k, o) => !Protected(k) || o == Some(uid) || Swapped(env, seen, from, k, uid, o)
    case Recorded(_) => false
  }

  /** The history of `w` goes on in `t`. */
  predicate GoesOn(w: World, t: World) {
    && |w.log| <= |t.log| && t.log[..|w.log|] == w.log
    && |w.seen| <= |t.seen| && t.seen[..|w.seen|] == w.seen
  }

  ghost predicate Extends(env: Env, w: World, t: World, uid: string) {
    GoesOn(w, t) && forall i :: |w.log| <= i < |t.log| ==> Allowed(env, t.log[i], t.seen, |w.seen|, uid)
  }

  lemma GoesOnTransitively(w: World, t: World, u: World)
    requires GoesOn(w, t) && GoesOn(t, u)
    ensures GoesOn(w, u)
  {
    assert u.log[..|w.log|] == u.log[..|t.log|][..|w.log|];
    assert u.seen[..|w.seen|] == u.seen[..|t.seen|][..|w.seen|];
  }

  lemma StillAllowed(env: Env, e: Event, w: World, t: World, u: World, uid: string)
    requires GoesOn(w, t) && GoesOn(t, u)
    requires Allowed(env, e, t.seen, |w.seen|, uid) || Allowed(env, e, u.seen, |t.seen|, uid)
    ensures Allowed(env, e, u.seen, |w.seen|, uid)
  {
    if e.Removed? && Swapped(env, t.seen, |w.seen|, e.kind, uid, e.owner) {
      var x: nat, c: nat :| |w.seen| <= x && SwapAt(env, t.seen, x, c, e.kind, uid, e.owner);
      assert t.seen[x] == u.seen[..|t.seen|][x] && t.seen[x+1] == u.seen[..|t.seen|][x+1];
      assert SwapAt(env, u.seen, x, c, e.kind, uid, e.owner);
    }
    if e.Removed? && Swapped(env, u.seen, |t.seen|, e.kind, uid, e.owner) {
      var x: nat, c: nat :| |t.seen| <= x && SwapAt(env, u.seen, x, c, e.kind, uid, e.owner);
      assert |w.seen| <= x;
    }
  }

  lemma ExtendsTransitively(env: Env, w: World, t: World, u: World, uid: string)
    requires Extends(env, w, t, uid) && Extends(env, t, u, uid)
    ensures Extends(env, w, u, uid)
  {
    GoesOnTransitively(w, t, u);
    forall i | |w.log| <= i < |u.log| ensures Allowed(env, u.log[i], u.seen, |w.seen|, uid) {
      if i < |t.log| {
        assert u.log[i] == u.log[..|t.log|][i] == t.log[i];
      }
      StillAllowed(env, u.log[i], w, t, u, uid);
    }
  }

  lemma CallsExtend(env: Env, w: World, k: Kind, o: Object, uid: string)
    ensures Extends(env, w, DoGet(env, w, k).0, uid)
    ensures Extends(env, w, DoCreate(env, w, k, o).0, uid)
    ensures Extends(env, w, DoReplace(env, w, k, o).0, uid)
    ensures !Protected(k) ==> Extends(env, w, DoDelete(env, w, k).0, uid)
  {
    WroteExtends(env, w, DoCreate(env, w, k, o).0, k, uid);
    WroteExtends(env, w, DoReplace(env, w, k, o).0, k, uid);
  }

  lemma WroteExtends(env: Env, w: World, t: World, k: Kind, uid: string)
    requires |w.seen| <= |t.seen| && t.seen[..|w.seen|] == w.seen
    requires |w.log| <= |t.log| && t.log[..|w.log|] == w.log
    requires forall i :: |w.log| <= i < |t.log| ==> t.log[i] == Wrote(k)
    ensures Extends(env, w, t, uid)
  {}

  lemma DeleteOwnedExtends(env: Env, w: World, k: Kind, uid: string)
    ensures Extends(env, w, StepDeleteOwned(env, w, k, uid).0, uid)
  {
    var (t, got) := DoGet(env, w, k);
    CallsExtend(env, w, k, ConfigMap(map[], None), uid);
    if got.Found? && got.value.owner == Some(uid) {
      var u := DoDelete(env, t, k).0;
      assert GoesOn(w, u);
      if u.log != w.log {
        var e := u.log[|w.log|];
        assert u.log == w.log + [e];
        assert e.owner != Some(uid) ==> SwapAt(env, u.seen, |w.seen|, t.clock, k, uid, e.owner);
      }
    }
  }

  lemma ConfigMapExtends(env: Env, w: World, p: Phare)
    ensures Extends(env, w, StepConfigMap(env, w, p).0, p.uid)
  {
    var (t, got) := DoGet(env, w, ConfigMapKind);
    var o := if got.Found? then got.value else ConfigMap(map[], None);
    var data := if Config(p).Some? then Rendered(Config(p).value, env.render, p) else map[];
    CallsExtend(env, t, ConfigMapKind, o.(data := data), p.uid);
    CallsExtend(env, t, ConfigMapKind, ConfigMap(data, Some(p.uid)), p.uid);
    ExtendsTransitively(env, w, t, StepConfigMap(env, w, p).0, p.uid);
  }

  lemma ServiceExtends(env: Env, w: World, p: Phare)
    ensures Extends(env, w, StepService(env, w, p).0, p.uid)
  {
    var (t, got) := DoGet(env, w, ServiceKind);
    CallsExtend(env, t, ServiceKind, ConfigMap(map[], None), p.uid);
    if p.service.Some? {
      var desired := DesiredServiceSpec(p, p.service.value);
      CallsExtend(env, t, ServiceKind, Service(desired, ServiceLabels(p), ServiceAnnotations(p), Some(p.uid)), p.uid);
      if got.Found? {
        CallsExtend(env, t, ServiceKind, UpdatedService(p, got.value, desired), p.uid);
      }
    }
    ExtendsTransitively(env, w, t, StepService(env, w, p).0, p.uid);
  }

  lemma RouteExtends(env: Env, w: World, p: Phare, k: RouteKind)
    ensures Extends(env, w, StepRoute(env, w, p, k).0, p.uid)
  {
    match RouteSpec(p, k)
    case None => DeleteOwnedExtends(env, w, RouteOf(k), p.uid);
    case Some(spec) =>
      var (t, got) := DoGet(env, w, RouteOf(k));
      CallsExtend(env, t, RouteOf(k), Route(spec, MetadataLabels(p), Some(p.uid)), p.uid);
      if got.Found? {
        CallsExtend(env, t, RouteOf(k), got.value.(route := spec, labels := ReadBackLabels(p, k)), p.uid);
      }
      ExtendsTransitively(env, w, t, StepRoute(env, w, p, k).0, p.uid);
  }

  lemma RoutesExtend(env: Env, w: World, p: Phare)
    ensures Extends(env, w, StepRoutes(env, w, p).0, p.uid)
  {
    var (w1, ok1) := StepRoute(env, w, p, HTTPRoute);
    RouteExtends(env, w, p, HTTPRoute);
    var (w2, ok2) := StepRoute(env, w1, p, GCPBackendPolicy);
    RouteExtends(env, w1, p, GCPBackendPolicy);
    ExtendsTransitively(env, w, w1, w2, p.uid);
    var (w3, ok3) := StepRoute(env, w2, p, HealthCheckPolicy);
    RouteExtends(env, w2, p, HealthCheckPolicy);
    ExtendsTransitively(env, w, w2, w3, p.uid);
  }

  lemma ApplyExtends(env: Env, w: World, k: WorkloadKind, desired: W.WorkloadSpec, uid: string)
    ensures Extends(env, w, StepApply(env, w, k, desired, uid).0, uid)
  {
    var (t, got) := DoGet(env, w, WorkloadOf(k));
    CallsExtend(env, t, WorkloadOf(k), Workload(desired, Some(uid)), uid);
    if got.Found? {
      CallsExtend(env, t, WorkloadOf(k), got.value.(workload := W.Merged(desired, got.value.workload)), uid);
    }
    ExtendsTransitively(env, w, t, StepApply(env, w, k, desired, uid).0, uid);
  }

  lemma MicroServiceExtends(env: Env, w: World, p: Phare)
    ensures Extends(env, w, StepMicroService(env, w, p).0, p.uid)
  {
    if WantedKind(p).Some? {
      var k := WantedKind(p).value;
      var (t, ok) := StepDeleteOwned(env, w, WorkloadOf(OtherKind(k)), p.uid);
      DeleteOwnedExtends(env, w, WorkloadOf(OtherKind(k)), p.uid);
      if ok {
        var (u, desired) := StepDesired(env, t, p, k);
        assert Extends(env, t, u, p.uid);
        ExtendsTransitively(env, w, t, u, p.uid);
        if desired.Some? {
          ApplyExtends(env, u, k, desired.value, p.uid);
          ExtendsTransitively(env, w, u, StepApply(env, u, k, desired.value, p.uid).0, p.uid);
        }
      }
    }
  }

  lemma ResourcesExtend(env: Env, w: World, p: Phare)
    ensures Extends(env, w, StepResources(env, w, p).0, p.uid)
  {
    var (w1, ok1) := StepConfigMap(env, w, p);
    ConfigMapExtends(env, w, p);
    var (w2, ok2) := StepService(env, w1, p);
    ServiceExtends(env, w1, p);
    ExtendsTransitively(env, w, w1, w2, p.uid);
    var (w3, ok3) := StepRoutes(env, w2, p);
    RoutesExtend(env, w2, p);
    ExtendsTransitively(env, w, w2, w3, p.uid);
    MicroServiceExtends(env, w3, p);
    ExtendsTransitively(env, w, w3, StepMicroService(env, w3, p).0, p.uid);
  }

  // ---------- the phase tells the truth ----------

  /** A reconcile writes at most one phase, as its last act; and it writes Active only after
      all six sub-reconcilers have succeeded for the Phare it fetched. */
  lemma ActiveMeansAllSucceeded(env: Env, w: World, i: nat)
    requires |w.log| <= i < |StepReconcile(env, w).0.log| && StepReconcile(env, w).0.log[i].Recorded?
    ensures var (t, got) := DoFetch(env, w); var log := StepReconcile(env, w).0.log;
      && got.Found? && i == |log| - 1
      && (log[i].phase == Active <==> StepResources(env, t, got.value).1)
      && (log[i].phase == Failed <==> !StepResources(env, t, got.value).1)
  {
    var (t, got) := DoFetch(env, w);
    if got.Found? {
      ResourcesExtend(env, t, got.value);
    }
  }

  // ---------- who may be removed ----------

  /** Event `i` of the log belongs to the reconcile that starts in `x`; if it removes a
      protected object, then one that the Phare fetched there controls, or one that another
      client put in the place of such an object during that reconcile. */
  ghost predicate AccountedFor(env: Env, x: World, i: nat, e: Event) {
    var y, got := StepReconcile(env, x).0, DoFetch(env, x).1;
    && |x.log| <= i < |y.log| && y.log[i] == e && got.Found?
    && (e.Removed? && Protected(e.kind) ==>
         e.owner == Some(got.value.uid) || Swapped(env, y.seen, |x.seen|, e.kind, got.value.uid, e.owner))
  }

  lemma ReconcileAccounts(env: Env, x: World)
    ensures GoesOn(x, StepReconcile(env, x).0)
    ensures forall i: nat :: |x.log| <= i < |StepReconcile(env, x).0.log| ==>
      AccountedFor(env, x, i, StepReconcile(env, x).0.log[i])
  {
    var (t, got) := DoFetch(env, x);
    var y := StepReconcile(env, x).0;
    assert GoesOn(x, t) && t.log == x.log;
    if got.Found? {
      var p := got.value;
      var (u, ok) := StepResources(env, t, p);
      ResourcesExtend(env, t, p);
      StatusGoesOn(env, u, p, if ok then ACTIVE else Status(Failed, env.errorText(u.clock)));
      GoesOnTransitively(x, t, u);
      GoesOnTransitively(x, u, y);
      forall i: nat | |x.log| <= i < |y.log| ensures AccountedFor(env, x, i, y.log[i]) {
        if i < |u.log| {
          assert y.log[i] == y.log[..|u.log|][i] == u.log[i];
          StillAllowed(env, u.log[i], t, u, u, p.uid);
          StillAllowed(env, u.log[i], x, t, u, p.uid);
          StillAllowed(env, u.log[i], x, u, y, p.uid);
        }
      }
    }
  }

  lemma StatusGoesOn(env: Env, w: World, p: Phare, status: Status)
    ensures GoesOn(w, StepStatus(env, w, p, status).0)
    ensures forall i :: |w.log| <= i < |StepStatus(env, w, p, status).0.log| ==>
      StepStatus(env, w, p, status).0.log[i].Recorded?
  {}

  /** What holds of every event of every step holds of every event of a run. */
  lemma {:induction false} IterateAccounts(
    f: World -> World, accounted: (World, nat, Event) -> bool, w: World, n: nat, i: nat)
    requires forall x :: GoesOn(x, f(x))
    requires forall x: World, j: nat :: |x.log| <= j < |f(x).log| ==> accounted(x, j, f(x).log[j])
    requires |w.log| <= i < |Iterate(f, w, n).log|
    ensures exists m: nat :: m < n && accounted(Iterate(f, w, m), i, Iterate(f, w, n).log[i])
  {
    if n > 0 {
      var x := Iterate(f, w, n - 1);
      if i < |x.log| {
        IterateAccounts(f, accounted, w, n - 1, i);
        assert GoesOn(x, f(x));
        assert f(x).log[i] == f(x).log[..|x.log|][i] == x.log[i];
        var m: nat :| m < n - 1 && accounted(Iterate(f, w, m), i, x.log[i]);
        assert m < n && accounted(Iterate(f, w, m), i, Iterate(f, w, n).log[i]);
      } else {
        assert accounted(Iterate(f, w, n - 1), i, Iterate(f, w, n).log[i]);
      }
    }
  }

  /** Over every run, failed and interleaved ones included, whatever the Phare and the other
      clients do in the meantime: every removal among workloads and routes is accounted for. */
  lemma RemovalsAccountedFor(env: Env, w: World, n: nat, i: nat)
    requires |w.log| <= i < |Run(env, w, n).log|
    ensures exists m: nat :: m < n && AccountedFor(env, Run(env, w, m), i, Run(env, w, n).log[i])
  {
    EveryStepAccounts(env);
    var accounted := (x: World, j: nat, e: Event) => AccountedFor(env, x, j, e);
    IterateAccounts(Next(env), accounted, w, n, i);
    var m: nat :| m < n && accounted(Iterate(Next(env), w, m), i, Iterate(Next(env), w, n).log[i]);
    assert AccountedFor(env, Run(env, w, m), i, Run(env, w, n).log[i]);
  }

  lemma EveryStepAccounts(env: Env)
    ensures forall x :: GoesOn(x, Next(env)(x))
    ensures forall x: World, j: nat :: |x.log| <= j < |Next(env)(x).log| ==>
      AccountedFor(env, x, j, Next(env)(x).log[j])
  {
    forall x ensures GoesOn(x, Next(env)(x)) {
      ReconcileAccounts(env, x);
    }
    forall x: World, j: nat | |x.log| <= j < |Next(env)(x).log| ensures AccountedFor(env, x, j, Next(env)(x).log[j]) {
      ReconcileAccounts(env, x);
    }
  }

  /** Other clients may delete what the Phare controls and adopt what nobody controls, but
      do not put another object in the place of a controlled one in one go. */
  ghost predicate NoSwaps(env: Env, uid: string) {
    forall n, s, k :: Protected(k) && Controlled(s, k, uid) && Present(env.others(n, s), k) ==>
      env.others(n, s).objects[k].owner == Some(uid)
  }

  /** Event `i` removes an object of the Phare's that the reconcile from `x` fetched. */
  ghost predicate RemovedOwn(env: Env, x: World, i: nat, e: Event) {
    var got := DoFetch(env, x).1;
    |x.log| <= i < |StepReconcile(env, x).0.log| && got.Found? && e.Removed? && e.owner == Some(got.value.uid)
  }

  lemma AccountedWithoutSwaps(env: Env, x: World, i: nat, e: Event)
    requires AccountedFor(env, x, i, e) && e.Removed? && Protected(e.kind)
    requires DoFetch(env, x).1.Found? ==> NoSwaps(env, DoFetch(env, x).1.value.uid)
    ensures RemovedOwn(env, x, i, e)
  {}

  /** So without such swaps every run removes its own objects only. */
  lemma RunRemovesOwnOnly(env: Env, w: World, n: nat, i: nat)
    requires forall uid :: NoSwaps(env, uid)
    requires |w.log| <= i < |Run(env, w, n).log|
    requires Run(env, w, n).log[i].Removed? && Protected(Run(env, w, n).log[i].kind)
    ensures exists m: nat :: m < n && RemovedOwn(env, Run(env, w, m), i, Run(env, w, n).log[i])
  {
    RemovalsAccountedFor(env, w, n, i);
    var m: nat :| m < n && AccountedFor(env, Run(env, w, m), i, Run(env, w, n).log[i]);
    AccountedWithoutSwaps(env, Run(env, w, m), i, Run(env, w, n).log[i]);
  }

  // ---------- exactly when something foreign is removed ----------

  predicate Removes(w: World, t: World) {
    exists i :: |w.log| <= i < |t.log| && t.log[i].Removed?
  }

  predicate RemovesForeign(w: World, t: World, uid: string) {
    exists i :: |w.log| <= i < |t.log| && t.log[i].Removed? && t.log[i].owner != Some(uid)
  }

  lemma OneRemoval(w: World, t: World, e: Event, uid: string)
    requires t.log == w.log + [e] && e.Removed?
    ensures Removes(w, t) && (RemovesForeign(w, t, uid) <==> e.owner != Some(uid))
  {
    assert t.log[|w.log|] == e;
  }

  /** Deletion is by name, after a look.  It removes a foreign object exactly when the look
      shows an object of the Phare's, the deletion is not refused, and by then somebody
      else's object has the name. */
  lemma ForeignRemovedIffSwapped(env: Env, w: World, k: Kind, uid: string)
    ensures var s := env.others(w.clock, w.store); var t := env.others(w.clock + 1, s);
      RemovesForeign(w, StepDeleteOwned(env, w, k, uid).0, uid) <==>
        && env.outcome(w.clock).Works? && Controlled(s, k, uid)
        && !env.outcome(w.clock + 1).Refused? && Present(t, k) && t.objects[k].owner != Some(uid)
  {
    var log := StepDeleteOwned(env, w, k, uid).0.log;
    assert log == w.log || (|log| == |w.log| + 1 && log[|w.log|] == log[|log|-1]);
  }

  /** Service clean-up does not look at the owner: exactly when the Phare asks for no Service
      and one is found, whatever has the name when the deletion arrives goes. */
  lemma ServiceGoesUnchecked(env: Env, w: World, p: Phare)
    ensures var s := env.others(w.clock, w.store); var t := env.others(w.clock + 1, s);
      var gone := p.service.None? && env.outcome(w.clock).Works? && Present(s, ServiceKind) &&
        !env.outcome(w.clock + 1).Refused? && Present(t, ServiceKind);
      && (Removes(w, StepService(env, w, p).0) <==> gone)
      && (RemovesForeign(w, StepService(env, w, p).0, p.uid) <==> gone && t.objects[ServiceKind].owner != Some(p.uid))
  {
    var r, s := StepService(env, w, p).0, env.others(w.clock, w.store);
    var t := env.others(w.clock + 1, s);
    var owner := if Present(t, ServiceKind) then t.objects[ServiceKind].owner else None;
    if r.log == w.log + [Removed(ServiceKind, owner)] {
      OneRemoval(w, r, r.log[|w.log|], p.uid);
    } else {
      assert forall i :: |w.log| <= i < |r.log| ==> !r.log[i].Removed?;
    }
  }

  /** Nor does ConfigMap clean-up. */
  lemma ConfigMapGoesUnchecked(env: Env, w: World, p: Phare)
    ensures var s := env.others(w.clock, w.store); var t := env.others(w.clock + 1, s);
      var gone := Config(p).None? && env.outcome(w.clock).Works? && Present(s, ConfigMapKind) &&
        !env.outcome(w.clock + 1).Refused? && Present(t, ConfigMapKind);
      && (Removes(w, StepConfigMap(env, w, p).0) <==> gone)
      && (RemovesForeign(w, StepConfigMap(env, w, p).0, p.uid) <==>
           gone && t.objects[ConfigMapKind].owner != Some(p.uid))
  {
    var r, s := StepConfigMap(env, w, p).0, env.others(w.clock, w.store);
    var t := env.others(w.clock + 1, s);
    var owner := if Present(t, ConfigMapKind) then t.objects[ConfigMapKind].owner else None;
    if r.log == w.log + [Removed(ConfigMapKind, owner)] {
      OneRemoval(w, r, r.log[|w.log|], p.uid);
    } else {
      assert forall i :: |w.log| <= i < |r.log| ==> !r.log[i].Removed?;
    }
  }
}
