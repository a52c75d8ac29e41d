/** The life of a Bucket resource when nothing goes wrong, from any state of the others: it claims the bucket it names,
    records it, removes it and is let go; and resources that name no bucket keep apart. */
module BucketLife {
  import opened Wrappers
  import opened Buckets
  import opened BucketRuns

  /** The bucket a resource asks for: the one its spec names, or else the one called like the resource. */
  function Target(name: string, spec: Spec): string {
    if spec.bucketName != "" then spec.bucketName else name
  }

  predicate CanStart(s: State, u: Uid, name: string, spec: Spec) {
    u !in s.resources && NameFree(s, name) && spec.providerConfig != "" && Target(name, spec) !in s.store
  }

  /** The resource holds the lock of its bucket, which is empty and its own; nothing else has changed. */
  predicate Settled(s: State, u: Uid, name: string, spec: Spec, t: State) {
    && u in t.resources && t.resources == s.resources[u := t.resources[u]]
    && t.store == s.store[Target(name, spec) := Stored(Owned(u), spec.zone, {})]
    && var b := t.resources[u];
       && b.name == name && b.spec == spec && b.lock
       && !b.pending && !b.gone && !b.AlreadyDeleted()
  }

  /** Creating a resource whose bucket is free and reconciling it once makes exactly that bucket and takes the lock. */
  lemma ClaimsItsTarget(s: State, u: Uid, name: string, spec: Spec)
    requires CanStart(s, u, name, spec)
    ensures var t := Apply(Apply(s, ApiCreate(u, name, spec, false)), Reconcile(u, FINE));
            && Settled(s, u, name, spec, t) && !t.resources[u].deleting && t.resources[u].statusName == ""
            && FindCondition(t.resources[u].conditions, Ready) == Some(CREATING)
            && FindCondition(t.resources[u].conditions, Synced) == Some(SUCCESS)
  {
    var b := Submitted(name, spec, false);
    var made := Apply(s, ApiCreate(u, name, spec, false));
    assert made.resources[u] == b && !b.AlreadyDeleted();
    MarksOfReconcile(b);
    BothConditions(b, CREATING, SUCCESS);
    assert ReconcileOne(u, b, s.store, FINE) == ReconcileCreate(u, b, s.store, FINE);
  }

  lemma BothConditions(b: Bucket, ready: Condition, synced: Condition)
    requires ready.ctype == Ready && synced.ctype == Synced
    ensures FindCondition(b.Mark(ready, synced).conditions, Ready) == Some(ready)
    ensures FindCondition(b.Mark(ready, synced).conditions, Synced) == Some(synced)
  {
    FindAfterSet(b.conditions, ready, Ready);
    FindAfterSet(SetCondition(b.conditions, ready), synced, Ready);
    FindAfterSet(SetCondition(b.conditions, ready), synced, Synced);
  }

  /** The next reconcile records the name of the bucket and reports the resource as available. */
  lemma RecordsItsTarget(s: State, u: Uid, name: string, spec: Spec, t: State)
    requires Settled(s, u, name, spec, t) && !t.resources[u].deleting
    ensures var r := Apply(t, Reconcile(u, FINE));
            && Settled(s, u, name, spec, r) && !r.resources[u].deleting
            && r.resources[u].statusName == Target(name, spec)
            && FindCondition(r.resources[u].conditions, Ready) == Some(AVAILABLE)
            && FindCondition(r.resources[u].conditions, Synced) == Some(SUCCESS)
  {
    var b := t.resources[u];
    MarksOfReconcile(b);
    BothConditions(b, AVAILABLE, SUCCESS);
    assert Observe(b, BucketExists(t.store, b.GetBucketName(), b.spec.zone, false)) == (Seen(b), Existing);
  }

  /** Deleting the resource and reconciling it removes its bucket, and nothing else, under either deletion policy; one
      more reconcile lets it go. Under Orphan the first one does, and the bucket stays. */
  lemma RemovesItsTarget(s: State, u: Uid, name: string, spec: Spec, t: State)
    requires Target(name, spec) !in s.store && Settled(s, u, name, spec, t)
    ensures var d := Apply(Apply(t, ApiDelete(u)), Reconcile(u, FINE));
            && u in d.resources && d.resources == s.resources[u := d.resources[u]]
            && (if spec.orphan then d.resources[u].gone && d.store == t.store
                else
                  && d.store == s.store && !d.resources[u].gone && d.resources[u].AlreadyDeleted()
                  && var g := Apply(d, Reconcile(u, FINE));
                     g.resources[u].gone && g.store == s.store && g.resources == s.resources[u := g.resources[u]])
  {
    var b := t.resources[u].(deleting := true);
    assert Apply(t, ApiDelete(u)).resources[u] == b;
    if !spec.orphan {
      assert ReachesDelete(b, t.store, FINE);
      assert Observe(b, BucketExists(t.store, b.GetBucketName(), b.spec.zone, false)) == (Seen(b), Existing);
      DeleteSucceedsIff(Seen(b), t.store, FINE.sweep, Performed);
      DeletedMarkIff(Seen(b), DELETING, SUCCESS);
      assert t.store - {Target(name, spec)} == s.store;
    }
  }

  // ---- Resources that name no bucket ----

  predicate NamesApart(s: State) {
    forall u, v :: u in s.resources && v in s.resources && u != v ==>
      s.resources[u].gone || s.resources[v].gone || s.resources[u].name != s.resources[v].name
  }

  lemma NamesApartStep(s: State, step: Step)
    requires NamesApart(s)
    ensures NamesApart(Apply(s, step))
  {
    if step.Reconcile? && step.u in s.resources {
      ReconcileRecordsResolvedName(step.u, s.resources[step.u], s.store, step.faults);
      GoneIsFinal(step.u, s.resources[step.u], s.store, step.faults);
    }
  }

  lemma GoneIsFinal(u: Uid, b: Bucket, store: Store, f: Faults)
    ensures b.gone ==> ReconcileOne(u, b, store, f).0 == b
  {
  }

  lemma {:induction false} NamesApartRun(s: State, steps: seq<Step>)
    requires NamesApart(s)
    ensures NamesApart(Run(s, steps))
    decreases |steps|
  {
    if steps != [] {
      NamesApartStep(s, steps[0]);
      NamesApartRun(Apply(s, steps[0]), steps[1..]);
    }
  }

  /** Whatever happened before and whatever fails now, two resources that name no bucket never make the same one. */
  lemma UnsetNamesStayApart(steps: seq<Step>, u: Uid, v: Uid, f: Faults, g: Faults, n: string)
    requires var s := Run(INITIAL, steps);
             && u in s.resources && v in s.resources && u != v
             && s.resources[u].spec.bucketName == "" && s.resources[v].spec.bucketName == "" && n !in s.store
    ensures var s := Run(INITIAL, steps);
            n in Apply(s, Reconcile(u, f)).store ==> n !in Apply(s, Reconcile(v, g)).store
  {
    NamesApartRun(INITIAL, steps);
    var s := Run(INITIAL, steps);
    MakesBucketIff(u, s.resources[u], s.store, f, n);
    MakesBucketIff(v, s.resources[v], s.store, g, n);
  }
}
