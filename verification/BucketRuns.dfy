/** Runs of any number of Bucket resources over one storage: API calls, reconciles, and what
    happens around them. One reconcile is one step (the controller has one worker). */
module BucketRuns {
  import opened Buckets

  /** Everything that can go wrong during one reconcile. */
  datatype Faults = Faults(
    connectFails: bool, observeFails: bool, make: CallFate, recheckFails: bool,
    sweep: Sweep, remove: CallFate,
    statusLost: bool, annotationsLost: bool, finalizerFails: bool)

  const FINE := Faults(false, false, Performed, false, Sweep([], {}, 0), Performed, false, false, false)

  /** Only the status part of `after` is written by a status update; a lost write changes nothing. */
  function WriteStatus(stored: Bucket, after: Bucket, lost: bool): Bucket {
    if lost then stored else stored.(statusName := after.statusName, conditions := after.conditions)
  }

  function Release(b: Bucket, f: Faults): Bucket {
    if f.finalizerFails then WriteStatus(b, b.Mark(DELETING, FAILURE), f.statusLost) else b.(gone := true)
  }

  /** The creation half of a reconcile. The pending mark is written before Create runs and cleared
      together with writing the annotations; if that write is lost the mark stays and the lock is lost. */
  function ReconcileCreate(u: Uid, b: Bucket, store: Store, f: Faults): (r: (Bucket, Store)) {
    var (created, made, ok) := Create(u, b, store, f.make, f.recheckFails);
    if f.annotationsLost then
      (WriteStatus(b.(pending := true), b.Mark(CREATING, FAILURE), f.statusLost), made)
    else
      (WriteStatus(created, b.Mark(CREATING, if ok then SUCCESS else FAILURE), f.statusLost), made)
  }

  function ReconcileDelete(b: Bucket, seen: Bucket, store: Store, f: Faults): (r: (Bucket, Store)) {
    var (after, ok) := Delete(seen, store, f.sweep, f.remove);
    (WriteStatus(b, seen.Mark(DELETING, if ok then SUCCESS else FAILURE), f.statusLost), after)
  }

  function ReconcileOne(u: Uid, b: Bucket, store: Store, f: Faults): (r: (Bucket, Store)) {
    if b.gone then (b, store)
    else if b.deleting && b.spec.orphan then (Release(b, f), store)
    else if b.pending then (WriteStatus(b, b.Mark(CREATING, FAILURE), f.statusLost), store)
    else if b.AlreadyDeleted() then
      // The no-op client: nothing exists, and creating does nothing.
      if b.deleting then (Release(b, f), store)
      else (WriteStatus(b, b.Mark(CREATING, SUCCESS), f.statusLost), store)
    else if f.connectFails then
      (WriteStatus(b, b.(conditions := SetCondition(b.conditions, FAILURE)), f.statusLost), store)
    else
      var (seen, observation) := Observe(b, BucketExists(store, b.GetBucketName(), b.spec.zone, f.observeFails));
      match observation
      case ObserveError =>
        (WriteStatus(b, b.(conditions := SetCondition(b.conditions, FAILURE)), f.statusLost), store)
      case NotExisting =>
        if b.deleting then (Release(b, f), store) else ReconcileCreate(u, b, store, f)
      case Existing =>
        if b.deleting then ReconcileDelete(b, seen, store, f)
        else (WriteStatus(b, seen.(conditions := SetCondition(seen.conditions, SUCCESS)), f.statusLost), store)
  }

  // ---- The transition system ----

  datatype State = State(resources: map<Uid, Bucket>, store: Store)

  datatype Step =
    | ApiCreate(u: Uid, name: string, spec: Spec, lock: bool)
    | ApiUpdate(u: Uid, spec: Spec, lock: bool)
    | ApiDelete(u: Uid)
    | Reconcile(u: Uid, faults: Faults)
    | PutObject(bucket: string, key: string)
    | DropObject(bucket: string, key: string)
    | ForeignMake(bucket: string, zone: string)
    | ForeignRemove(bucket: string)
    | OutOfBandRemove(bucket: string)

  const INITIAL := State(map[], map[])

  predicate NameFree(s: State, name: string) {
    forall u :: u in s.resources ==> s.resources[u].gone || s.resources[u].name != name
  }

  function Submitted(name: string, spec: Spec, lock: bool): Bucket {
    Bucket(name, spec, lock, "", [], false, false, false)
  }

  predicate Creates(s: State, u: Uid, b: Bucket) {
    u !in s.resources && NameFree(s, b.name) && ValidateCreate(b).Ok?
  }

  predicate Updates(s: State, u: Uid, spec: Spec, lock: bool) {
    && u in s.resources && !s.resources[u].gone
    && ValidateUpdate(s.resources[u], s.resources[u].(spec := spec, lock := lock)).Ok?
  }

  /** A step that is refused, or that has nothing to act on, leaves the state as it is. */
  function Apply(s: State, step: Step): State {
    match step
    case ApiCreate(u, name, spec, lock) =>
      var b := Submitted(name, spec, lock);
      if Creates(s, u, b) then s.(resources := s.resources[u := b]) else s
    case ApiUpdate(u, spec, lock) =>
      if Updates(s, u, spec, lock) then
        s.(resources := s.resources[u := s.resources[u].(spec := spec, lock := lock)])
      else s
    case ApiDelete(u) =>
      if u in s.resources then s.(resources := s.resources[u := s.resources[u].(deleting := true)]) else s
    case Reconcile(u, f) =>
      if u in s.resources then
        var (b, store) := ReconcileOne(u, s.resources[u], s.store, f);
        State(s.resources[u := b], store)
      else s
    case PutObject(n, k) =>
      if n in s.store then s.(store := s.store[n := s.store[n].(objects := s.store[n].objects + {k})]) else s
    case DropObject(n, k) =>
      if n in s.store then s.(store := s.store[n := s.store[n].(objects := s.store[n].objects - {k})]) else s
    case ForeignMake(n, z) =>
      if n in s.store then s else s.(store := s.store[n := Stored(Foreign, z, {})])
    case ForeignRemove(n) =>
      if n in s.store && s.store[n].creator.Foreign? then s.(store := s.store - {n}) else s
    case OutOfBandRemove(n) => s.(store := s.store - {n})
  }

  function Run(s: State, steps: seq<Step>): State
    decreases |steps|
  {
    if steps == [] then s else Run(Apply(s, steps[0]), steps[1..])
  }

  // ---- What a step must spare ----

  /** The bucket a resource resolves to exists and was created for that resource. */
  predicate Owns(u: Uid, b: Bucket, store: Store) {
    b.GetBucketName() in store && store[b.GetBucketName()].creator == Owned(u)
  }

  /** Nobody gives the lock annotation to a resource that does not own its bucket. */
  predicate LockEarned(s: State, step: Step) {
    match step
    case ApiCreate(u, name, spec, lock) =>
      lock && Creates(s, u, Submitted(name, spec, lock)) ==> Owns(u, Submitted(name, spec, lock), s.store)
    case ApiUpdate(u, spec, lock) =>
      lock && Updates(s, u, spec, lock) && !s.resources[u].lock && !s.resources[u].AlreadyDeleted() ==>
        Owns(u, s.resources[u].(spec := spec, lock := lock), s.store)
    case _ => true
  }

  /** A holder of the lock is not renamed to a bucket that it does not own. The webhook sees to this once the bucket
      name is recorded, so it is about the time between taking the lock and the Observe that records the name. */
  predicate NameKept(s: State, step: Step) {
    step.ApiUpdate? && step.lock && Updates(s, step.u, step.spec, step.lock) && s.resources[step.u].Holds() ==>
      Owns(step.u, s.resources[step.u].(spec := step.spec, lock := step.lock), s.store)
  }

  /** Nobody removes a held bucket behind the controller's back. */
  predicate BucketKept(s: State, step: Step) {
    step.OutOfBandRemove? ==>
      forall u :: u in s.resources && s.resources[u].Holds() ==> s.resources[u].GetBucketName() != step.bucket
  }

  /** The bucket goes, and this is not reported to Delete or the deletion mark is not written. */
  predicate LosesBucket(b: Bucket, store: Store, f: Faults) {
    && ReachesDelete(b, store, f) && Removable(Seen(b), store, f.sweep) && !f.remove.Refused?
    && (f.remove.ReplyLost? || f.statusLost)
  }

  /** A failure to drop the finalizer overwrites the deletion mark of a locked resource without a bucket. */
  predicate LosesMark(u: Uid, b: Bucket, store: Store, f: Faults) {
    b.AlreadyDeleted() && b.lock && !b.gone && f.finalizerFails && !f.statusLost && !Owns(u, b, store)
  }

  predicate RemovalRecorded(s: State, step: Step) {
    step.Reconcile? && step.u in s.resources ==> !LosesBucket(s.resources[step.u], s.store, step.faults)
  }

  predicate MarkPreserved(s: State, step: Step) {
    step.Reconcile? && step.u in s.resources ==> !LosesMark(step.u, s.resources[step.u], s.store, step.faults)
  }

  predicate Spares(s: State, step: Step) {
    && LockEarned(s, step) && NameKept(s, step) && BucketKept(s, step)
    && RemovalRecorded(s, step) && MarkPreserved(s, step)
  }

  predicate SparingRun(s: State, steps: seq<Step>)
    decreases |steps|
  {
    steps == [] || (Spares(s, steps[0]) && SparingRun(Apply(s, steps[0]), steps[1..]))
  }

  // ---- Invariants ----

  predicate WellOwned(u: Uid, b: Bucket, store: Store) {
    b.Holds() ==> Owns(u, b, store)
  }

  /** Every holder of a lock owns its bucket. */
  predicate OwnershipState(s: State) {
    forall u :: u in s.resources ==> WellOwned(u, s.resources[u], s.store)
  }

  predicate Recorded(b: Bucket) {
    b.statusName != "" ==> b.statusName == b.GetBucketName()
  }

  predicate RecordedState(s: State) {
    forall u :: u in s.resources ==> Recorded(s.resources[u])
  }

  /** The deletion mark is only ever on a resource that is being deleted and has no unfinished creation. */
  predicate MarkInOrder(b: Bucket) {
    b.AlreadyDeleted() ==> b.deleting && !b.pending
  }

  predicate MarksState(s: State) {
    forall u :: u in s.resources ==> MarkInOrder(s.resources[u])
  }

  // ---- Recorded name: holds in every run ----

  /** The name, the spec, and either the recorded name or the resolved one. */
  predicate KeepsNames(b: Bucket, after: Bucket) {
    && after.name == b.name && after.spec == b.spec
    && (after.statusName == b.statusName || after.statusName == b.GetBucketName())
  }

  lemma StatusKeepsNames(b: Bucket, stored: Bucket, after: Bucket, lost: bool)
    requires KeepsNames(b, stored) && KeepsNames(b, after)
    ensures KeepsNames(b, WriteStatus(stored, after, lost))
  {
  }

  lemma CreateKeepsNames(u: Uid, b: Bucket, store: Store, f: Faults)
    ensures KeepsNames(b, ReconcileCreate(u, b, store, f).0)
  {
  }

  lemma DeleteKeepsNames(b: Bucket, seen: Bucket, store: Store, f: Faults)
    requires KeepsNames(b, seen)
    ensures KeepsNames(b, ReconcileDelete(b, seen, store, f).0)
  {
    var ok := Delete(seen, store, f.sweep, f.remove).1;
    StatusKeepsNames(b, b, seen.Mark(DELETING, if ok then SUCCESS else FAILURE), f.statusLost);
  }

  /** A reconcile leaves the spec alone, and records no other name than the one the spec resolves to. */
  lemma ReconcileRecordsResolvedName(u: Uid, b: Bucket, store: Store, f: Faults)
    ensures KeepsNames(b, ReconcileOne(u, b, store, f).0)
  {
    if b.gone || (b.deleting && (b.spec.orphan || (!b.pending && b.AlreadyDeleted()))) {
      ReleaseKeepsNames(b, f);
    } else if b.pending {
      StatusKeepsNames(b, b, b.Mark(CREATING, FAILURE), f.statusLost);
    } else if b.AlreadyDeleted() {
      StatusKeepsNames(b, b, b.Mark(CREATING, SUCCESS), f.statusLost);
    } else if f.connectFails {
      StatusKeepsNames(b, b, b.(conditions := SetCondition(b.conditions, FAILURE)), f.statusLost);
    } else {
      ObservedKeepsNames(u, b, store, f);
    }
  }

  lemma ReleaseKeepsNames(b: Bucket, f: Faults)
    ensures KeepsNames(b, Release(b, f))
  {
    StatusKeepsNames(b, b, b.Mark(DELETING, FAILURE), f.statusLost);
  }

  lemma ObservedKeepsNames(u: Uid, b: Bucket, store: Store, f: Faults)
    requires !b.gone && !(b.deleting && b.spec.orphan) && !b.pending && !b.AlreadyDeleted() && !f.connectFails
    ensures KeepsNames(b, ReconcileOne(u, b, store, f).0)
  {
    var (seen, observation) := Observe(b, BucketExists(store, b.GetBucketName(), b.spec.zone, f.observeFails));
    match observation
    case ObserveError => StatusKeepsNames(b, b, b.(conditions := SetCondition(b.conditions, FAILURE)), f.statusLost);
    case NotExisting =>
      ReleaseKeepsNames(b, f);
      CreateKeepsNames(u, b, store, f);
    case Existing =>
      DeleteKeepsNames(b, seen, store, f);
      StatusKeepsNames(b, b, seen.(conditions := SetCondition(seen.conditions, SUCCESS)), f.statusLost);
  }

  lemma RecordedStep(s: State, step: Step)
    requires RecordedState(s)
    ensures RecordedState(Apply(s, step))
    ensures forall u :: u in s.resources && s.resources[u].statusName != "" ==>
              var before, after := s.resources[u], Apply(s, step).resources[u];
              after.statusName == before.statusName && after.GetBucketName() == before.GetBucketName() &&
              after.spec.zone == before.spec.zone
    ensures s.resources.Keys <= Apply(s, step).resources.Keys
  {
    if step.Reconcile? && step.u in s.resources {
      ReconcileRecordsResolvedName(step.u, s.resources[step.u], s.store, step.faults);
    }
  }

  lemma {:induction false} RecordedRun(s: State, steps: seq<Step>)
    requires RecordedState(s)
    decreases |steps|
    ensures RecordedState(Run(s, steps))
    ensures s.resources.Keys <= Run(s, steps).resources.Keys
    ensures forall u :: u in s.resources && s.resources[u].statusName != "" ==>
              var before, after := s.resources[u], Run(s, steps).resources[u];
              after.statusName == before.statusName && after.GetBucketName() == before.GetBucketName() &&
              after.spec.zone == before.spec.zone
  {
    if steps != [] {
      RecordedStep(s, steps[0]);
      RecordedRun(Apply(s, steps[0]), steps[1..]);
    }
  }

  /** In every run: a recorded bucket name is the name the spec resolves to, and from the moment it is
      recorded the name and the zone are frozen whatever happens next. */
  lemma RecordedNameIsFrozen(before: seq<Step>, later: seq<Step>, u: Uid)
    requires u in Run(INITIAL, before).resources
    ensures var s := Run(INITIAL, before);
            var t := Run(s, later);
            u in t.resources && Recorded(s.resources[u]) &&
            (s.resources[u].statusName != "" ==>
               t.resources[u].statusName == t.resources[u].GetBucketName() == s.resources[u].statusName &&
               t.resources[u].spec.zone == s.resources[u].spec.zone)
  {
    RecordedRun(INITIAL, before);
    RecordedRun(Run(INITIAL, before), later);
  }

  // ---- The deletion mark is in order in every run ----

  /** The single-condition writes of a reconcile never produce the deletion mark. */
  lemma MarksOfReconcile(b: Bucket)
    ensures !IsDeletedMark(SetCondition(b.conditions, FAILURE))
    ensures !IsDeletedMark(SetCondition(b.conditions, AVAILABLE))
    ensures !IsDeletedMark(SetCondition(SetCondition(b.conditions, AVAILABLE), SUCCESS))
    ensures !b.Mark(CREATING, SUCCESS).AlreadyDeleted() && !b.Mark(CREATING, FAILURE).AlreadyDeleted()
    ensures !b.Mark(DELETING, FAILURE).AlreadyDeleted()
  {
    FindAfterSet(b.conditions, FAILURE, Synced);
    FindAfterSet(b.conditions, AVAILABLE, Ready);
    FindAfterSet(SetCondition(b.conditions, AVAILABLE), SUCCESS, Ready);
    DeletedMarkIff(b, CREATING, SUCCESS);
    DeletedMarkIff(b, CREATING, FAILURE);
    DeletedMarkIff(b, DELETING, FAILURE);
  }

  /** The same resource, still without the deletion mark. */
  predicate Plain(b: Bucket, after: Bucket) {
    after.name == b.name && after.spec == b.spec && after.lock == b.lock && !after.AlreadyDeleted()
  }

  lemma StatusIsPlain(b: Bucket, after: Bucket, lost: bool)
    requires !b.AlreadyDeleted() && !after.AlreadyDeleted()
    ensures Plain(b, WriteStatus(b, after, lost))
  {
  }

  /** A reconcile without the mark, outside Delete and Release under Orphan, is a Create on a free name, or leaves the
      storage alone and the mark unset. */
  lemma UnmarkedReconcile(u: Uid, b: Bucket, store: Store, f: Faults)
    requires !b.gone && !b.AlreadyDeleted() && !(b.deleting && b.spec.orphan) && !ReachesDelete(b, store, f)
    ensures var (after, left) := ReconcileOne(u, b, store, f);
            || (b.GetBucketName() !in store && ReconcileOne(u, b, store, f) == ReconcileCreate(u, b, store, f))
            || (left == store && Plain(b, after))
  {
    MarksOfReconcile(b);
    StatusIsPlain(b, b.Mark(CREATING, FAILURE), f.statusLost);
    StatusIsPlain(b, b.Mark(DELETING, FAILURE), f.statusLost);
    StatusIsPlain(b, b.(conditions := SetCondition(b.conditions, FAILURE)), f.statusLost);
    if !b.pending && !f.connectFails {
      var (seen, observation) := Observe(b, BucketExists(store, b.GetBucketName(), b.spec.zone, f.observeFails));
      match observation
      case ObserveError =>
      case NotExisting => assert b.GetBucketName() !in store;
      case Existing =>
        StatusIsPlain(b, seen.(conditions := SetCondition(seen.conditions, SUCCESS)), f.statusLost);
    }
  }

  lemma CreateKeepsUnmarked(u: Uid, b: Bucket, store: Store, f: Faults)
    requires !b.AlreadyDeleted()
    ensures !ReconcileCreate(u, b, store, f).0.AlreadyDeleted()
  {
    MarksOfReconcile(b);
  }

  lemma ReconcileKeepsMarkInOrder(u: Uid, b: Bucket, store: Store, f: Faults)
    requires MarkInOrder(b)
    ensures MarkInOrder(ReconcileOne(u, b, store, f).0)
  {
    if b.gone || (b.deleting && (b.spec.orphan || b.AlreadyDeleted())) {
      MarksOfReconcile(b);
    } else if ReachesDelete(b, store, f) {
      assert Observe(b, BucketExists(store, b.GetBucketName(), b.spec.zone, f.observeFails)) == (Seen(b), Existing);
    } else {
      UnmarkedReconcile(u, b, store, f);
      CreateKeepsUnmarked(u, b, store, f);
    }
  }

  lemma MarksStep(s: State, step: Step)
    requires MarksState(s)
    ensures MarksState(Apply(s, step))
  {
    if step.Reconcile? && step.u in s.resources {
      ReconcileKeepsMarkInOrder(step.u, s.resources[step.u], s.store, step.faults);
    } else if step.ApiCreate? {
      assert !Submitted(step.name, step.spec, step.lock).AlreadyDeleted();
    }
  }

  lemma {:induction false} MarksRun(s: State, steps: seq<Step>)
    requires MarksState(s)
    ensures MarksState(Run(s, steps))
    decreases |steps|
  {
    if steps != [] {
      MarksStep(s, steps[0]);
      MarksRun(Apply(s, steps[0]), steps[1..]);
    }
  }

  // ---- Ownership ----

  /** A Create on a free name leaves a lock only on the own bucket, and every bucket that was there as it was. */
  lemma CreateIsSafe(u: Uid, b: Bucket, store: Store, f: Faults)
    requires WellOwned(u, b, store) && !b.gone && !b.AlreadyDeleted() && b.GetBucketName() !in store
    ensures var (after, left) := ReconcileCreate(u, b, store, f);
            && WellOwned(u, after, left)
            && (forall n :: n in store ==> n in left && left[n] == store[n])
            && (forall n :: n in left && n !in store ==> n == b.GetBucketName() && left[n].creator == Owned(u))
  {
    assert !b.lock;
    var (created, made, ok) := Create(u, b, store, f.make, f.recheckFails);
    assert made == store || made == store[b.GetBucketName() := Stored(Owned(u), b.spec.zone, {})];
    assert ok ==> b.GetBucketName() in made;
  }

  lemma ReleaseKeepsOwnershipIff(u: Uid, b: Bucket, store: Store, f: Faults)
    requires WellOwned(u, b, store) && !b.gone
    ensures WellOwned(u, Release(b, f), store) <==> !LosesMark(u, b, store, f)
  {
    MarksOfReconcile(b);
  }

  /** A Delete of the own bucket keeps ownership unless the bucket goes without the deletion mark being written. */
  lemma DeleteKeepsOwnershipIff(u: Uid, b: Bucket, store: Store, f: Faults)
    requires ReachesDelete(b, store, f) && Owns(u, b, store)
    ensures var (after, left) := ReconcileDelete(b, Seen(b), store, f);
            WellOwned(u, after, left) <==> !LosesBucket(b, store, f)
  {
    DeletedMarkIff(Seen(b), DELETING, SUCCESS);
    DeletedMarkIff(Seen(b), DELETING, FAILURE);
    DeleteSucceedsIff(Seen(b), store, f.sweep, f.remove);
    DeleteKeepsDataOnFailure(Seen(b), store, f.sweep, f.remove);
  }

  /** A whole reconcile keeps the ownership of its resource if and only if it loses neither the bucket nor the mark. */
  lemma ReconcileKeepsOwnershipIff(u: Uid, b: Bucket, store: Store, f: Faults)
    requires WellOwned(u, b, store) && MarkInOrder(b)
    ensures var (after, left) := ReconcileOne(u, b, store, f);
            WellOwned(u, after, left) <==> !LosesBucket(b, store, f) && !LosesMark(u, b, store, f)
  {
    if b.gone {
    } else if b.deleting && (b.spec.orphan || b.AlreadyDeleted()) {
      ReleaseKeepsOwnershipIff(u, b, store, f);
    } else if ReachesDelete(b, store, f) {
      assert Observe(b, BucketExists(store, b.GetBucketName(), b.spec.zone, f.observeFails)) == (Seen(b), Existing);
      DeleteKeepsOwnershipIff(u, b, store, f);
    } else {
      UnmarkedReconcile(u, b, store, f);
      if b.GetBucketName() !in store {
        CreateIsSafe(u, b, store, f);
      }
    }
  }

  /** One step from a state in which every holder owns its bucket: it stays so if and only if the step spares it. */
  lemma StepKeepsOwnershipIff(s: State, step: Step)
    requires OwnershipState(s) && MarksState(s)
    ensures OwnershipState(Apply(s, step)) <==> Spares(s, step)
  {
    match step
    case Reconcile(u, f) => ReconcileStepIff(s, u, f);
    case ApiCreate(u, name, spec, lock) => CreateStepIff(s, step);
    case ApiUpdate(u, spec, lock) => UpdateStepIff(s, step);
    case _ => OtherStepIff(s, step);
  }

  lemma ReconcileStepIff(s: State, u: Uid, f: Faults)
    requires OwnershipState(s) && MarksState(s)
    ensures OwnershipState(Apply(s, Reconcile(u, f))) <==> Spares(s, Reconcile(u, f))
  {
    if u in s.resources {
      var b := s.resources[u];
      var (after, left) := ReconcileOne(u, b, s.store, f);
      assert WellOwned(u, b, s.store) && MarkInOrder(b);
      ReconcileKeepsOwnershipIff(u, b, s.store, f);
      forall v | v in s.resources && v != u
        ensures WellOwned(v, s.resources[v], left)
      {
        assert WellOwned(v, s.resources[v], s.store);
        if s.resources[v].Holds() {
          TakesBucketIff(u, b, s.store, f, s.resources[v].GetBucketName());
        }
      }
      OneDecides(s, u, after, left);
    }
  }

  /** If all other holders keep their buckets, the one resource that changed decides. */
  lemma OneDecides(s: State, u: Uid, after: Bucket, left: Store)
    requires forall v :: v in s.resources && v != u ==> WellOwned(v, s.resources[v], left)
    ensures OwnershipState(State(s.resources[u := after], left)) <==> WellOwned(u, after, left)
  {
    var t := State(s.resources[u := after], left);
    assert u in t.resources && t.resources[u] == after;
  }

  lemma CreateStepIff(s: State, step: Step)
    requires OwnershipState(s) && step.ApiCreate?
    ensures OwnershipState(Apply(s, step)) <==> Spares(s, step)
  {
    var b := Submitted(step.name, step.spec, step.lock);
    if Creates(s, step.u, b) {
      assert b.Holds() <==> step.lock;
      OneDecides(s, step.u, b, s.store);
    }
  }

  lemma UpdateStepIff(s: State, step: Step)
    requires OwnershipState(s) && step.ApiUpdate?
    ensures OwnershipState(Apply(s, step)) <==> Spares(s, step)
  {
    if Updates(s, step.u, step.spec, step.lock) {
      OneDecides(s, step.u, s.resources[step.u].(spec := step.spec, lock := step.lock), s.store);
    }
  }

  lemma OtherStepIff(s: State, step: Step)
    requires OwnershipState(s) && !step.Reconcile? && !step.ApiCreate? && !step.ApiUpdate?
    ensures OwnershipState(Apply(s, step)) <==> Spares(s, step)
  {
    var t := Apply(s, step);
    if Spares(s, step) {
      forall v | v in t.resources
        ensures WellOwned(v, t.resources[v], t.store)
      {
        assert WellOwned(v, s.resources[v], s.store);
      }
    } else {
      var u :| u in s.resources && s.resources[u].Holds() && s.resources[u].GetBucketName() == step.bucket;
      assert !WellOwned(u, t.resources[u], t.store);
    }
  }

  /** In every state of the run every holder owns its bucket. */
  predicate AlwaysOwned(s: State, steps: seq<Step>)
    decreases |steps|
  {
    OwnershipState(s) && (steps == [] || AlwaysOwned(Apply(s, steps[0]), steps[1..]))
  }

  lemma {:induction false} OwnershipRunIff(s: State, steps: seq<Step>)
    requires OwnershipState(s) && MarksState(s)
    ensures AlwaysOwned(s, steps) <==> SparingRun(s, steps)
    decreases |steps|
  {
    if steps != [] {
      StepKeepsOwnershipIff(s, steps[0]);
      MarksStep(s, steps[0]);
      if Spares(s, steps[0]) {
        OwnershipRunIff(Apply(s, steps[0]), steps[1..]);
      }
    }
  }

  lemma {:induction false} AlwaysOwnedIff(s: State, steps: seq<Step>)
    ensures AlwaysOwned(s, steps) <==> forall i :: 0 <= i <= |steps| ==> OwnershipState(Run(s, steps[..i]))
    decreases |steps|
  {
    if steps != [] {
      var t, rest := Apply(s, steps[0]), steps[1..];
      AlwaysOwnedIff(t, rest);
      forall i | 0 <= i <= |rest|
        ensures Run(s, steps[..i + 1]) == Run(t, rest[..i])
      {
        assert steps[..i + 1][1..] == rest[..i];
      }
      assert steps[..0] == [];
      if forall i :: 0 <= i <= |steps| ==> OwnershipState(Run(s, steps[..i])) {
        assert OwnershipState(Run(s, steps[..0]));
        forall i | 0 <= i <= |rest|
          ensures OwnershipState(Run(t, rest[..i]))
        {
          assert OwnershipState(Run(s, steps[..i + 1]));
        }
      } else {
        var i :| 0 <= i <= |steps| && !OwnershipState(Run(s, steps[..i]));
        if i > 0 {
          assert Run(s, steps[..(i - 1) + 1]) == Run(t, rest[..i - 1]);
        }
      }
    } else {
      assert steps[..0] == [];
    }
  }

  predicate Exclusive(s: State) {
    && (forall u :: u in s.resources && s.resources[u].Holds() ==> Owns(u, s.resources[u], s.store))
    && (forall u, v :: u in s.resources && v in s.resources && u != v ==>
          s.resources[u].Holds() && s.resources[v].Holds() ==>
            s.resources[u].GetBucketName() != s.resources[v].GetBucketName())
  }

  lemma ExclusiveIff(s: State)
    ensures Exclusive(s) <==> OwnershipState(s)
  {
    if OwnershipState(s) {
      forall u | u in s.resources && s.resources[u].Holds()
        ensures Owns(u, s.resources[u], s.store)
      {
        assert WellOwned(u, s.resources[u], s.store);
      }
    }
  }

  /** Exclusive ownership: throughout a run, two resources that hold a lock never resolve to the same bucket, and the
      bucket of each exists and is the one created for it, if and only if every step of the run spares the lock, the
      name, the bucket, the record of its removal and the deletion mark. */
  lemma ExclusiveOwnership(steps: seq<Step>)
    ensures (forall i :: 0 <= i <= |steps| ==> Exclusive(Run(INITIAL, steps[..i]))) <==> SparingRun(INITIAL, steps)
  {
    OwnershipRunIff(INITIAL, steps);
    AlwaysOwnedIff(INITIAL, steps);
    forall i | 0 <= i <= |steps|
      ensures Exclusive(Run(INITIAL, steps[..i])) <==> OwnershipState(Run(INITIAL, steps[..i]))
    {
      ExclusiveIff(Run(INITIAL, steps[..i]));
    }
  }

  // ---- Which buckets a reconcile takes ----

  predicate Untouched(before: Store, after: Store, n: string)
    requires n in before
  {
    n in after && after[n] == before[n]
  }

  /** The reconciles that get to Delete: a live, locked, deleting resource without the deletion mark, whose bucket
      answers. Whose bucket it is plays no part. */
  predicate ReachesDelete(b: Bucket, store: Store, f: Faults) {
    && b.deleting && b.lock && !b.gone && !b.spec.orphan && !b.pending && !b.AlreadyDeleted()
    && !f.connectFails && !f.observeFails && Accessible(store, b.GetBucketName(), b.spec.zone)
  }

  /** The resource as Delete sees it. */
  function Seen(b: Bucket): Bucket {
    b.(statusName := b.GetBucketName(), conditions := SetCondition(b.conditions, AVAILABLE))
  }

  lemma StoreAfterReconcile(u: Uid, b: Bucket, store: Store, f: Faults)
    ensures var left := ReconcileOne(u, b, store, f).1;
            if ReachesDelete(b, store, f) then left == Delete(Seen(b), store, f.sweep, f.remove).0
            else forall n :: n in store ==> n in left && left[n] == store[n]
  {
    if ReachesDelete(b, store, f) {
      assert Observe(b, BucketExists(store, b.GetBucketName(), b.spec.zone, f.observeFails)) == (Seen(b), Existing);
    } else {
      var made := Create(u, b, store, f.make, f.recheckFails).1;
      assert forall n :: n in store ==> n in made && made[n] == store[n];
    }
  }

  /** Exactly which bucket a reconcile takes away, from any state and with any failures: the one the resource
      resolves to, if Delete is reached, the bucket can be emptied and the removal is not refused. What is left of
      its objects changes exactly if the sweep of DeleteAll gets to one of them. */
  lemma TakesBucketIff(u: Uid, b: Bucket, store: Store, f: Faults, n: string)
    requires n in store
    ensures var left := ReconcileOne(u, b, store, f).1;
            && (n !in left <==>
                && n == b.GetBucketName() && ReachesDelete(b, store, f)
                && !f.remove.Refused? && Removable(Seen(b), store, f.sweep))
            && (n in left ==>
                (left[n] != store[n] <==>
                 && n == b.GetBucketName() && ReachesDelete(b, store, f)
                 && exists o :: Sweeps(Seen(b), store, f.sweep, o)))
  {
    StoreAfterReconcile(u, b, store, f);
    DeleteKeepsDataOnFailure(Seen(b), store, f.sweep, f.remove);
    var left := ReconcileOne(u, b, store, f).1;
    if n in left && n == b.GetBucketName() && ReachesDelete(b, store, f) {
      assert left[n].objects == store[n].objects <==> forall o :: !Sweeps(Seen(b), store, f.sweep, o);
    }
  }

  /** Exactly which bucket a reconcile makes: the one called after the spec, or after the resource if the spec names
      none, if that name is free and the resource is live, not deleting, not blocked and without the deletion mark. It
      is empty, in the zone of the spec, and belongs to the resource. */
  lemma MakesBucketIff(u: Uid, b: Bucket, store: Store, f: Faults, n: string)
    requires n !in store
    ensures var left := ReconcileOne(u, b, store, f).1;
            && (n in left <==>
                && n == (if b.spec.bucketName != "" then b.spec.bucketName else b.name)
                && !b.gone && !b.deleting && !b.pending && !b.AlreadyDeleted()
                && !f.connectFails && !f.observeFails && !f.make.Refused?)
            && (n in left ==> left[n] == Stored(Owned(u), b.spec.zone, {}))
  {
    if ReachesDelete(b, store, f) {
      StoreAfterReconcile(u, b, store, f);
      DeleteKeepsDataOnFailure(Seen(b), store, f.sweep, f.remove);
    }
  }

  /** A bucket of another account, or in another zone than the spec says, is out of reach: no reconcile changes it,
      takes the lock for it or records its name, whatever fails. */
  lemma OutOfReachIsLeftAlone(u: Uid, b: Bucket, store: Store, f: Faults)
    requires var n := if b.spec.bucketName != "" then b.spec.bucketName else b.name;
             n in store && (store[n].creator.Foreign? || store[n].zone != b.spec.zone)
    ensures var (after, left) := ReconcileOne(u, b, store, f);
            left == store && after.lock == b.lock && after.statusName == b.statusName
  {
  }

  /** A reconcile of the resource can hit a bucket that was not created for it: the resource is live, locked,
      deleting and without the deletion mark, and the bucket it resolves to answers, is somebody else's, and is empty
      or may be emptied. */
  predicate Endangers(u: Uid, b: Bucket, store: Store) {
    && b.deleting && b.lock && !b.gone && !b.spec.orphan && !b.pending && !b.AlreadyDeleted()
    && Accessible(store, b.GetBucketName(), b.spec.zone) && !Owns(u, b, store)
    && (b.spec.policy.DeleteAll? || store[b.GetBucketName()].objects == {})
  }

  /** Some bucket that was not created for `u` is touched. */
  predicate HitsOther(u: Uid, b: Bucket, store: Store, f: Faults) {
    exists n :: n in store && store[n].creator != Owned(u) && !Untouched(store, ReconcileOne(u, b, store, f).1, n)
  }

  /** Exactly when some reconcile of a resource, with the worst luck, touches a bucket of another. */
  lemma HitsOtherIff(u: Uid, b: Bucket, store: Store)
    ensures (exists f :: HitsOther(u, b, store, f)) <==> Endangers(u, b, store)
  {
    var n := b.GetBucketName();
    if f :| HitsOther(u, b, store, f) {
      var m :| m in store && store[m].creator != Owned(u) && !Untouched(store, ReconcileOne(u, b, store, f).1, m);
      TakesBucketIff(u, b, store, f, m);
    }
    if Endangers(u, b, store) {
      var objects := store[n].objects;
      var o := if objects == {} then "" else var o :| o in objects; o;
      var f := Faults(false, false, Performed, false, Sweep([Listed(o)], {}, 1), Performed, false, false, false);
      var keys := ListedKeys([Listed(o)]);
      assert keys == [o] by { assert [Listed(o)][1..] == [] && ListedKeys([]) == []; }
      assert keys[..Progress(keys, {}, 1)] == [o];
      assert objects == {} ==> Removable(Seen(b), store, f.sweep);
      assert objects != {} ==> Sweeps(Seen(b), store, f.sweep, o);
      TakesBucketIff(u, b, store, f, n);
      assert HitsOther(u, b, store, f);
    }
  }

  /** Successor safety: while every holder owns its bucket, and so after every sparing run, a reconcile of `u`, with
      any failures at all, removes a bucket, or objects of a bucket, only if that bucket was created for `u` itself. */
  lemma SuccessorSafety(steps: seq<Step>, u: Uid, f: Faults)
    requires Exclusive(Run(INITIAL, steps)) || SparingRun(INITIAL, steps)
    ensures var s := Run(INITIAL, steps);
            var t := Apply(s, Reconcile(u, f));
            forall n :: n in s.store && s.store[n].creator != Owned(u) ==> Untouched(s.store, t.store, n)
  {
    ExclusiveOwnership(steps);
    assert steps[..|steps|] == steps;
    var s := Run(INITIAL, steps);
    if u in s.resources {
      HitsOtherIff(u, s.resources[u], s.store);
      assert !HitsOther(u, s.resources[u], s.store, f);
    }
  }

  // ---- The deletion mark ----

  /** The resource is being deleted and its bucket is recorded as removed. */
  predicate Marked(b: Bucket) {
    b.deleting && !b.pending && b.AlreadyDeleted()
  }

  /** The step does not overwrite the mark of `u` by a failure to drop its finalizer. */
  predicate SparesMark(u: Uid, step: Step) {
    step.Reconcile? && step.u == u ==> !step.faults.finalizerFails || step.faults.statusLost
  }

  lemma MarkStep(s: State, u: Uid, step: Step)
    requires u in s.resources && Marked(s.resources[u]) && !s.resources[u].gone
    ensures var t := Apply(s, step);
            && u in t.resources
            && (Marked(t.resources[u]) <==> SparesMark(u, step))
            && (step.Reconcile? && step.u == u ==>
                  t.store == s.store && (t.resources[u].gone <==> !step.faults.finalizerFails))
  {
    DeletedMarkIff(s.resources[u], DELETING, FAILURE);
  }

  lemma {:induction false} MarkRun(s: State, u: Uid, steps: seq<Step>)
    requires u in s.resources && Marked(s.resources[u])
    requires forall i :: 0 <= i < |steps| ==> SparesMark(u, steps[i])
    ensures u in Run(s, steps).resources && Marked(Run(s, steps).resources[u])
    decreases |steps|
  {
    if steps != [] {
      if !s.resources[u].gone {
        MarkStep(s, u, steps[0]);
      }
      MarkRun(Apply(s, steps[0]), u, steps[1..]);
    }
  }

  /** With the mark in place a successor is out of danger for good: from any state, through any run that does not
      overwrite the mark, whatever others do meanwhile, every reconcile of the old resource leaves the storage as it
      is, and releases the resource exactly if the finalizer can be dropped. */
  lemma SuccessorSurvives(s: State, u: Uid, steps: seq<Step>, f: Faults)
    requires u in s.resources && Marked(s.resources[u])
    requires forall i :: 0 <= i < |steps| ==> SparesMark(u, steps[i])
    ensures var m := Run(s, steps);
            var t := Apply(m, Reconcile(u, f));
            && u in m.resources && t.store == m.store
            && (t.resources[u].gone <==> m.resources[u].gone || !f.finalizerFails)
  {
    MarkRun(s, u, steps);
    var m := Run(s, steps);
    if !m.resources[u].gone {
      MarkStep(m, u, Reconcile(u, f));
    }
  }

  /** An admitted update of a well-owned state keeps ownership if and only if the updated resource does not
      hold the lock, keeps its bucket name, or is renamed to another bucket that was created for it. */
  lemma RenameKeepsOwnershipIff(s: State, u: Uid, spec: Spec)
    requires OwnershipState(s) && u in s.resources
    ensures var b := s.resources[u];
            var renamed := b.(spec := spec);
            ValidateUpdate(b, renamed).Ok? ==>
              (OwnershipState(Apply(s, ApiUpdate(u, spec, b.lock))) <==>
               !b.Holds() || renamed.GetBucketName() == b.GetBucketName() || Owns(u, renamed, s.store))
  {
    var b := s.resources[u];
    UpdateStepIff(s, ApiUpdate(u, spec, b.lock));
    assert WellOwned(u, b, s.store);
  }

  /** Once its name is recorded a holder cannot be renamed to a bucket that is not its own: in every reachable state
      the webhook alone guarantees that an update keeping the lock annotation as it is keeps ownership. */
  lemma RecordedNameNeedsNoCare(s: State, u: Uid, spec: Spec)
    requires OwnershipState(s) && RecordedState(s) && u in s.resources && s.resources[u].statusName != ""
    ensures OwnershipState(Apply(s, ApiUpdate(u, spec, s.resources[u].lock)))
  {
    UpdateStepIff(s, ApiUpdate(u, spec, s.resources[u].lock));
    assert WellOwned(u, s.resources[u], s.store) && Recorded(s.resources[u]);
  }
}
