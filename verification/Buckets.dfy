/** Values of the bucket controller: the Bucket resource, the object storage, and one
    function per controller operation saying what that operation computes. */
module Buckets {
  import opened Wrappers

  type Uid = nat

  datatype Policy = DeleteIfEmpty | DeleteAll

  datatype ConditionType = Ready | Synced
  datatype Reason = Available | Creating | Deleting | ReconcileSuccess | ReconcileError
  datatype Condition = Condition(ctype: ConditionType, holds: bool, reason: Reason)

  /** `orphan` is the resource-level deletion policy Orphan: release without deleting. */
  datatype Spec = Spec(bucketName: string, zone: string, providerConfig: string, policy: Policy, orphan: bool)

  /** `lock` is the lock annotation, `pending` the reconciler's mark of an unfinished creation,
      and `gone` records that the finalizer was dropped. */
  datatype Bucket = Bucket(
    name: string, spec: Spec, lock: bool, statusName: string, conditions: seq<Condition>,
    deleting: bool, pending: bool, gone: bool)
  {
    function GetBucketName(): string {
      if spec.bucketName == "" then name else spec.bucketName
    }

    function Mark(ready: Condition, synced: Condition): Bucket {
      this.(conditions := SetCondition(SetCondition(conditions, ready), synced))
    }

    predicate AlreadyDeleted() {
      IsDeletedMark(conditions)
    }

    /** A live resource that carries the lock and has not finished deleting its bucket. */
    predicate Holds() {
      !gone && lock && !AlreadyDeleted()
    }
  }

  const AVAILABLE := Condition(Ready, true, Available)
  const CREATING := Condition(Ready, false, Creating)
  const DELETING := Condition(Ready, false, Deleting)
  const SUCCESS := Condition(Synced, true, ReconcileSuccess)
  const FAILURE := Condition(Synced, false, ReconcileError)

  // ---- Conditions ----

  function SetCondition(conds: seq<Condition>, c: Condition): seq<Condition> {
    if conds == [] then [c]
    else if conds[0].ctype == c.ctype then [c] + conds[1..]
    else [conds[0]] + SetCondition(conds[1..], c)
  }

  function FindCondition(conds: seq<Condition>, t: ConditionType): Option<Condition> {
    if conds == [] then None
    else if conds[0].ctype == t then Some(conds[0])
    else FindCondition(conds[1..], t)
  }

  predicate IsDeletedMark(conds: seq<Condition>) {
    var ready, synced := FindCondition(conds, Ready), FindCondition(conds, Synced);
    ready.Some? && synced.Some? &&
    !ready.value.holds && ready.value.reason == Deleting &&
    synced.value.holds && synced.value.reason == ReconcileSuccess
  }

  lemma {:induction false} FindAfterSet(conds: seq<Condition>, c: Condition, t: ConditionType)
    ensures FindCondition(SetCondition(conds, c), t) ==
            if t == c.ctype then Some(c) else FindCondition(conds, t)
  {
    if conds != [] && conds[0].ctype != c.ctype {
      FindAfterSet(conds[1..], c, t);
      assert SetCondition(conds, c)[1..] == SetCondition(conds[1..], c);
    } else if conds != [] {
      assert SetCondition(conds, c)[1..] == conds[1..];
    }
  }

  /** The mark that swaps in the no-op client is set by exactly one pair of conditions,
      whatever conditions were recorded before. */
  lemma DeletedMarkIff(b: Bucket, ready: Condition, synced: Condition)
    requires ready.ctype == Ready && synced.ctype == Synced
    ensures b.Mark(ready, synced).AlreadyDeleted() <==>
            !ready.holds && ready.reason == Deleting && synced.holds && synced.reason == ReconcileSuccess
  {
    var once := SetCondition(b.conditions, ready);
    FindAfterSet(b.conditions, ready, Ready);
    FindAfterSet(once, synced, Ready);
    FindAfterSet(once, synced, Synced);
  }

  // ---- Object storage ----

  /** One account's view of the storage: a bucket of another account is `Foreign`. */
  datatype Owner = Owned(uid: Uid) | Foreign
  datatype Stored = Stored(creator: Owner, zone: string, objects: set<string>)
  type Store = map<string, Stored>

  /** What happens to one remote call: done, refused without effect, or done with the reply lost. */
  datatype CallFate = Performed | Refused | ReplyLost

  datatype Existence = Unknown | Present | Absent

  predicate Accessible(store: Store, name: string, zone: string) {
    name in store && store[name].creator.Owned? && store[name].zone == zone
  }

  /** A foreign bucket answers Forbidden and a bucket of another zone answers Moved Permanently;
      both come back as errors, as does a transient failure. */
  function BucketExists(store: Store, name: string, zone: string, fails: bool): Existence {
    if fails then Unknown
    else if name !in store then Absent
    else if Accessible(store, name, zone) then Present
    else Unknown
  }

  function MakeBucket(store: Store, u: Uid, name: string, zone: string, fate: CallFate): (r: (Store, bool)) {
    if name in store || fate.Refused? then (store, false)
    else (store[name := Stored(Owned(u), zone, {})], fate.Performed?)
  }

  function RemoveBucket(store: Store, name: string, zone: string, fate: CallFate): (r: (Store, bool)) {
    if !Accessible(store, name, zone) || store[name].objects != {} || fate.Refused? then (store, false)
    else (store - {name}, fate.Performed?)
  }

  // ---- Controller operations ----

  datatype Observation = ObserveError | NotExisting | Existing

  function Observe(b: Bucket, answer: Existence): (r: (Bucket, Observation)) {
    match answer
    case Unknown => (b, ObserveError)
    case Absent => (b, NotExisting)
    case Present =>
      if b.lock then
        (b.(statusName := b.GetBucketName(), conditions := SetCondition(b.conditions, AVAILABLE)), Existing)
      else (b, ObserveError)
  }

  /** Claims the bucket: the flag says whether the whole pipeline succeeded. */
  function Create(u: Uid, b: Bucket, store: Store, fate: CallFate, recheckFails: bool): (r: (Bucket, Store, bool)) {
    var n, z := b.GetBucketName(), b.spec.zone;
    var (made, ok) := MakeBucket(store, u, n, z, fate);
    if ok || BucketExists(made, n, z, recheckFails).Present? then (b.(lock := true), made, true)
    else (b, made, false)
  }

  datatype Listing = Listed(key: string) | ListError

  function ListedKeys(listing: seq<Listing>): (keys: seq<string>) {
    if listing == [] then []
    else if listing[0].ListError? then ListedKeys(listing[1..])
    else [listing[0].key] + ListedKeys(listing[1..])
  }

  /** How many listed objects the bulk removal works through: all of them unless an object failed
      among the first `reach`, after which the rest may be left untouched. */
  function Progress(keys: seq<string>, failing: set<string>, reach: nat): (n: nat)
    ensures n <= |keys|
  {
    if reach < |keys| && exists k :: k in keys[..reach] && k in failing then reach else |keys|
  }

  function Swept(objects: set<string>, keys: seq<string>, failing: set<string>): (left: set<string>) {
    set o | o in objects && (o !in keys || o in failing)
  }

  datatype Sweep = Sweep(listing: seq<Listing>, failing: set<string>, reach: nat)

  function DeleteAllObjects(store: Store, name: string, zone: string, sweep: Sweep): (r: (Store, bool)) {
    var keys := ListedKeys(sweep.listing);
    var done := keys[..Progress(keys, sweep.failing, sweep.reach)];
    var ok := forall k :: k in done ==> k !in sweep.failing;
    if Accessible(store, name, zone) then
      (store[name := store[name].(objects := Swept(store[name].objects, done, sweep.failing))], ok)
    else (store, ok)
  }

  function Delete(b: Bucket, store: Store, sweep: Sweep, fate: CallFate): (r: (Store, bool)) {
    var (emptied, ok) :=
      if b.spec.policy.DeleteAll? then DeleteAllObjects(store, b.statusName, b.spec.zone, sweep) else (store, true);
    if ok then RemoveBucket(emptied, b.statusName, b.spec.zone, fate) else (emptied, false)
  }

  // ---- Admission ----

  datatype AdmissionError = MissingProviderConfig | RenameRefused | ZoneChangeRefused

  function ValidateCreate(b: Bucket): Result<(), AdmissionError> {
    if b.spec.providerConfig == "" then Err(MissingProviderConfig) else Ok(())
  }

  function ValidateUpdate(before: Bucket, after: Bucket): Result<(), AdmissionError> {
    if before.statusName != "" && after.GetBucketName() != before.statusName then Err(RenameRefused)
    else if before.statusName != "" && after.spec.zone != before.spec.zone then Err(ZoneChangeRefused)
    else if after.spec.providerConfig == "" then Err(MissingProviderConfig)
    else Ok(())
  }

  // ---- What Delete does to the data ----

  /** Delete can empty the bucket of the recorded name and reach it: it is empty already, or under DeleteAll every
      object is listed and none fails. */
  predicate Removable(b: Bucket, store: Store, sweep: Sweep) {
    && Accessible(store, b.statusName, b.spec.zone)
    && if b.spec.policy.DeleteAll?
       then && (forall k :: k in ListedKeys(sweep.listing) ==> k !in sweep.failing)
            && (forall o :: o in store[b.statusName].objects ==> o in ListedKeys(sweep.listing))
       else store[b.statusName].objects == {}
  }

  /** The object is swept: it is listed, the bulk removal gets to it, and it does not fail. */
  predicate Sweeps(b: Bucket, store: Store, sweep: Sweep, o: string) {
    && b.spec.policy.DeleteAll? && Accessible(store, b.statusName, b.spec.zone) && o in store[b.statusName].objects
    && var keys := ListedKeys(sweep.listing);
       var done := keys[..Progress(keys, sweep.failing, sweep.reach)];
       o in done && o !in sweep.failing
  }

  /** The listing of two parts one after the other, and of one entry: this fixes contents, order and multiplicity. */
  lemma {:induction false} ListedKeysOfParts(a: seq<Listing>, b: seq<Listing>, key: string)
    ensures ListedKeys(a + b) == ListedKeys(a) + ListedKeys(b)
    ensures ListedKeys([Listed(key)]) == [key] && ListedKeys([ListError]) == []
    decreases |a|
  {
    if a == [] {
      assert a + b == b;
    } else {
      assert (a + b)[1..] == a[1..] + b;
      ListedKeysOfParts(a[1..], b, key);
    }
    assert [Listed(key)][1..] == [] && ListedKeys([]) == [];
  }

  /** Everything listed is worked through unless some object fails; if one fails among the first `reach`, exactly
      those are worked through. */
  lemma ProgressIff(keys: seq<string>, failing: set<string>, reach: nat)
    requires reach <= |keys|
    ensures (exists k :: k in keys[..reach] && k in failing) ==> Progress(keys, failing, reach) == reach
    ensures (forall k :: k in keys[..reach] ==> k !in failing) ==> Progress(keys, failing, reach) == |keys|
  {
    if reach == |keys| {
      assert keys[..reach] == keys;
    }
  }

  lemma SweepEmptiesIff(store: Store, name: string, zone: string, sweep: Sweep)
    requires Accessible(store, name, zone)
    ensures var (emptied, ok) := DeleteAllObjects(store, name, zone, sweep);
            var keys := ListedKeys(sweep.listing);
            && (ok <==> forall k :: k in keys ==> k !in sweep.failing)
            && (ok ==> (emptied[name].objects == {} <==> forall o :: o in store[name].objects ==> o in keys))
  {
    var keys := ListedKeys(sweep.listing);
    var cut := Progress(keys, sweep.failing, sweep.reach);
    if cut < |keys| {
      var k :| k in keys[..cut] && k in sweep.failing;
      assert k in keys;
    } else {
      assert keys[..cut] == keys;
      var (emptied, ok) := DeleteAllObjects(store, name, zone, sweep);
      if ok {
        assert forall o :: o in emptied[name].objects <==> o in store[name].objects && o !in keys;
      }
    }
  }

  /** Delete reports success exactly when the bucket is reachable, the removal call goes through and
      nothing is left in the bucket; success leaves the bucket gone and touches no other bucket. */
  lemma DeleteSucceedsIff(b: Bucket, store: Store, sweep: Sweep, fate: CallFate)
    ensures var (after, ok) := Delete(b, store, sweep, fate);
            && (ok <==> fate.Performed? && Removable(b, store, sweep))
            && (ok ==> after == store - {b.statusName})
  {
    if Accessible(store, b.statusName, b.spec.zone) {
      SweepEmptiesIff(store, b.statusName, b.spec.zone, sweep);
      var (after, ok) := Delete(b, store, sweep, fate);
      assert ok ==> after == store - {b.statusName};
    }
  }

  /** Whatever becomes of the calls: the bucket goes exactly when it can be emptied and the removal is not refused,
      so a failed Delete loses it only if the reply to the removal was lost. A bucket that stays keeps its creator
      and zone and loses exactly the objects that the sweep of DeleteAll removes. Other buckets are untouched. */
  lemma DeleteKeepsDataOnFailure(b: Bucket, store: Store, sweep: Sweep, fate: CallFate)
    ensures var (after, ok) := Delete(b, store, sweep, fate);
            var n := b.statusName;
            && (forall m :: m in after ==> m in store)
            && (forall m :: m in store && m != n ==> m in after && after[m] == store[m])
            && (n in store ==>
                && (n !in after <==> !fate.Refused? && Removable(b, store, sweep))
                && (n in after ==>
                    && after[n].creator == store[n].creator && after[n].zone == store[n].zone
                    && after[n].objects <= store[n].objects
                    && (forall o :: o in store[n].objects && o !in after[n].objects <==> Sweeps(b, store, sweep, o)))
                && (!ok && n !in after ==> fate.ReplyLost?))
  {
    DeleteSucceedsIff(b, store, sweep, Performed);
    var n := b.statusName;
    if Accessible(store, n, b.spec.zone) {
      SweepEmptiesIff(store, n, b.spec.zone, sweep);
    }
  }

  // ---- What the webhook lets through ----

  /** An update is admitted exactly if a provider config is named and, once a bucket name is recorded, the bucket that
      the resource names and its zone stay. */
  lemma UpdateAdmittedIff(before: Bucket, after: Bucket)
    ensures ValidateUpdate(before, after).Ok? <==>
            && after.spec.providerConfig != ""
            && (before.statusName != "" ==>
                  && before.statusName == (if after.spec.bucketName != "" then after.spec.bucketName else after.name)
                  && after.spec.zone == before.spec.zone)
    ensures ValidateCreate(after).Ok? <==> after.spec.providerConfig != ""
    ensures ValidateUpdate(before, after) == Err(MissingProviderConfig) ==> after.spec.providerConfig == ""
    ensures ValidateUpdate(before, after) == Err(ZoneChangeRefused) ==> after.spec.zone != before.spec.zone
  {
  }

}
