/** The bucket controller as it works: methods that write the resource and the storage step by step,
    each proved to compute the function of the same name in `Buckets`. Replies of the storage that cannot
    be predicted (failures, listings) are parameters. */
module BucketController {
  import opened Wrappers
  import opened Buckets

  const LOCK_ANNOTATION := "exoscale.crossplane.io/lock"

  class BucketObject {
    const name: string
    var spec: Spec
    var annotations: Option<map<string, string>>
    var statusName: string
    var conditions: seq<Condition>
    var deleting: bool
    var pending: bool

    constructor (name: string, spec: Spec)
      ensures Value() == Bucket(name, spec, false, "", [], false, false, false)
    {
      this.name, this.spec, this.annotations := name, spec, None;
      statusName, conditions, deleting, pending := "", [], false, false;
    }

    predicate HasLock()
      reads this
    {
      annotations.Some? && LOCK_ANNOTATION in annotations.value
    }

    function Value(): Bucket
      reads this
    {
      Bucket(name, spec, HasLock(), statusName, conditions, deleting, pending, false)
    }
  }

  class Storage {
    var buckets: Store

    constructor ()
      ensures buckets == map[]
    {
      buckets := map[];
    }
  }

  // ---- connector.go ----

  /** The first condition of the given type. */
  method FirstCondition(conds: seq<Condition>, t: ConditionType) returns (found: Option<Condition>)
    ensures found == FindCondition(conds, t)
    ensures found.Some? ==> exists i :: 0 <= i < |conds| && conds[i] == found.value && found.value.ctype == t &&
                                        forall j :: 0 <= j < i ==> conds[j].ctype != t
    ensures found.None? ==> forall i :: 0 <= i < |conds| ==> conds[i].ctype != t
  {
    var i := 0;
    while i < |conds|
      invariant 0 <= i <= |conds|
      invariant forall j :: 0 <= j < i ==> conds[j].ctype != t
      invariant FindCondition(conds, t) == FindCondition(conds[i..], t)
    {
      if conds[i].ctype == t {
        return Some(conds[i]);
      }
      assert conds[i..][1..] == conds[i + 1..];
      i := i + 1;
    }
    return None;
  }

  datatype Client = Noop | Provisioning

  /** Chooses the client: the no-op client exactly for a resource whose deletion was recorded. */
  method Connect(bucket: BucketObject, credentialsFail: bool) returns (client: Result<Client, ()>)
    ensures client == if bucket.Value().AlreadyDeleted() then Ok(Noop)
                      else if credentialsFail then Err(()) else Ok(Provisioning)
  {
    var ready := FirstCondition(bucket.conditions, Ready);
    var synced := FirstCondition(bucket.conditions, Synced);
    if ready.Some? && synced.Some? {
      if !ready.value.holds && ready.value.reason == Deleting &&
         synced.value.holds && synced.value.reason == ReconcileSuccess {
        return Ok(Noop);
      }
    }
    if credentialsFail {
      return Err(());
    }
    return Ok(Provisioning);
  }

  class ProvisioningPipeline {
    const storage: Storage

    constructor (storage: Storage)
      ensures this.storage == storage
    {
      this.storage := storage;
    }

    // ---- observe.go ----

    method ObserveBucket(bucket: BucketObject, fails: bool) returns (observation: Observation)
      modifies bucket`statusName, bucket`conditions
      ensures (bucket.Value(), observation) ==
              Observe(old(bucket.Value()),
                      BucketExists(storage.buckets, old(bucket.Value()).GetBucketName(), bucket.spec.zone, fails))
    {
      var bucketName := bucket.Value().GetBucketName();
      var answer := BucketExists(storage.buckets, bucketName, bucket.spec.zone, fails);
      if answer.Unknown? {
        return ObserveError;
      }
      var exists_ := answer.Present?;
      if bucket.HasLock() && exists_ {
        bucket.statusName := bucketName;
        bucket.conditions := SetCondition(bucket.conditions, AVAILABLE);
        return Existing;
      } else if exists_ {
        return ObserveError;
      }
      return NotExisting;
    }

    // ---- create.go ----

    /** A name that is taken stays as it is, and counts as success exactly if the account can reach it; a free name
        gets an empty bucket of this resource unless the call is refused. Success means that the bucket of this name
        is there and reachable. */
    method CreateS3Bucket(u: Uid, bucket: BucketObject, fate: CallFate, recheckFails: bool) returns (ok: bool)
      modifies storage
      ensures var (n, z, before) := (bucket.Value().GetBucketName(), bucket.spec.zone, old(storage.buckets));
              if n in before then
                storage.buckets == before && (ok <==> Accessible(before, n, z) && !recheckFails)
              else if fate.Refused? then
                storage.buckets == before && !ok
              else
                storage.buckets == before[n := Stored(Owned(u), z, {})] && (ok <==> fate.Performed? || !recheckFails)
      ensures ok ==> Accessible(storage.buckets, bucket.Value().GetBucketName(), bucket.spec.zone)
      ensures bucket.Value() == old(bucket.Value())
    {
      var bucketName := bucket.Value().GetBucketName();
      var (made, done) := MakeBucket(storage.buckets, u, bucketName, bucket.spec.zone, fate);
      storage.buckets := made;
      if !done {
        var answer := BucketExists(storage.buckets, bucketName, bucket.spec.zone, recheckFails);
        return answer.Present?;
      }
      return true;
    }

    method SetLock(bucket: BucketObject)
      modifies bucket`annotations
      ensures bucket.Value() == old(bucket.Value()).(lock := true)
      ensures old(bucket.annotations).Some? ==>
                bucket.annotations == Some(old(bucket.annotations).value[LOCK_ANNOTATION := "claimed"])
    {
      if bucket.annotations.None? {
        bucket.annotations := Some(map[]);
      }
      bucket.annotations := Some(bucket.annotations.value[LOCK_ANNOTATION := "claimed"]);
    }

    /** The steps run in order and stop at the first error. */
    method CreateBucket(u: Uid, bucket: BucketObject, fate: CallFate, recheckFails: bool) returns (ok: bool)
      modifies storage, bucket`annotations
      ensures (bucket.Value(), storage.buckets, ok) ==
              Create(u, old(bucket.Value()), old(storage.buckets), fate, recheckFails)
    {
      ok := CreateS3Bucket(u, bucket, fate, recheckFails);
      if ok {
        SetLock(bucket);
      }
    }

    // ---- delete.go ----

    /** The listing without its error entries. */
    method QueueListed(listing: seq<Listing>) returns (queue: seq<string>)
      ensures queue == ListedKeys(listing)
      ensures forall k :: k in queue <==> Listed(k) in listing
    {
      queue := [];
      var i := 0;
      while i < |listing|
        invariant 0 <= i <= |listing|
        invariant queue + ListedKeys(listing[i..]) == ListedKeys(listing)
        invariant forall k :: k in queue <==> Listed(k) in listing[..i]
      {
        assert listing[i..][1..] == listing[i + 1..];
        if !listing[i].ListError? {
          queue := queue + [listing[i].key];
        }
        i := i + 1;
      }
      assert listing[..i] == listing;
    }

    /** The bulk removal of the storage: removes what can be removed among the first `count` keys and reports
        the rest, in order. */
    method RemoveObjects(bucketName: string, zone: string, keys: seq<string>, failing: set<string>, count: nat)
      returns (failed: seq<string>)
      requires count <= |keys|
      modifies storage
      ensures storage.buckets ==
              if Accessible(old(storage.buckets), bucketName, zone)
              then old(storage.buckets)[bucketName := old(storage.buckets)[bucketName].(
                     objects := Swept(old(storage.buckets)[bucketName].objects, keys[..count], failing))]
              else old(storage.buckets)
      ensures Accessible(old(storage.buckets), bucketName, zone) ==>
                forall o :: o in storage.buckets[bucketName].objects <==>
                            o in old(storage.buckets)[bucketName].objects && (o in keys[..count] ==> o in failing)
      ensures failed == [] <==> forall k :: k in keys[..count] ==> k !in failing
    {
      failed := [];
      var before := storage.buckets;
      var reachable := Accessible(before, bucketName, zone);
      var left := if reachable then before[bucketName].objects else {};
      var i := 0;
      while i < count
        invariant 0 <= i <= count
        invariant reachable ==> left == Swept(before[bucketName].objects, keys[..i], failing)
        invariant failed == [] <==> forall k :: k in keys[..i] ==> k !in failing
      {
        assert keys[..i + 1] == keys[..i] + [keys[i]];
        if keys[i] in failing {
          failed := failed + [keys[i]];
        } else {
          left := left - {keys[i]};
        }
        i := i + 1;
      }
      if reachable {
        storage.buckets := before[bucketName := before[bucketName].(objects := left)];
      }
    }

    method DeleteAll(bucket: BucketObject, sweep: Sweep) returns (ok: bool)
      modifies storage
      ensures (storage.buckets, ok) ==
              DeleteAllObjects(old(storage.buckets), bucket.statusName, bucket.spec.zone, sweep)
      ensures bucket.Value() == old(bucket.Value())
    {
      var queue := QueueListed(sweep.listing);
      var failed := RemoveObjects(bucket.statusName, bucket.spec.zone, queue, sweep.failing,
                                  Progress(queue, sweep.failing, sweep.reach));
      return failed == [];
    }

    /** Only the bucket of the recorded name can go, only if it is reachable and holds no object, and then it goes
        unless the call is refused; an error leaves everything in place unless the reply was lost. */
    method DeleteS3Bucket(bucket: BucketObject, fate: CallFate) returns (ok: bool)
      modifies storage
      ensures var (n, before) := (bucket.statusName, old(storage.buckets));
              var empty := Accessible(before, n, bucket.spec.zone) && before[n].objects == {};
              && (storage.buckets == before || (empty && storage.buckets == before - {n}))
              && (storage.buckets != before <==> empty && !fate.Refused?)
              && (ok <==> empty && fate.Performed?)
              && (ok ==> n !in storage.buckets)
              && (!ok && storage.buckets != before ==> fate.ReplyLost?)
      ensures bucket.Value() == old(bucket.Value())
    {
      var (after, done) := RemoveBucket(storage.buckets, bucket.statusName, bucket.spec.zone, fate);
      storage.buckets := after;
      return done;
    }

    method DeleteBucket(bucket: BucketObject, sweep: Sweep, fate: CallFate) returns (ok: bool)
      modifies storage
      ensures (storage.buckets, ok) == Delete(old(bucket.Value()), old(storage.buckets), sweep, fate)
      ensures bucket.Value() == old(bucket.Value())
      // Success leaves nothing under the recorded name.
      ensures ok ==> bucket.statusName in old(storage.buckets) && bucket.statusName !in storage.buckets
    {
      ok := true;
      if bucket.spec.policy.DeleteAll? {
        ok := DeleteAll(bucket, sweep);
      }
      if ok {
        ok := DeleteS3Bucket(bucket, fate);
      }
    }
  }
}
