/** The IAM key controller as it works: methods that write the resource and the remote side step by step, each
    proved to compute the function of the same name in `IamKeys`. */
module IamController {
  import opened Wrappers
  import opened IamKeys

  class IAMKeyObject {
    var statusKey: Option<Id>
    var statusRole: Option<Id>
    var annKey: Option<Id>
    var annRole: Option<Id>
    var deleting: bool
    var pending: bool
    var orphan: bool

    constructor (orphan: bool)
      ensures Value() == New(orphan)
    {
      statusKey, statusRole, annKey, annRole, deleting, pending := None, None, None, None, false, false;
      this.orphan := orphan;
    }

    function Value(): IAMKey
      reads this
    {
      IAMKey(statusKey, statusRole, annKey, annRole, deleting, pending, false, orphan)
    }
  }

  class Remote {
    var cloud: Cloud

    constructor ()
      ensures cloud == INITIAL.cloud
    {
      cloud := INITIAL.cloud;
    }
  }

  class IAMKeyPipeline {
    const remote: Remote

    constructor (remote: Remote)
      ensures this.remote == remote
    {
      this.remote := remote;
    }

    // ---- create.go ----

    /** Makes a role, then a key with at most ten attempts, and leaves both ids in the annotations. */
    method CreateRoleAndKey(k: IAMKeyObject, u: Uid, role: RoleReply, replies: seq<KeyReply>) returns (attempt: Attempt)
      modifies remote, k`annKey, k`annRole
      ensures (remote.cloud, attempt) == CreateIAMKey(old(remote.cloud), u, role, replies)
      ensures k.Value() ==
              if attempt.Created? then
                old(k.Value()).(annKey := Some(attempt.ids.key), annRole := Some(attempt.ids.role))
              else old(k.Value())
    {
      var roleId := remote.cloud.next;
      if role.RoleDone? || role.made {
        remote.cloud := remote.cloud.AddRole(u);
      }
      if role.RoleError? {
        return Failed(role.made);
      }
      if role.RoleUnfinished? {
        return NoKey(role.made);
      }
      ghost var ready := remote.cloud;
      var created: Option<Id> := None;
      var failed := true;
      var i := 0;
      while i < ATTEMPTS && failed
        invariant 0 <= i <= ATTEMPTS
        invariant k.Value() == old(k.Value())
        invariant failed ==> created.None?
        invariant failed ==> TryKeys(ready, u, roleId, replies, 0) == TryKeys(remote.cloud, u, roleId, replies, i)
        invariant !failed ==> TryKeys(ready, u, roleId, replies, 0) ==
                              (remote.cloud, if created.Some? then Made(created.value) else Empty)
      {
        var reply := ReplyAt(replies, i);
        match reply {
          case KeyError(stray) =>
            if stray {
              remote.cloud := remote.cloud.AddKey(u, roleId);
            }
          case KeyEmpty => failed := false;
          case KeyDone =>
            created := Some(remote.cloud.next);
            remote.cloud := remote.cloud.AddKey(u, roleId);
            failed := false;
        }
        i := i + 1;
      }
      if failed {
        return Failed(true);
      }
      if created.None? {
        return NoKey(true);
      }
      k.annKey, k.annRole := created, Some(roleId);
      return Created(Ids(created.value, roleId));
    }

    method CreateKey(k: IAMKeyObject, u: Uid, x: Inputs) returns (end: CreateEnd, attempt: Option<Attempt>)
      modifies remote, k`annKey, k`annRole
      ensures (k.Value(), remote.cloud, end, attempt) == Create(old(k.Value()), old(remote.cloud), u, x)
      // Success means that a key is known already, or that the annotations name one that is there and its secret is
      // written; without success, or with a known key, nothing but a reported key changes the annotations.
      ensures end.CreateOk? && k.statusKey.None? ==>
                && k.annKey.Some? && k.annRole.Some? && IsThere(remote.cloud, u, Ids(k.annKey.value, k.annRole.value))
                && !x.secretReadFails && !x.secretFails
      ensures k.statusKey.Some? ==> end.CreateOk? && remote.cloud == old(remote.cloud) && k.Value() == old(k.Value())
      ensures k.Value() != old(k.Value()) ==>
                k.annKey.Some? && k.annRole.Some? && IsThere(remote.cloud, u, Ids(k.annKey.value, k.annRole.value))
    {
      ReportedIsThere(remote.cloud, u, x.role, x.replies);
      if k.statusKey.Some? {
        return CreateOk, None;
      }
      var done := CreateRoleAndKey(k, u, x.role, x.replies);
      if done.Failed? {
        return CreateError, Some(done);
      }
      // The secret step reads the existing secret before it looks at the key.
      if x.secretReadFails {
        return CreateError, Some(done);
      }
      if done.NoKey? {
        return Crash, Some(done);
      }
      return if x.secretFails then CreateError else CreateOk, Some(done);
    }

    // ---- observe.go ----

    method ObserveKey(k: IAMKeyObject, getFails: bool, detailsFail: bool) returns (observation: Observation)
      modifies k`statusKey, k`statusRole, k`annKey, k`annRole
      ensures (k.Value(), observation) == Observe(old(k.Value()), remote.cloud, getFails, detailsFail)
    {
      if k.statusRole.None? {
        if k.annRole.Some? {
          k.statusRole, k.annRole := k.annRole, None;
        } else {
          return NotExisting;
        }
      }
      if k.statusKey.None? {
        if k.annKey.Some? {
          k.statusKey, k.annKey := k.annKey, None;
        } else {
          return NotExisting;
        }
      }
      if getFails || k.statusKey.value !in remote.cloud.keys {
        return if k.deleting then NotExisting else ObserveError;
      }
      // The connection details need the secret part of the key, which only the credentials secret has.
      if detailsFail {
        return ObserveError;
      }
      return Existing;
    }

    // ---- delete.go ----

    /** Removes the key and, only once that is reported done, the role. Nothing but the two recorded ids can
        disappear, and the role never before the key. */
    method DeleteKeyAndRole(k: IAMKeyObject, deleteKey: DeleteReply, deleteRole: DeleteReply) returns (roleDone: bool)
      requires k.statusKey.Some? && k.statusRole.Some?
      modifies remote
      ensures (remote.cloud, roleDone) ==
              Delete(old(remote.cloud), Ids(k.statusKey.value, k.statusRole.value), deleteKey, deleteRole)
      ensures var (before, after) := (old(remote.cloud), remote.cloud);
              var (key, role) := (k.statusKey.value, k.statusRole.value);
              && after.next == before.next
              && (forall i :: i in after.keys ==> i in before.keys && after.keys[i] == before.keys[i])
              && (forall i :: i in after.roles ==> i in before.roles && after.roles[i] == before.roles[i])
              && (forall i :: i in before.keys && i !in after.keys <==>
                    i == key && key in before.keys && deleteKey != NotDeleted(false))
              && (forall i :: i in before.roles && i !in after.roles <==>
                    i == role && role in before.roles && deleteKey.Deleted? && deleteRole != NotDeleted(false))
              && (after.roles != before.roles ==> key !in after.keys)
      ensures roleDone <==> deleteKey.Deleted? && deleteRole.Deleted?
      ensures roleDone ==> k.statusKey.value !in remote.cloud.keys && k.statusRole.value !in remote.cloud.roles
    {
      if deleteKey != NotDeleted(false) {
        remote.cloud := remote.cloud.(keys := remote.cloud.keys - {k.statusKey.value});
      }
      if !deleteKey.Deleted? {
        return false;
      }
      if deleteRole != NotDeleted(false) {
        remote.cloud := remote.cloud.(roles := remote.cloud.roles - {k.statusRole.value});
      }
      return deleteRole.Deleted?;
    }
  }
}
