/** How a Create of an IAM key ends, told from the replies and from what it leaves behind, and the life of a key when
    nothing goes wrong. */
module IamLife {
  import opened Wrappers
  import opened IamKeys
  import opened IamRuns

  // ---- How an attempt ends ----

  /** The first of the ten key requests that does not fail is the one with number `i`. */
  predicate Answered(replies: seq<KeyReply>, i: nat) {
    i < 10 && !ReplyAt(replies, i).KeyError? && forall j: nat :: j < i ==> ReplyAt(replies, j).KeyError?
  }

  predicate AllFail(replies: seq<KeyReply>) {
    forall j: nat :: j < 10 ==> ReplyAt(replies, j).KeyError?
  }

  lemma {:induction false} LoopEndsWith(cloud: Cloud, u: Uid, role: Id, replies: seq<KeyReply>, i: nat)
    requires i <= ATTEMPTS && forall j: nat :: j < i ==> ReplyAt(replies, j).KeyError?
    ensures var end := TryKeys(cloud, u, role, replies, i).1;
            && (end.Exhausted? <==> AllFail(replies))
            && (end.Empty? <==> exists n: nat :: Answered(replies, n) && ReplyAt(replies, n).KeyEmpty?)
            && (end.Made? <==> exists n: nat :: Answered(replies, n) && ReplyAt(replies, n).KeyDone?)
    decreases ATTEMPTS - i
  {
    if i < ATTEMPTS {
      match ReplyAt(replies, i)
      case KeyError(stray) =>
        LoopEndsWith(if stray then cloud.AddKey(u, role) else cloud, u, role, replies, i + 1);
      case _ =>
        assert Answered(replies, i);
        assert forall n: nat :: Answered(replies, n) ==> n == i;
    }
  }

  /** An attempt reports a key exactly if the role is done and one of at most ten requests returns a key after nothing
      but failures; it ends without a key and without an error exactly if the role is unfinished or that request
      returns an empty key; and it fails exactly if the role request fails or all ten key requests do. */
  lemma AttemptEndsIff(cloud: Cloud, u: Uid, role: RoleReply, replies: seq<KeyReply>)
    ensures var attempt := CreateIAMKey(cloud, u, role, replies).1;
            && (attempt.Created? <==>
                role.RoleDone? && exists n: nat :: Answered(replies, n) && ReplyAt(replies, n).KeyDone?)
            && (attempt.NoKey? <==> EndsWithoutKey(role, replies))
            && (attempt.Failed? <==> role.RoleError? || (role.RoleDone? && AllFail(replies)))
  {
    if role.RoleDone? {
      LoopEndsWith(cloud.AddRole(u), u, cloud.next, replies, 0);
      assert AllFail(replies) ==> forall n: nat :: !Answered(replies, n);
    }
  }

  predicate EndsWithoutKey(role: RoleReply, replies: seq<KeyReply>) {
    role.RoleUnfinished? ||
    (role.RoleDone? && exists n: nat | n < 10 :: Answered(replies, n) && ReplyAt(replies, n).KeyEmpty?)
  }

  // ---- How Create ends ----

  /** The annotations name a role and a key that were not there before, and the key refers to the role. */
  predicate HandsOver(k: IAMKey, u: Uid, before: Cloud, after: Cloud) {
    && k.annKey.Some? && k.annRole.Some? && IsThere(after, u, Ids(k.annKey.value, k.annRole.value))
    && k.annKey.value !in before.keys && k.annRole.value !in before.roles
  }

  /** Create reports success exactly if the key was known before, or the annotations now hand over a new key and both
      secret steps went well; it crashes exactly if the attempt ended without key and error and the secret could be
      read; otherwise it reports an error. The annotations change only to hand over a new key. */
  lemma CreateEndsIff(k: IAMKey, cloud: Cloud, u: Uid, x: Inputs)
    requires IdsOrdered(cloud) && (k.annKey.Some? ==> k.annKey.value < cloud.next)
    ensures var (k', after, end, _) := Create(k, cloud, u, x);
            && (end.CreateOk? <==>
                k.statusKey.Some? || (HandsOver(k', u, cloud, after) && !x.secretReadFails && !x.secretFails))
            && (end.Crash? <==> k.statusKey.None? && EndsWithoutKey(x.role, x.replies) && !x.secretReadFails)
            && (k' == k || HandsOver(k', u, cloud, after))
            && k' == k.(annKey := k'.annKey, annRole := k'.annRole)
            && (k.statusKey.Some? ==> k' == k && after == cloud)
  {
    if k.statusKey.None? {
      AttemptEndsIff(cloud, u, x.role, x.replies);
      AttemptHandsOver(k, cloud, u, x.role, x.replies);
    }
  }

  lemma AttemptHandsOver(k: IAMKey, cloud: Cloud, u: Uid, role: RoleReply, replies: seq<KeyReply>)
    requires IdsOrdered(cloud) && (k.annKey.Some? ==> k.annKey.value < cloud.next)
    ensures var (after, attempt) := CreateIAMKey(cloud, u, role, replies);
            if attempt.Created? then
              HandsOver(k.(annKey := Some(attempt.ids.key), annRole := Some(attempt.ids.role)), u, cloud, after)
            else !HandsOver(k, u, cloud, after)
  {
    AttemptGrows(cloud, u, role, replies);
    AttemptMakes(cloud, u, role, replies);
  }

  // ---- Observe without ids ----

  /** A resource that lacks the role id or the key id, in the status and in the annotations, counts as absent. */
  lemma WithoutIdsIsAbsent(k: IAMKey, cloud: Cloud, getFails: bool, detailsFail: bool)
    requires (k.statusRole.None? && k.annRole.None?) || (k.statusKey.None? && k.annKey.None?)
    ensures Observe(k, cloud, getFails, detailsFail).1.NotExisting?
  {
  }

  // ---- The life of a key ----

  const FINE := Inputs(
    false, false, false, RoleDone, [KeyDone], false, false, false, StatusAndAnnotations, Deleted, Deleted, false)

  lemma FineAttempt(cloud: Cloud, u: Uid)
    ensures CreateIAMKey(cloud, u, RoleDone, [KeyDone]) ==
            (cloud.AddRole(u).AddKey(u, cloud.next), Created(Ids(cloud.next + 1, cloud.next)))
  {
    assert ReplyAt([KeyDone], 0) == KeyDone;
  }

  /** The resource `u` has exactly one role and one key on top of what `before` has, with new ids. */
  predicate OneOfEach(before: Cloud, u: Uid, after: Cloud) {
    && after.roles == before.roles[before.next := u]
    && after.keys == before.keys[before.next + 1 := Key(u, before.next)]
  }

  /** Creating a resource and reconciling it once makes one role and one key for it and leaves both ids in the
      annotations; the next reconcile moves them to the status and changes nothing remotely. */
  lemma CreatesAndMovesIds(s: State, u: Uid, orphan: bool)
    requires IdsOrdered(s.cloud) && u !in s.resources
    ensures var c := Apply(Apply(s, ApiCreate(u, orphan)), Reconcile(u, FINE));
            var o := Apply(c, Reconcile(u, FINE));
            var key, role := s.cloud.next + 1, s.cloud.next;
            && OneOfEach(s.cloud, u, c.cloud) && c.resources == s.resources[u := c.resources[u]]
            && c.resources[u].k == New(orphan).(annKey := Some(key), annRole := Some(role))
            && o.cloud == c.cloud && o.resources == s.resources[u := o.resources[u]]
            && o.resources[u].k == New(orphan).(statusKey := Some(key), statusRole := Some(role))
  {
    var n := Apply(s, ApiCreate(u, orphan));
    CreatePath(n, u, FINE);
    FineAttempt(s.cloud, u);
    var c := Apply(n, Reconcile(u, FINE));
    assert c.resources[u].k == New(orphan).(annKey := Some(s.cloud.next + 1), annRole := Some(s.cloud.next));
    TransferFindsIds(c.resources[u].k, Ids(s.cloud.next + 1, s.cloud.next));
  }

  /** Deleting such a resource and reconciling it removes that key and that role; one more reconcile lets it go. Under
      Orphan the first one does, and both stay. */
  lemma RemovesBoth(before: Cloud, s: State, u: Uid)
    requires IdsOrdered(before) && OneOfEach(before, u, s.cloud) && u in s.resources
    requires s.resources[u].k == New(s.resources[u].k.orphan).(
               statusKey := Some(before.next + 1), statusRole := Some(before.next))
    ensures var d := Apply(Apply(s, ApiDelete(u)), Reconcile(u, FINE));
            var g := Apply(d, Reconcile(u, FINE));
            && u in d.resources
            && (if s.resources[u].k.orphan then d.resources[u].k.gone && d.cloud == s.cloud
                else
                  && !d.resources[u].k.gone && d.cloud.roles == before.roles && d.cloud.keys == before.keys
                  && g.resources[u].k.gone && g.cloud == d.cloud)
  {
    var ids := Ids(before.next + 1, before.next);
    var t := Apply(s, ApiDelete(u));
    TransferFindsIds(t.resources[u].k, ids);
    if !s.resources[u].k.orphan {
      var d := Apply(t, Reconcile(u, FINE));
      assert s.cloud.keys - {ids.key} == before.keys && s.cloud.roles - {ids.role} == before.roles;
      assert d.cloud == Delete(s.cloud, ids, Deleted, Deleted).0;
      TransferFindsIds(d.resources[u].k, ids);
    }
  }
}
