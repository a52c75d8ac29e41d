/** What every run of IAM keys keeps, whatever the remote calls do: ids are not lost on the way from Create to
    Observe, every key and every role is accounted for, and keys refer to existing roles except after one kind of
    deletion. */
module IamRuns {
  import opened Wrappers
  import opened IamKeys

  // ---- Invariant ----

  function RolesOf(roles: map<Id, Uid>, u: Uid): set<Id> {
    set r | r in roles && roles[r] == u
  }

  function KeysOf(keys: map<Id, Key>, u: Uid): set<Id> {
    set k | k in keys && keys[k].holder == u
  }

  predicate Blank(k: IAMKey) {
    k.statusKey.None? && k.statusRole.None? && k.annKey.None? && k.annRole.None?
  }

  /** The ids are in the status, or still in the annotations; whatever is present is right. */
  predicate Handed(k: IAMKey, ids: Ids) {
    && (if k.statusKey.Some? then k.statusKey == Some(ids.key) else k.annKey == Some(ids.key))
    && (if k.statusRole.Some? then k.statusRole == Some(ids.role) else k.annRole == Some(ids.role))
    && (k.annKey.Some? ==> k.annKey == Some(ids.key))
    && (k.annRole.Some? ==> k.annRole == Some(ids.role))
    && (k.statusKey.Some? <==> k.statusRole.Some?)
  }

  /** The resource knows what Create made; that role stays at least as long as that key. */
  predicate Kept(u: Uid, t: Tracked, cloud: Cloud) {
    match t.log.made
    case None => Blank(t.k) && !t.log.roleDeleted && !t.log.roleRemoved
    case Some(ids) =>
      && ids.key < cloud.next && ids.role < cloud.next
      && (ids.key in cloud.keys ==> cloud.keys[ids.key] == Key(u, ids.role) && !t.log.roleRemoved)
      && (!t.log.roleRemoved ==> ids.role in cloud.roles && cloud.roles[ids.role] == u)
      && (t.log.roleDeleted ==> t.log.roleRemoved)
      && (if t.k.pending then Blank(t.k) && !t.log.roleRemoved else Handed(t.k, ids))
  }

  /** A role was handed over to the resource. */
  predicate RoleRecorded(t: Tracked) {
    t.log.made.Some? && !t.k.pending
  }

  /** Keys and roles of a resource, counted. */
  predicate Counted(u: Uid, t: Tracked, cloud: Cloud) {
    && t.log.keysMade == t.log.strays + (if t.log.made.Some? then 1 else 0)
    && |KeysOf(cloud.keys, u)| ==
       t.log.strays + (if t.log.made.Some? && t.log.made.value.key in cloud.keys then 1 else 0)
    && |RolesOf(cloud.roles, u)| == t.log.orphaned + (if RoleRecorded(t) && !t.log.roleRemoved then 1 else 0)
  }

  /** The attempt that made the recorded key made others with it exactly if such keys exist. */
  predicate TwinsKnown(u: Uid, t: Tracked, cloud: Cloud) {
    t.log.made.Some? ==> (t.log.twins > 0 <==> OwnTwin(u, cloud, t.log.made.value))
  }

  /** Ids are below the next one to be handed out, and a key and its role are for the same resource. */
  predicate IdsOrdered(cloud: Cloud) {
    && (forall r :: r in cloud.roles ==> r < cloud.next)
    && (forall k :: k in cloud.keys ==> k < cloud.next && cloud.keys[k].role < cloud.next)
    && (forall k :: k in cloud.keys && cloud.keys[k].role in cloud.roles ==>
          cloud.roles[cloud.keys[k].role] == cloud.keys[k].holder)
  }

  predicate Inv(s: State) {
    && IdsOrdered(s.cloud)
    && (forall r :: r in s.cloud.roles ==> s.cloud.roles[r] in s.resources)
    && (forall k :: k in s.cloud.keys ==> s.cloud.keys[k].holder in s.resources)
    && (forall u :: u in s.resources ==> Kept(u, s.resources[u], s.cloud) && Counted(u, s.resources[u], s.cloud))
    && (forall u :: u in s.resources ==> TwinsKnown(u, s.resources[u], s.cloud))
  }

  /** From `before` to `after` only roles and keys of `u` come and go, and those that come have new ids. */
  predicate OnlyOf(u: Uid, before: Cloud, after: Cloud) {
    && before.next <= after.next
    && (forall r :: r in before.roles && before.roles[r] != u ==> r in after.roles)
    && (forall r :: r in after.roles ==>
          if r < before.next then r in before.roles && after.roles[r] == before.roles[r] else after.roles[r] == u)
    && (forall k :: k in before.keys && before.keys[k].holder != u ==> k in after.keys)
    && (forall k :: k in after.keys ==>
          if k < before.next then k in before.keys && after.keys[k] == before.keys[k] else after.keys[k].holder == u)
  }

  lemma OthersKept(u: Uid, v: Uid, t: Tracked, before: Cloud, after: Cloud)
    requires IdsOrdered(before) && OnlyOf(u, before, after) && v != u
    requires Kept(v, t, before) && Counted(v, t, before) && TwinsKnown(v, t, before)
    ensures Kept(v, t, after) && Counted(v, t, after) && TwinsKnown(v, t, after)
  {
    assert RolesOf(after.roles, v) == RolesOf(before.roles, v);
    assert KeysOf(after.keys, v) == KeysOf(before.keys, v);
  }

  /** It is enough to look at the resource that a step is about. */
  lemma InvForOne(s: State, u: Uid, t: Tracked, after: Cloud)
    requires Inv(s) && OnlyOf(u, s.cloud, after) && IdsOrdered(after)
    requires Kept(u, t, after) && Counted(u, t, after) && TwinsKnown(u, t, after)
    ensures Inv(State(s.resources[u := t], after))
  {
    forall v | v in s.resources && v != u
      ensures var t := s.resources[v]; Kept(v, t, after) && Counted(v, t, after) && TwinsKnown(v, t, after)
    {
      OthersKept(u, v, s.resources[v], s.cloud, after);
    }
  }

  // ---- Create ----

  function AddKeys(cloud: Cloud, u: Uid, role: Id, n: nat): Cloud
    decreases n
  {
    if n == 0 then cloud else AddKeys(cloud.AddKey(u, role), u, role, n - 1)
  }

  lemma {:induction false} AddKeysAdds(cloud: Cloud, u: Uid, role: Id, n: nat)
    requires forall k :: k in cloud.keys ==> k < cloud.next
    ensures var after := AddKeys(cloud, u, role, n);
            && after.roles == cloud.roles && after.next == cloud.next + n
            && (forall k :: k in after.keys <==> k in cloud.keys || cloud.next <= k < after.next)
            && (forall k :: k in after.keys ==> after.keys[k] == if k < cloud.next then cloud.keys[k] else Key(u, role))
    decreases n
  {
    if n > 0 {
      AddKeysAdds(cloud.AddKey(u, role), u, role, n - 1);
    }
  }

  lemma KeysOfAdded(keys: map<Id, Key>, id: Id, key: Key)
    requires id !in keys
    ensures KeysOf(keys[id := key], key.holder) == KeysOf(keys, key.holder) + {id}
  {
    forall k
      ensures k in KeysOf(keys[id := key], key.holder) <==> k in KeysOf(keys, key.holder) + {id}
    {
    }
  }

  lemma {:induction false} AddKeysCounts(cloud: Cloud, u: Uid, role: Id, n: nat)
    requires forall k :: k in cloud.keys ==> k < cloud.next
    ensures var after := AddKeys(cloud, u, role, n);
            |after.keys| == |cloud.keys| + n && |KeysOf(after.keys, u)| == |KeysOf(cloud.keys, u)| + n
    decreases n
  {
    if n > 0 {
      KeysOfAdded(cloud.keys, cloud.next, Key(u, role));
      AddKeysCounts(cloud.AddKey(u, role), u, role, n - 1);
    }
  }

  lemma {:induction false} TryKeysMakes(cloud: Cloud, u: Uid, role: Id, replies: seq<KeyReply>, i: nat)
    requires i <= ATTEMPTS
    ensures var (after, end) := TryKeys(cloud, u, role, replies, i);
            var n := StrayReplies(replies, i);
            && after == AddKeys(cloud, u, role, if end.Made? then n + 1 else n)
            && (end.Made? ==> end.key == cloud.next + n)
    decreases ATTEMPTS - i
  {
    if i < ATTEMPTS {
      match ReplyAt(replies, i)
      case KeyError(stray) => TryKeysMakes(if stray then cloud.AddKey(u, role) else cloud, u, role, replies, i + 1);
      case KeyEmpty =>
      case KeyDone => assert AddKeys(cloud, u, role, 1) == cloud.AddKey(u, role);
    }
  }

  /** One attempt makes nothing, or a role and then keys that refer to it: the stray ones, and one more exactly
      when it reports a key, which is the last. */
  lemma AttemptMakes(cloud: Cloud, u: Uid, role: RoleReply, replies: seq<KeyReply>)
    ensures var (after, attempt) := CreateIAMKey(cloud, u, role, replies);
            var strays := Strays(role, replies);
            match attempt
            case Created(ids) =>
              && ids == Ids(cloud.next + 1 + strays, cloud.next)
              && after == AddKeys(cloud.AddRole(u), u, cloud.next, strays + 1)
            case _ =>
              if attempt.roleMade then after == AddKeys(cloud.AddRole(u), u, cloud.next, strays)
              else after == cloud && strays == 0
  {
    match role
    case RoleError(_) => assert AddKeys(cloud.AddRole(u), u, cloud.next, 0) == cloud.AddRole(u);
    case RoleUnfinished(_) => assert AddKeys(cloud.AddRole(u), u, cloud.next, 0) == cloud.AddRole(u);
    case RoleDone =>
      var one := cloud.AddRole(u);
      TryKeysMakes(one, u, cloud.next, replies, 0);
      var (after, end) := TryKeys(one, u, cloud.next, replies, 0);
      assert end.Made? ==> CreateIAMKey(cloud, u, role, replies) == (after, Created(Ids(end.key, cloud.next)));
  }

  /** What one attempt does to the remote side: `n` keys and perhaps a role, all new and all of `u`. */
  predicate Grown(u: Uid, cloud: Cloud, after: Cloud, n: nat, role: bool) {
    && IdsOrdered(after) && OnlyOf(u, cloud, after)
    && (forall r :: r in cloud.roles ==> r in after.roles && after.roles[r] == cloud.roles[r])
    && (forall k :: k in cloud.keys ==> k in after.keys && after.keys[k] == cloud.keys[k])
    && (forall k :: k in after.keys && k !in cloud.keys ==> after.keys[k].role in after.roles)
    && |after.keys| == |cloud.keys| + n
    && |KeysOf(after.keys, u)| == |KeysOf(cloud.keys, u)| + n
    && |RolesOf(after.roles, u)| == |RolesOf(cloud.roles, u)| + (if role then 1 else 0)
  }

  lemma AddRoleCounts(cloud: Cloud, u: Uid)
    requires cloud.next !in cloud.roles
    ensures |RolesOf(cloud.AddRole(u).roles, u)| == |RolesOf(cloud.roles, u)| + 1
  {
    var more := RolesOf(cloud.roles, u) + {cloud.next};
    assert forall r :: r in RolesOf(cloud.AddRole(u).roles, u) <==> r in more;
    assert RolesOf(cloud.AddRole(u).roles, u) == more;
  }

  lemma RoleThenKeys(cloud: Cloud, u: Uid, n: nat)
    requires IdsOrdered(cloud)
    ensures var after := AddKeys(cloud.AddRole(u), u, cloud.next, n);
            && Grown(u, cloud, after, n, true) && cloud.next in after.roles && after.roles[cloud.next] == u
            && after.next == cloud.next + 1 + n
            && (forall k :: cloud.next < k < after.next ==> k in after.keys && after.keys[k] == Key(u, cloud.next))
            && (forall k :: k in after.keys && k !in cloud.keys ==> cloud.next < k < after.next)
  {
    var one := cloud.AddRole(u);
    AddRoleCounts(cloud, u);
    AddKeysAdds(one, u, cloud.next, n);
    AddKeysCounts(one, u, cloud.next, n);
    assert IdsOrdered(AddKeys(one, u, cloud.next, n));
  }

  lemma AttemptGrows(cloud: Cloud, u: Uid, role: RoleReply, replies: seq<KeyReply>)
    requires IdsOrdered(cloud)
    ensures var (after, attempt) := CreateIAMKey(cloud, u, role, replies);
            && Grown(u, cloud, after, Strays(role, replies) + (if attempt.Created? then 1 else 0), MadeRole(attempt))
            && (attempt.Created? ==>
                  var ids := attempt.ids;
                  && ids.role == cloud.next && ids.role in after.roles && after.roles[ids.role] == u
                  && ids.key < after.next && ids.key in after.keys && after.keys[ids.key] == Key(u, ids.role)
                  && (Strays(role, replies) > 0 <==> OwnTwin(u, after, ids)))
  {
    var (after, attempt) := CreateIAMKey(cloud, u, role, replies);
    AttemptMakes(cloud, u, role, replies);
    if attempt.Created? {
      RoleThenKeys(cloud, u, Strays(role, replies) + 1);
      TwinsOfAttempt(cloud, u, after, attempt.ids, Strays(role, replies));
    } else if attempt.roleMade {
      RoleThenKeys(cloud, u, Strays(role, replies));
    }
  }

  /** Another key of the same resource refers to the same role. */
  predicate OwnTwin(u: Uid, cloud: Cloud, ids: Ids) {
    exists k :: k in cloud.keys && cloud.keys[k] == Key(u, ids.role) && k != ids.key
  }

  lemma TwinsOfAttempt(cloud: Cloud, u: Uid, after: Cloud, ids: Ids, strays: nat)
    requires IdsOrdered(cloud)
    requires ids == Ids(cloud.next + 1 + strays, cloud.next) && after.next == cloud.next + 2 + strays
    requires forall k :: k in cloud.keys ==> k in after.keys && after.keys[k] == cloud.keys[k]
    requires forall k :: k in after.keys && k !in cloud.keys ==> cloud.next < k < after.next
    requires forall k :: cloud.next < k < after.next ==> k in after.keys && after.keys[k] == Key(u, cloud.next)
    ensures strays > 0 <==> OwnTwin(u, after, ids)
  {
    if strays > 0 {
      assert after.keys[cloud.next + 1] == Key(u, ids.role);
    }
  }

  /** What a reconcile that creates stores and logs. */
  lemma CreateStores(t: Tracked, cloud: Cloud, u: Uid, x: Inputs)
    requires Blank(t.k) && !t.k.pending
    ensures var (t', after) := ReconcileCreate(t, cloud, u, x);
            var attempt := CreateIAMKey(cloud, u, x.role, x.replies).1;
            && after == CreateIAMKey(cloud, u, x.role, x.replies).0
            && t'.log.strays == t.log.strays + Strays(x.role, x.replies)
            && t'.log.made == (if attempt.Created? then Some(attempt.ids) else t.log.made)
            && t'.log.roleDeleted == t.log.roleDeleted && t'.log.roleRemoved == t.log.roleRemoved
            && t'.log.keysMade == t.log.keysMade + (if KeysAdded(cloud, after) > 0 then KeysAdded(cloud, after) else 0)
            && t'.log.twins == (if attempt.Created? then Strays(x.role, x.replies) else t.log.twins)
            && t'.log.orphaned ==
               t.log.orphaned + (if MadeRole(attempt) && (!attempt.Created? || t'.k.pending) then 1 else 0)
            && (if attempt.Created? && !t'.k.pending then Handed(t'.k, attempt.ids) else Blank(t'.k))
  {
  }

  lemma CreateKeeps(t: Tracked, cloud: Cloud, u: Uid, x: Inputs)
    requires IdsOrdered(cloud) && Kept(u, t, cloud) && Counted(u, t, cloud)
    requires t.log.made.None? && !t.k.pending
    ensures var (t', after) := ReconcileCreate(t, cloud, u, x);
            && IdsOrdered(after) && OnlyOf(u, cloud, after) && Kept(u, t', after) && Counted(u, t', after)
            && TwinsKnown(u, t', after)
  {
    AttemptGrows(cloud, u, x.role, x.replies);
    CreateStores(t, cloud, u, x);
    var (t', after) := ReconcileCreate(t, cloud, u, x);
    assert Kept(u, t', after);
  }

  // ---- Observe ----

  lemma TransferFindsIds(k: IAMKey, ids: Ids)
    requires Handed(k, ids)
    ensures var (seen, found) := Transfer(k);
            && found && seen.statusKey == Some(ids.key) && seen.statusRole == Some(ids.role) && Handed(seen, ids)
            && seen.annKey == (if k.statusKey.None? then None else k.annKey)
            && seen.annRole == (if k.statusRole.None? then None else k.annRole)
            && seen == k.(statusKey := seen.statusKey, statusRole := seen.statusRole,
                          annKey := seen.annKey, annRole := seen.annRole)
  {
  }

  lemma StoringKeepsIds(k: IAMKey, seen: IAMKey, ids: Ids, w: Write)
    requires Handed(k, ids) && Handed(seen, ids) && seen.statusKey.Some? && seen.pending == k.pending
    ensures Handed(StoreObserved(k, seen, w), ids) && StoreObserved(k, seen, w).pending == k.pending
  {
  }

  /** Once a key exists, every Observe that is not blocked works with exactly the ids that Create produced, and
      every way of storing its result keeps them. */
  lemma ObserveFindsIds(k: IAMKey, ids: Ids, cloud: Cloud, getFails: bool, detailsFail: bool, w: Write)
    requires Handed(k, ids)
    ensures var (seen, observation) := Observe(k, cloud, getFails, detailsFail);
            && seen.statusKey == Some(ids.key) && seen.statusRole == Some(ids.role)
            && seen.annKey == (if k.statusKey.None? then None else k.annKey)
            && seen.annRole == (if k.statusRole.None? then None else k.annRole)
            && Handed(StoreObserved(k, seen, w), ids) && StoreObserved(k, seen, w).pending == k.pending
            && (observation.NotExisting? <==> k.deleting && (getFails || ids.key !in cloud.keys))
            && (observation.Existing? <==> !getFails && !detailsFail && ids.key in cloud.keys)
  {
    TransferFindsIds(k, ids);
    StoringKeepsIds(k, Transfer(k).0, ids, w);
  }

  lemma ObserveOfBlank(k: IAMKey, cloud: Cloud, getFails: bool, detailsFail: bool)
    requires Blank(k)
    ensures Observe(k, cloud, getFails, detailsFail) == (k, NotExisting)
  {
  }

  // ---- One step ----

  /** A reconcile of a resource without ids is a Create. */
  lemma CreatePath(s: State, u: Uid, x: Inputs)
    requires u in s.resources && Blank(s.resources[u].k)
    requires var k := s.resources[u].k; !k.pending && !k.gone && !k.deleting && !x.connectFails
    ensures ReconcileOne(s.resources[u], s.cloud, u, x) == ReconcileCreate(s.resources[u], s.cloud, u, x)
  {
    var t := s.resources[u];
    ObserveOfBlank(t.k, s.cloud, x.getFails, x.detailsFail);
    assert t == t.(k := t.k.(statusKey := t.k.statusKey, statusRole := t.k.statusRole));
  }

  /** The reconciles that get to Delete. */
  predicate ReachesDelete(s: State, u: Uid, x: Inputs) {
    && u in s.resources && !s.resources[u].k.gone && !s.resources[u].k.pending && s.resources[u].k.deleting
    && !s.resources[u].k.orphan && !x.connectFails
    && Observe(s.resources[u].k, s.cloud, x.getFails, x.detailsFail).1.Existing?
  }

  lemma DeletePath(s: State, u: Uid, x: Inputs)
    requires Inv(s) && ReachesDelete(s, u, x)
    ensures var t := s.resources[u];
            && t.log.made.Some? && t.log.made.value.key in s.cloud.keys
            && Observe(t.k, s.cloud, x.getFails, x.detailsFail).0.statusKey == Some(t.log.made.value.key)
            && Observe(t.k, s.cloud, x.getFails, x.detailsFail).0.statusRole == Some(t.log.made.value.role)
            && var (t', after) := ReconcileOne(t, s.cloud, u, x);
               && after == Delete(s.cloud, t.log.made.value, x.deleteKey, x.deleteRole).0
               && Handed(t'.k, t.log.made.value) && !t'.k.pending && t'.k.deleting && !t'.k.gone && !t'.k.orphan
               && t'.log == t.log.(
                    roleDeleted := t.log.roleDeleted || (x.deleteKey.Deleted? && x.deleteRole.Deleted?),
                    roleRemoved := t.log.roleRemoved || s.cloud.roles != after.roles)
  {
    var t := s.resources[u];
    assert Kept(u, t, s.cloud);
    if t.log.made.None? {
      ObserveOfBlank(t.k, s.cloud, x.getFails, x.detailsFail);
    } else {
      ObserveFindsIds(t.k, t.log.made.value, s.cloud, x.getFails, x.detailsFail, x.write);
    }
  }

  /** Deleting removes at most the recorded key and role. */
  lemma DeleteKeeps(s: State, u: Uid, x: Inputs)
    requires Inv(s) && ReachesDelete(s, u, x)
    ensures var (t', after) := ReconcileOne(s.resources[u], s.cloud, u, x);
            && IdsOrdered(after) && OnlyOf(u, s.cloud, after)
            && Kept(u, t', after) && Counted(u, t', after) && TwinsKnown(u, t', after)
  {
    DeletePath(s, u, x);
    var t := s.resources[u];
    var ids := t.log.made.value;
    var (t', after) := ReconcileOne(t, s.cloud, u, x);
    assert Kept(u, t, s.cloud) && Counted(u, t, s.cloud) && TwinsKnown(u, t, s.cloud);
    DeleteCounts(s.cloud, u, ids, x.deleteKey, x.deleteRole);
  }

  lemma DeleteCounts(cloud: Cloud, u: Uid, ids: Ids, deleteKey: DeleteReply, deleteRole: DeleteReply)
    requires IdsOrdered(cloud) && ids.key in cloud.keys && cloud.keys[ids.key].holder == u
    requires ids.role in cloud.roles && cloud.roles[ids.role] == u
    ensures var after := Delete(cloud, ids, deleteKey, deleteRole).0;
            && IdsOrdered(after) && OnlyOf(u, cloud, after) && after.next == cloud.next
            && (ids.key in after.keys ==> after.keys == cloud.keys && after.roles == cloud.roles)
            && |KeysOf(after.keys, u)| == |KeysOf(cloud.keys, u)| - (if ids.key in after.keys then 0 else 1)
            && (ids.role in after.roles <==> after.roles == cloud.roles)
            && (deleteKey.Deleted? && deleteRole.Deleted? ==> ids.role !in after.roles)
            && |RolesOf(after.roles, u)| == |RolesOf(cloud.roles, u)| - (if ids.role in after.roles then 0 else 1)
            && (OwnTwin(u, after, ids) <==> OwnTwin(u, cloud, ids))
  {
    var after := Delete(cloud, ids, deleteKey, deleteRole).0;
    var keys, roles := KeysOf(cloud.keys, u), RolesOf(cloud.roles, u);
    assert KeysOf(after.keys, u) == if ids.key in after.keys then keys else keys - {ids.key};
    assert RolesOf(after.roles, u) == if ids.role in after.roles then roles else roles - {ids.role};
    assert forall k :: k != ids.key ==>
             (k in after.keys <==> k in cloud.keys) && (k in after.keys ==> after.keys[k] == cloud.keys[k]);
  }

  /** The reconciles that get to Create. */
  predicate ReachesCreate(t: Tracked, x: Inputs) {
    t.log.made.None? && !t.k.deleting && !t.k.pending && !t.k.gone && !x.connectFails
  }

  /** Every other reconcile leaves the remote side as it is, and what is stored consistent. */
  lemma RestKeeps(s: State, u: Uid, x: Inputs)
    requires Inv(s) && u in s.resources && !ReachesDelete(s, u, x) && !ReachesCreate(s.resources[u], x)
    ensures var t := s.resources[u];
            var (t', after) := ReconcileOne(t, s.cloud, u, x);
            && after == s.cloud && t'.log == t.log && t'.k.pending == t.k.pending && Kept(u, t', after)
  {
    var t := s.resources[u];
    assert Kept(u, t, s.cloud);
    if t.log.made.None? {
      ObserveOfBlank(t.k, s.cloud, x.getFails, x.detailsFail);
    } else if !t.k.pending {
      ObserveFindsIds(t.k, t.log.made.value, s.cloud, x.getFails, x.detailsFail, x.write);
    }
  }

  lemma ReconcileOneKeeps(s: State, u: Uid, x: Inputs)
    requires Inv(s) && u in s.resources
    ensures var (t', after) := ReconcileOne(s.resources[u], s.cloud, u, x);
            && IdsOrdered(after) && OnlyOf(u, s.cloud, after)
            && Kept(u, t', after) && Counted(u, t', after) && TwinsKnown(u, t', after)
  {
    var t := s.resources[u];
    if ReachesDelete(s, u, x) {
      DeleteKeeps(s, u, x);
    } else if ReachesCreate(t, x) {
      assert Kept(u, t, s.cloud) && Counted(u, t, s.cloud);
      CreatePath(s, u, x);
      CreateKeeps(t, s.cloud, u, x);
    } else {
      assert Counted(u, t, s.cloud) && TwinsKnown(u, t, s.cloud);
      RestKeeps(s, u, x);
    }
  }

  lemma ReconcileKeeps(s: State, u: Uid, x: Inputs)
    requires Inv(s) && u in s.resources
    ensures Inv(Apply(s, Reconcile(u, x))) && OnlyOf(u, s.cloud, Apply(s, Reconcile(u, x)).cloud)
  {
    ReconcileOneKeeps(s, u, x);
    var (t', after) := ReconcileOne(s.resources[u], s.cloud, u, x);
    InvForOne(s, u, t', after);
  }

  /** A change that concerns neither the ids nor the pending mark. */
  lemma InvRelabeled(s: State, u: Uid, k: IAMKey)
    requires Inv(s) && u in s.resources
    requires k == s.resources[u].k.(deleting := k.deleting, orphan := k.orphan)
    ensures Inv(s.(resources := s.resources[u := s.resources[u].(k := k)]))
  {
    var t := s.resources[u];
    assert Kept(u, t, s.cloud) && Counted(u, t, s.cloud) && TwinsKnown(u, t, s.cloud);
    InvForOne(s, u, t.(k := k), s.cloud);
  }

  lemma InvStep(s: State, step: Step)
    requires Inv(s)
    ensures Inv(Apply(s, step))
  {
    var u := step.u;
    if step.Reconcile? && u in s.resources {
      ReconcileKeeps(s, u, step.x);
    } else if step.ApiDelete? && u in s.resources {
      InvRelabeled(s, u, s.resources[u].k.(deleting := true));
    } else if step.ApiUpdate? && u in s.resources {
      InvRelabeled(s, u, s.resources[u].k.(orphan := step.orphan));
    } else if step.ApiCreate? && u !in s.resources {
      assert RolesOf(s.cloud.roles, u) == {} && KeysOf(s.cloud.keys, u) == {};
      InvForOne(s, u, Tracked(New(step.orphan), NOTHING), s.cloud);
    }
  }

  lemma {:induction false} InvRun(s: State, steps: seq<Step>)
    requires Inv(s)
    ensures Inv(Run(s, steps))
    decreases |steps|
  {
    if steps != [] {
      InvStep(s, steps[0]);
      InvRun(Apply(s, steps[0]), steps[1..]);
    }
  }

  // ---- At most one key ----

  /** No request that is reached fails and yet makes a key. */
  predicate Honest(step: Step) {
    step.Reconcile? ==> Strays(step.x.role, step.x.replies) == 0
  }

  predicate HonestRun(steps: seq<Step>) {
    forall i :: 0 <= i < |steps| ==> Honest(steps[i])
  }

  lemma {:induction false} HonestRunHasNoStrays(s: State, steps: seq<Step>)
    requires HonestRun(steps) && forall u :: u in s.resources ==> s.resources[u].log.strays == 0
    ensures forall u :: u in Run(s, steps).resources ==> Run(s, steps).resources[u].log.strays == 0
    decreases |steps|
  {
    if steps != [] {
      HonestRunHasNoStrays(Apply(s, steps[0]), steps[1..]);
    }
  }

  /** In every run the keys ever made for a resource are the one that Create was told of, if any, and the stray
      ones, and the stray ones are never removed; so at most one is made unless a failed request made one.
      After Create has its key, every Observe of a resource that is not blocked works with exactly the ids that
      Create produced, however its result is then stored. */
  lemma AtMostOnceKey(steps: seq<Step>, u: Uid, getFails: bool, detailsFail: bool)
    requires u in Run(INITIAL, steps).resources
    ensures var s := Run(INITIAL, steps);
            var t := s.resources[u];
            && t.log.keysMade == t.log.strays + (if t.log.made.Some? then 1 else 0)
            && |KeysOf(s.cloud.keys, u)| ==
               t.log.strays + (if t.log.made.Some? && t.log.made.value.key in s.cloud.keys then 1 else 0)
            && (t.log.keysMade <= 1 <==> t.log.strays == 0 || (t.log.strays == 1 && t.log.made.None?))
            && (HonestRun(steps) ==> t.log.strays == 0)
            && (t.log.made.Some? && !t.k.pending ==>
                  var (seen, _) := Observe(t.k, s.cloud, getFails, detailsFail);
                  seen.statusKey == Some(t.log.made.value.key) && seen.statusRole == Some(t.log.made.value.role))
  {
    InvRun(INITIAL, steps);
    var s := Run(INITIAL, steps);
    var t := s.resources[u];
    assert Kept(u, t, s.cloud) && Counted(u, t, s.cloud);
    if HonestRun(steps) {
      HonestRunHasNoStrays(INITIAL, steps);
    }
    if t.log.made.Some? && !t.k.pending {
      ObserveFindsIds(t.k, t.log.made.value, s.cloud, getFails, detailsFail, StatusOnly);
    }
  }

  // ---- Referential integrity ----

  /** Every key refers to an existing role. */
  predicate Integral(cloud: Cloud) {
    forall k :: k in cloud.keys ==> cloud.keys[k].role in cloud.roles
  }

  predicate HasTwin(cloud: Cloud, ids: Ids) {
    exists k :: k in cloud.keys && k != ids.key && cloud.keys[k].role == ids.role
  }

  /** The removal of a role that another key than the one just deleted refers to. */
  predicate Dangles(s: State, step: Step) {
    && step.Reconcile? && ReachesDelete(s, step.u, step.x)
    && step.x.deleteKey.Deleted? && step.x.deleteRole != NotDeleted(false)
    && var seen := Observe(s.resources[step.u].k, s.cloud, step.x.getFails, step.x.detailsFail).0;
       HasTwin(s.cloud, Ids(seen.statusKey.value, seen.statusRole.value))
  }

  predicate NeverDangles(s: State, steps: seq<Step>)
    decreases |steps|
  {
    steps == [] || (!Dangles(s, steps[0]) && NeverDangles(Apply(s, steps[0]), steps[1..]))
  }

  /** Delete keeps integrity unless it removes a role that another key refers to; the deleted key itself must have
      been in order for that. */
  lemma DeleteKeepsIntegrityIff(cloud: Cloud, ids: Ids, deleteKey: DeleteReply, deleteRole: DeleteReply)
    requires ids.key in cloud.keys ==> cloud.keys[ids.key].role in cloud.roles
    ensures Integral(Delete(cloud, ids, deleteKey, deleteRole).0) <==>
            Integral(cloud) && !(deleteKey.Deleted? && deleteRole != NotDeleted(false) && HasTwin(cloud, ids))
  {
    var after := Delete(cloud, ids, deleteKey, deleteRole).0;
    if deleteKey.Deleted? && deleteRole != NotDeleted(false) && HasTwin(cloud, ids) {
      var k :| k in cloud.keys && k != ids.key && cloud.keys[k].role == ids.role;
      assert k in after.keys && after.keys[k].role !in after.roles;
    } else if Integral(after) {
      forall k | k in cloud.keys
        ensures cloud.keys[k].role in cloud.roles
      {
        assert k != ids.key ==> k in after.keys;
      }
    }
  }

  lemma GrowthKeepsIntegrity(u: Uid, cloud: Cloud, after: Cloud, n: nat, role: bool)
    requires IdsOrdered(cloud) && Grown(u, cloud, after, n, role)
    ensures Integral(after) <==> Integral(cloud)
  {
    if Integral(after) {
      forall k | k in cloud.keys
        ensures cloud.keys[k].role in cloud.roles
      {
        assert after.keys[k].role in after.roles;
      }
    }
  }

  lemma CreateKeepsIntegrity(s: State, u: Uid, x: Inputs)
    requires IdsOrdered(s.cloud) && u in s.resources && Blank(s.resources[u].k)
    requires var k := s.resources[u].k; !k.pending && !k.gone && !k.deleting && !x.connectFails
    ensures Integral(ReconcileOne(s.resources[u], s.cloud, u, x).1) <==> Integral(s.cloud)
  {
    CreatePath(s, u, x);
    CreateStores(s.resources[u], s.cloud, u, x);
    AttemptGrows(s.cloud, u, x.role, x.replies);
    var (after, attempt) := CreateIAMKey(s.cloud, u, x.role, x.replies);
    var n := Strays(x.role, x.replies) + (if attempt.Created? then 1 else 0);
    GrowthKeepsIntegrity(u, s.cloud, after, n, MadeRole(attempt));
  }

  /** One step: integrity can be lost in one way only, and is never regained. */
  lemma StepIntegrityIff(s: State, step: Step)
    requires Inv(s)
    ensures Integral(Apply(s, step).cloud) <==> Integral(s.cloud) && !Dangles(s, step)
  {
    if step.Reconcile? && step.u in s.resources {
      var u, x, t := step.u, step.x, s.resources[step.u];
      assert Kept(u, t, s.cloud);
      if ReachesDelete(s, u, x) {
        DeletePath(s, u, x);
        DeleteKeepsIntegrityIff(s.cloud, t.log.made.value, x.deleteKey, x.deleteRole);
      } else if ReachesCreate(t, x) {
        CreateKeepsIntegrity(s, u, x);
      } else {
        RestKeeps(s, u, x);
      }
    }
  }

  lemma {:induction false} RunIntegrityIff(s: State, steps: seq<Step>)
    requires Inv(s)
    ensures Integral(Run(s, steps).cloud) <==> Integral(s.cloud) && NeverDangles(s, steps)
    decreases |steps|
  {
    if steps != [] {
      StepIntegrityIff(s, steps[0]);
      InvStep(s, steps[0]);
      RunIntegrityIff(Apply(s, steps[0]), steps[1..]);
    }
  }

  lemma OneElement(s: set<Id>, a: Id, b: Id)
    requires a in s && b in s && |s| == 1
    ensures a == b
  {
    assert |s - {a}| == 0;
    assert s == {a} + (s - {a});
  }

  /** A resource without stray keys has no twin of its recorded key. */
  lemma NoStraysNoTwin(s: State, u: Uid)
    requires Inv(s) && u in s.resources && s.resources[u].log.strays == 0
    requires s.resources[u].log.made.Some? && s.resources[u].log.made.value.key in s.cloud.keys
    ensures !HasTwin(s.cloud, s.resources[u].log.made.value)
  {
    var ids := s.resources[u].log.made.value;
    assert Kept(u, s.resources[u], s.cloud) && Counted(u, s.resources[u], s.cloud);
    forall k | k in s.cloud.keys && s.cloud.keys[k].role == ids.role
      ensures k == ids.key
    {
      OneElement(KeysOf(s.cloud.keys, u), k, ids.key);
    }
  }

  lemma {:induction false} HonestRunNeverDangles(s: State, steps: seq<Step>)
    requires Inv(s) && HonestRun(steps) && forall u :: u in s.resources ==> s.resources[u].log.strays == 0
    ensures NeverDangles(s, steps)
    decreases |steps|
  {
    if steps != [] {
      var step := steps[0];
      if Dangles(s, step) {
        DeletePath(s, step.u, step.x);
        NoStraysNoTwin(s, step.u);
      }
      InvStep(s, step);
      HonestRunHasNoStrays(s, [step]);
      assert Run(s, [step]) == Apply(s, step) by { assert [step][1..] == []; }
      HonestRunNeverDangles(Apply(s, step), steps[1..]);
    }
  }

  /** The role of the resource is gone and the attempt that made its key also made a stray one. */
  predicate LeavesKeyBehind(t: Tracked) {
    t.log.twins > 0 && t.log.roleRemoved
  }

  predicate NoneLeftBehind(s: State) {
    forall u :: u in s.resources ==> !LeavesKeyBehind(s.resources[u])
  }

  lemma OneLeavesBehind(s: State, u: Uid, t: Tracked, after: Cloud)
    requires u in s.resources
    requires LeavesKeyBehind(s.resources[u]) ==> LeavesKeyBehind(t)
    ensures NoneLeftBehind(State(s.resources[u := t], after)) <==> NoneLeftBehind(s) && !LeavesKeyBehind(t)
  {
    var s' := State(s.resources[u := t], after);
    assert u in s'.resources;
    assert forall v :: v in s.resources ==> v in s'.resources;
  }

  /** A step leaves a key behind exactly if it dangles. */
  lemma StepLeavesBehindIff(s: State, step: Step)
    requires Inv(s)
    ensures NoneLeftBehind(Apply(s, step)) <==> NoneLeftBehind(s) && !Dangles(s, step)
  {
    var u := step.u;
    if u !in s.resources {
      assert step.ApiCreate? ==> !LeavesKeyBehind(Tracked(New(step.orphan), NOTHING));
      assert forall v :: v in s.resources ==> v in Apply(s, step).resources;
    } else {
      match step
      case ApiCreate(_, _) =>
      case ApiUpdate(_, orphan) =>
        OneLeavesBehind(s, u, s.resources[u].(k := s.resources[u].k.(orphan := orphan)), s.cloud);
      case ApiDelete(_) =>
        OneLeavesBehind(s, u, s.resources[u].(k := s.resources[u].k.(deleting := true)), s.cloud);
      case Reconcile(_, x) =>
        ReconcileLeavesBehindIff(s, u, x);
        var (t, after) := ReconcileOne(s.resources[u], s.cloud, u, x);
        OneLeavesBehind(s, u, t, after);
    }
  }

  lemma ReconcileLeavesBehindIff(s: State, u: Uid, x: Inputs)
    requires Inv(s) && u in s.resources
    ensures LeavesKeyBehind(ReconcileOne(s.resources[u], s.cloud, u, x).0) <==>
            LeavesKeyBehind(s.resources[u]) || Dangles(s, Reconcile(u, x))
  {
    var t := s.resources[u];
    assert Kept(u, t, s.cloud) && TwinsKnown(u, t, s.cloud);
    if ReachesDelete(s, u, x) {
      DeleteLeavesBehindIff(s, u, x);
    } else if ReachesCreate(t, x) {
      CreatePath(s, u, x);
      CreateStores(t, s.cloud, u, x);
    } else {
      RestKeeps(s, u, x);
    }
  }

  lemma DeleteLeavesBehindIff(s: State, u: Uid, x: Inputs)
    requires Inv(s) && ReachesDelete(s, u, x)
    ensures !LeavesKeyBehind(s.resources[u])
    ensures LeavesKeyBehind(ReconcileOne(s.resources[u], s.cloud, u, x).0) <==> Dangles(s, Reconcile(u, x))
  {
    var t := s.resources[u];
    DeletePath(s, u, x);
    var ids := t.log.made.value;
    assert Kept(u, t, s.cloud) && TwinsKnown(u, t, s.cloud);
    TwinIsOwn(s.cloud, u, ids);
    var after := Delete(s.cloud, ids, x.deleteKey, x.deleteRole).0;
    assert after.roles != s.cloud.roles <==> x.deleteKey.Deleted? && x.deleteRole != NotDeleted(false) by {
      assert ids.role in s.cloud.roles;
    }
  }

  lemma TwinIsOwn(cloud: Cloud, u: Uid, ids: Ids)
    requires IdsOrdered(cloud) && ids.role in cloud.roles && cloud.roles[ids.role] == u
    ensures HasTwin(cloud, ids) <==> OwnTwin(u, cloud, ids)
  {
    if HasTwin(cloud, ids) {
      var k :| k in cloud.keys && k != ids.key && cloud.keys[k].role == ids.role;
      assert cloud.keys[k] == Key(u, ids.role);
    }
  }

  lemma {:induction false} RunLeavesBehindIff(s: State, steps: seq<Step>)
    requires Inv(s)
    ensures NoneLeftBehind(Run(s, steps)) <==> NoneLeftBehind(s) && NeverDangles(s, steps)
    decreases |steps|
  {
    if steps != [] {
      StepLeavesBehindIff(s, steps[0]);
      InvStep(s, steps[0]);
      RunLeavesBehindIff(Apply(s, steps[0]), steps[1..]);
    }
  }

  /** Referential integrity: after a run, with failing remote calls of every kind, every key refers to an existing
      role if and only if for no resource both a request of the attempt that made its key failed and yet made a key,
      and its role was removed; that is, if and only if no reconcile on the way removed a role that a second key
      referred to. Without failed requests that made a key this never happens. */
  lemma ReferentialIntegrity(steps: seq<Step>)
    ensures Integral(Run(INITIAL, steps).cloud) <==> NoneLeftBehind(Run(INITIAL, steps))
    ensures Integral(Run(INITIAL, steps).cloud) <==> NeverDangles(INITIAL, steps)
    ensures HonestRun(steps) ==> Integral(Run(INITIAL, steps).cloud)
  {
    RunIntegrityIff(INITIAL, steps);
    RunLeavesBehindIff(INITIAL, steps);
    if HonestRun(steps) {
      HonestRunNeverDangles(INITIAL, steps);
    }
  }

  // ---- Release ----

  /** A resource is let go exactly when it is deleting, its finalizer can be dropped, and either its policy is Orphan
      or it is not blocked, connects, and has no ids or a key that was not found. That leaves the remote side as it
      is, so the key outlives its resource exactly when it was there and the policy was Orphan or the lookup failed. */
  lemma ReleaseLeavesKeyIff(steps: seq<Step>, u: Uid, x: Inputs)
    requires u in Run(INITIAL, steps).resources && !Run(INITIAL, steps).resources[u].k.gone
    ensures var s := Run(INITIAL, steps);
            var t, s' := s.resources[u], Apply(s, Reconcile(u, x));
            && (s'.resources[u].k.gone <==> Releases(t, s.cloud, x))
            && (s'.resources[u].k.gone ==> s'.cloud == s.cloud)
            && (s'.resources[u].k.gone && t.log.made.Some? ==>
                  (t.log.made.value.key in s'.cloud.keys <==>
                   t.log.made.value.key in s.cloud.keys && (t.k.orphan || x.getFails)))
  {
    InvRun(INITIAL, steps);
    var s := Run(INITIAL, steps);
    assert Kept(u, s.resources[u], s.cloud);
    ReleasesIff(s.resources[u], s.cloud, u, x);
  }

  predicate Releases(t: Tracked, cloud: Cloud, x: Inputs) {
    && t.k.deleting && !x.finalizerFails
    && (t.k.orphan ||
        (!t.k.pending && !x.connectFails &&
         (t.log.made.None? || x.getFails || t.log.made.value.key !in cloud.keys)))
  }

  lemma ReleasesIff(t: Tracked, cloud: Cloud, u: Uid, x: Inputs)
    requires Kept(u, t, cloud) && !t.k.gone
    ensures var (t', after) := ReconcileOne(t, cloud, u, x);
            && (t'.k.gone <==> Releases(t, cloud, x))
            && (t'.k.gone ==> after == cloud)
  {
    if (t.k.deleting && t.k.orphan) || t.k.pending || x.connectFails {
    } else if t.log.made.None? {
      ObserveOfBlank(t.k, cloud, x.getFails, x.detailsFail);
    } else {
      RecordedReleasesIff(t, cloud, u, x, t.log.made.value);
    }
  }

  lemma RecordedReleasesIff(t: Tracked, cloud: Cloud, u: Uid, x: Inputs, ids: Ids)
    requires Handed(t.k, ids) && t.log.made == Some(ids)
    requires !t.k.gone && !(t.k.deleting && t.k.orphan) && !t.k.pending && !x.connectFails
    ensures var (t', after) := ReconcileOne(t, cloud, u, x);
            && (t'.k.gone <==> Releases(t, cloud, x))
            && (t'.k.gone ==> after == cloud)
  {
    TransferFindsIds(t.k, ids);
  }

  /** A resource gets to Delete exactly when it is deleting under another policy than Orphan, has its ids, connects,
      and its key is found and its connection details can be read: a credentials secret without the secret part
      blocks the deletion. */
  lemma ReachesDeleteIff(steps: seq<Step>, u: Uid, x: Inputs)
    requires u in Run(INITIAL, steps).resources && !Run(INITIAL, steps).resources[u].k.gone
    ensures var s := Run(INITIAL, steps);
            var t := s.resources[u];
            ReachesDelete(s, u, x) <==>
            && t.k.deleting && !t.k.orphan && RoleRecorded(t) && t.log.made.value.key in s.cloud.keys
            && !x.connectFails && !x.getFails && !x.detailsFail
  {
    InvRun(INITIAL, steps);
    var s := Run(INITIAL, steps);
    var t := s.resources[u];
    assert Kept(u, t, s.cloud);
    if t.log.made.None? {
      ObserveOfBlank(t.k, s.cloud, x.getFails, x.detailsFail);
    } else if !t.k.pending {
      ObserveFindsIds(t.k, t.log.made.value, s.cloud, x.getFails, x.detailsFail, x.write);
    }
  }

  // ---- Role accounting ----

  /** Role accounting, in every run: the roles held for a resource are as many as the Create attempts that made a
      role without handing it over, plus one if a role is recorded and not removed. Counting by reported deletions
      instead is right if and only if no role deletion took effect without being reported. */
  lemma RoleAccounting(steps: seq<Step>, u: Uid)
    requires u in Run(INITIAL, steps).resources
    ensures var s := Run(INITIAL, steps);
            var t := s.resources[u];
            && |RolesOf(s.cloud.roles, u)| == t.log.orphaned + (if RoleRecorded(t) && !t.log.roleRemoved then 1 else 0)
            && (|RolesOf(s.cloud.roles, u)| ==
                t.log.orphaned + (if RoleRecorded(t) && !t.log.roleDeleted then 1 else 0) <==>
                t.log.roleRemoved == t.log.roleDeleted)
  {
    InvRun(INITIAL, steps);
    var s := Run(INITIAL, steps);
    assert Kept(u, s.resources[u], s.cloud) && Counted(u, s.resources[u], s.cloud);
  }

  // ---- A failed role deletion is final ----

  /** The role of a resource whose key is gone. */
  predicate Stranded(s: State, u: Uid, role: Id) {
    && u in s.resources && s.resources[u].log.made.Some? && s.resources[u].log.made.value.role == role
    && s.resources[u].log.made.value.key !in s.cloud.keys
    && role in s.cloud.roles && s.cloud.roles[role] == u
  }

  lemma StrandedStep(s: State, u: Uid, role: Id, step: Step)
    requires Inv(s) && Stranded(s, u, role)
    ensures Stranded(Apply(s, step), u, role)
  {
    assert Kept(u, s.resources[u], s.cloud);
    if step.Reconcile? && step.u in s.resources {
      if step.u == u {
        if ReachesDelete(s, u, step.x) {
          DeletePath(s, u, step.x);
        } else {
          RestKeeps(s, u, step.x);
        }
      } else {
        ReconcileKeeps(s, step.u, step.x);
      }
    }
  }

  lemma {:induction false} StrandedRun(s: State, u: Uid, role: Id, steps: seq<Step>)
    requires Inv(s) && Stranded(s, u, role)
    ensures Stranded(Run(s, steps), u, role)
    decreases |steps|
  {
    if steps != [] {
      StrandedStep(s, u, role, steps[0]);
      InvStep(s, steps[0]);
      StrandedRun(Apply(s, steps[0]), u, role, steps[1..]);
    }
  }

  ghost predicate StaysForGood(s: State, role: Id) {
    forall later :: role in Run(s, later).cloud.roles
  }

  /** After a reconcile that called Delete, the role stays whatever happens next if and only if the key is gone and
      the role is not: the key deletion took effect without being reported, or it was reported and the role
      deletion failed. Otherwise the role is gone, or the next Delete can still remove it. */
  lemma RoleStaysForGoodIff(before: seq<Step>, u: Uid, x: Inputs)
    requires ReachesDelete(Run(INITIAL, before), u, x)
    ensures var s := Run(INITIAL, before);
            && s.resources[u].log.made.Some?
            && (StaysForGood(Apply(s, Reconcile(u, x)), s.resources[u].log.made.value.role) <==>
                x.deleteKey == NotDeleted(true) || (x.deleteKey.Deleted? && x.deleteRole == NotDeleted(false)))
  {
    InvRun(INITIAL, before);
    RoleStaysIff(Run(INITIAL, before), u, x);
  }

  lemma RoleStaysIff(s: State, u: Uid, x: Inputs)
    requires Inv(s) && ReachesDelete(s, u, x)
    ensures s.resources[u].log.made.Some?
    ensures StaysForGood(Apply(s, Reconcile(u, x)), s.resources[u].log.made.value.role) <==>
            x.deleteKey == NotDeleted(true) || (x.deleteKey.Deleted? && x.deleteRole == NotDeleted(false))
  {
    AfterDelete(s, u, x);
    ReconcileKeeps(s, u, x);
    var role, s' := s.resources[u].log.made.value.role, Apply(s, Reconcile(u, x));
    if x.deleteKey == NotDeleted(true) || (x.deleteKey.Deleted? && x.deleteRole == NotDeleted(false)) {
      StrandedStays(s', u, role);
    } else if x.deleteKey.Deleted? {
      assert role !in Run(s', []).cloud.roles;
    } else {
      NextDeleteRemovesRole(s', u);
    }
  }

  lemma StrandedStays(s: State, u: Uid, role: Id)
    requires Inv(s) && Stranded(s, u, role)
    ensures StaysForGood(s, role)
  {
    forall later
      ensures role in Run(s, later).cloud.roles
    {
      StrandedRun(s, u, role, later);
    }
  }

  lemma AfterDelete(s: State, u: Uid, x: Inputs)
    requires Inv(s) && ReachesDelete(s, u, x)
    ensures var s' := Apply(s, Reconcile(u, x));
            && s.resources[u].log.made.Some? && s'.resources[u].log.made == s.resources[u].log.made
            && var ids := s.resources[u].log.made.value;
               match (x.deleteKey, x.deleteRole)
               case (NotDeleted(false), _) =>
                 var k := s'.resources[u].k;
                 ids.key in s'.cloud.keys && k.deleting && !k.gone && !k.pending && !k.orphan
               case (NotDeleted(true), _) => Stranded(s', u, ids.role)
               case (Deleted, NotDeleted(false)) => Stranded(s', u, ids.role)
               case (Deleted, _) => ids.role !in s'.cloud.roles
  {
    DeletePath(s, u, x);
    assert Kept(u, s.resources[u], s.cloud);
  }

  /** While the key is there, one reconcile without failures removes key and role. */
  lemma NextDeleteRemovesRole(s: State, u: Uid)
    requires Inv(s) && u in s.resources && s.resources[u].log.made.Some?
    requires var k := s.resources[u].k; k.deleting && !k.gone && !k.pending && !k.orphan
    requires s.resources[u].log.made.value.key in s.cloud.keys
    ensures exists later :: s.resources[u].log.made.value.role !in Run(s, later).cloud.roles
  {
    var t := s.resources[u];
    var x := Inputs(false, false, false, RoleDone, [], false, false, false, StatusOnly, Deleted, Deleted, false);
    assert Kept(u, t, s.cloud);
    ObserveFindsIds(t.k, t.log.made.value, s.cloud, false, false, StatusOnly);
    DeletePath(s, u, x);
    var step := Reconcile(u, x);
    assert [step][1..] == [];
    assert Run(s, [step]) == Apply(s, step);
  }

  // ---- A failed key request that made a key ----

  const STRAY := Inputs(
    false, false, false, RoleDone, [KeyError(true), KeyDone], false, false, false, StatusOnly, Deleted, Deleted, false)

  /** One failed request that made a key is enough: the retry makes a second key, and deleting that one and the
      role leaves the stray key behind without a role. */
  lemma StrayKeyBreaksIntegrity()
    ensures exists steps :: && 1 in Run(INITIAL, steps).resources
                            && Run(INITIAL, steps).resources[1].log.keysMade == 2
                            && !Integral(Run(INITIAL, steps).cloud)
  {
    var create, destroy, go := ApiCreate(1, false), ApiDelete(1), Reconcile(1, STRAY);
    var s1 := Apply(INITIAL, create);
    var s2 := Apply(s1, go);
    StrayCreated();
    StrayDeleted(s2);
    var s4 := Apply(Apply(s2, destroy), go);
    FourSteps(INITIAL, create, go, destroy, go);
    assert Run(INITIAL, [create, go, destroy, go]) == s4;
    assert 1 in s4.cloud.keys && s4.cloud.keys[1].role !in s4.cloud.roles;
    AtMostOnceKey([create, go, destroy, go], 1, false, false);
  }

  lemma FourSteps(s: State, a: Step, b: Step, c: Step, d: Step)
    ensures Run(s, [a, b, c, d]) == Apply(Apply(Apply(Apply(s, a), b), c), d)
  {
    assert [a, b, c, d][1..] == [b, c, d] && [b, c, d][1..] == [c, d] && [c, d][1..] == [d] && [d][1..] == [];
    var t := Apply(Apply(s, a), b);
    assert Run(t, [c, d]) == Run(Apply(t, c), [d]) == Apply(Apply(t, c), d);
    assert Run(s, [a, b, c, d]) == Run(Apply(s, a), [b, c, d]) == Run(t, [c, d]);
  }

  const STRAYED := Cloud(map[0 := 1], map[1 := Key(1, 0), 2 := Key(1, 0)], 3)

  lemma StrayCreated()
    ensures var s := Apply(Apply(INITIAL, ApiCreate(1, false)), Reconcile(1, STRAY));
            && s.cloud == STRAYED && 1 in s.resources
            && s.resources[1].k == New(false).(annKey := Some(2), annRole := Some(0))
            && s.resources[1].log.made == Some(Ids(2, 0)) && s.resources[1].log.strays == 1
  {
    var s := Apply(INITIAL, ApiCreate(1, false));
    assert s.resources[1] == Tracked(New(false), NOTHING);
    CreatePath(s, 1, STRAY);
    StrayAttempt();
  }

  lemma StrayDeleted(s: State)
    requires s.cloud == STRAYED && 1 in s.resources
    requires s.resources[1].k == New(false).(annKey := Some(2), annRole := Some(0))
    ensures var t := Apply(Apply(s, ApiDelete(1)), Reconcile(1, STRAY));
            && t.cloud == Cloud(map[], map[1 := Key(1, 0)], 3) && 1 in t.resources
            && t.resources[1].log.made == s.resources[1].log.made
            && t.resources[1].log.strays == s.resources[1].log.strays
  {
    var t := Apply(s, ApiDelete(1));
    ObserveFindsIds(t.resources[1].k, Ids(2, 0), t.cloud, false, false, StatusOnly);
    var (after, _) := Delete(STRAYED, Ids(2, 0), Deleted, Deleted);
    assert after.keys == map[1 := Key(1, 0)] && after.roles == map[];
  }

  lemma StrayAttempt()
    ensures CreateIAMKey(INITIAL.cloud, 1, RoleDone, STRAY.replies) == (STRAYED, Created(Ids(2, 0)))
    ensures Strays(RoleDone, STRAY.replies) == 1
  {
    var c := INITIAL.cloud.AddRole(1);
    assert c == Cloud(map[0 := 1], map[], 1);
    var c1 := c.AddKey(1, 0);
    assert c1 == Cloud(map[0 := 1], map[1 := Key(1, 0)], 2);
    assert ReplyAt(STRAY.replies, 0) == KeyError(true) && ReplyAt(STRAY.replies, 1) == KeyDone;
    assert TryKeys(c1, 1, 0, STRAY.replies, 1) == (c1.AddKey(1, 0), Made(2));
    assert TryKeys(c, 1, 0, STRAY.replies, 0) == TryKeys(c1, 1, 0, STRAY.replies, 1);
    assert StrayReplies(STRAY.replies, 1) == 0 && StrayReplies(STRAY.replies, 0) == 1;
  }
}
