/** The life of IAM keys: creating a role and a key, handing their ids over through annotations, deleting both,
    over runs with failing remote calls. */
module IamKeys {
  import opened Wrappers

  type Uid = nat
  type Id = nat

  /** The remote side. Ids are handed out in order and never reused. `roles` says for which resource a role was
      made, `keys` for which resource a key was made and which role it refers to. */
  datatype Key = Key(holder: Uid, role: Id)
  datatype Cloud = Cloud(roles: map<Id, Uid>, keys: map<Id, Key>, next: Id)
  {
    function AddRole(u: Uid): Cloud {
      Cloud(roles[next := u], keys, next + 1)
    }

    function AddKey(u: Uid, role: Id): Cloud {
      Cloud(roles, keys[next := Key(u, role)], next + 1)
    }
  }

  datatype Ids = Ids(key: Id, role: Id)

  /** The resource as stored: ids in status and in annotations, the reconciler's marks, and the deletion policy
      Orphan (release without deleting). */
  datatype IAMKey = IAMKey(
    statusKey: Option<Id>, statusRole: Option<Id>, annKey: Option<Id>, annRole: Option<Id>,
    deleting: bool, pending: bool, gone: bool, orphan: bool)

  function New(orphan: bool): IAMKey {
    IAMKey(None, None, None, None, false, false, false, orphan)
  }

  // ---- Replies of the remote side ----

  /** A role request may fail or be left unfinished, each with or without the role coming into being. */
  datatype RoleReply = RoleError(made: bool) | RoleUnfinished(made: bool) | RoleDone

  /** A key request may fail (a `stray` failure did make a key), return an empty key, or succeed. */
  datatype KeyReply = KeyError(stray: bool) | KeyEmpty | KeyDone

  /** A deletion is done, or reported as not done although it may have taken effect. */
  datatype DeleteReply = Deleted | NotDeleted(effect: bool)

  // ---- createIAMKey ----

  const ATTEMPTS := 10

  function ReplyAt(replies: seq<KeyReply>, i: nat): KeyReply {
    if i < |replies| then replies[i] else KeyError(false)
  }

  datatype LoopEnd = Exhausted | Empty | Made(key: Id)

  /** The bounded retry: failed attempts are repeated, anything else ends the loop. */
  function TryKeys(cloud: Cloud, u: Uid, role: Id, replies: seq<KeyReply>, i: nat): (r: (Cloud, LoopEnd))
    requires i <= ATTEMPTS
    decreases ATTEMPTS - i, |replies|
  {
    if i == ATTEMPTS then (cloud, Exhausted)
    else match ReplyAt(replies, i)
      case KeyError(stray) => TryKeys(if stray then cloud.AddKey(u, role) else cloud, u, role, replies, i + 1)
      case KeyEmpty => (cloud, Empty)
      case KeyDone => (cloud.AddKey(u, role), Made(cloud.next))
  }

  /** How many of the requests that the loop gets to fail and yet make a key. */
  function StrayReplies(replies: seq<KeyReply>, i: nat): nat
    requires i <= ATTEMPTS
    decreases ATTEMPTS - i, |replies|
  {
    if i == ATTEMPTS then 0
    else match ReplyAt(replies, i)
      case KeyError(stray) => (if stray then 1 else 0) + StrayReplies(replies, i + 1)
      case _ => 0
  }

  /** The stray keys of one attempt. */
  function Strays(role: RoleReply, replies: seq<KeyReply>): nat {
    if role.RoleDone? then StrayReplies(replies, 0) else 0
  }

  /** `NoKey` is the attempt that ends with a nil error and without a key. */
  datatype Attempt = Failed(roleMade: bool) | NoKey(roleMade: bool) | Created(ids: Ids)

  /** A role came into being. */
  predicate MadeRole(attempt: Attempt) {
    attempt.Created? || attempt.roleMade
  }

  function CreateIAMKey(cloud: Cloud, u: Uid, role: RoleReply, replies: seq<KeyReply>): (r: (Cloud, Attempt)) {
    match role
    case RoleError(made) => (if made then cloud.AddRole(u) else cloud, Failed(made))
    case RoleUnfinished(made) => (if made then cloud.AddRole(u) else cloud, NoKey(made))
    case RoleDone =>
      var roleId := cloud.next;
      var (after, end) := TryKeys(cloud.AddRole(u), u, roleId, replies, 0);
      match end
      case Exhausted => (after, Failed(true))
      case Empty => (after, NoKey(true))
      case Made(key) => (after, Created(Ids(key, roleId)))
  }

  lemma {:induction false} TryKeysMakesReported(cloud: Cloud, u: Uid, role: Id, replies: seq<KeyReply>, i: nat)
    requires i <= ATTEMPTS
    ensures var (after, end) := TryKeys(cloud, u, role, replies, i);
            after.roles == cloud.roles && (end.Made? ==> end.key in after.keys && after.keys[end.key] == Key(u, role))
    decreases ATTEMPTS - i
  {
    if i < ATTEMPTS && ReplyAt(replies, i).KeyError? {
      TryKeysMakesReported(
        if ReplyAt(replies, i).stray then cloud.AddKey(u, role) else cloud, u, role, replies, i + 1);
    }
  }

  /** What an attempt reports is there: the role, and the key that refers to it. */
  lemma ReportedIsThere(cloud: Cloud, u: Uid, role: RoleReply, replies: seq<KeyReply>)
    ensures var (after, attempt) := CreateIAMKey(cloud, u, role, replies);
            attempt.Created? ==> IsThere(after, u, attempt.ids)
  {
    if role.RoleDone? {
      TryKeysMakesReported(cloud.AddRole(u), u, cloud.next, replies, 0);
      var (after, end) := TryKeys(cloud.AddRole(u), u, cloud.next, replies, 0);
      assert end.Made? ==> CreateIAMKey(cloud, u, role, replies) == (after, Created(Ids(end.key, cloud.next)));
    }
  }

  predicate IsThere(cloud: Cloud, u: Uid, ids: Ids) {
    && ids.role in cloud.roles && cloud.roles[ids.role] == u
    && ids.key in cloud.keys && cloud.keys[ids.key] == Key(u, ids.role)
  }

  /** `detailsFail` is a credentials secret without the secret part of the key. */
  datatype Inputs = Inputs(
    connectFails: bool, getFails: bool, detailsFail: bool, role: RoleReply, replies: seq<KeyReply>,
    secretReadFails: bool, secretFails: bool,
    annotationsLost: bool, write: Write, deleteKey: DeleteReply, deleteRole: DeleteReply, finalizerFails: bool)

  /** What reaches the API after an Observe: nothing, the status, or the status and the deleted annotations. */
  datatype Write = Lost | StatusOnly | StatusAndAnnotations

  /** `Crash` is the nil key that the secret step runs into after an attempt without a key. */
  datatype CreateEnd = CreateOk | CreateError | Crash

  function Create(k: IAMKey, cloud: Cloud, u: Uid, x: Inputs): (r: (IAMKey, Cloud, CreateEnd, Option<Attempt>)) {
    if k.statusKey.Some? then (k, cloud, CreateOk, None)
    else
      var (after, attempt) := CreateIAMKey(cloud, u, x.role, x.replies);
      match attempt
      case Failed(_) => (k, after, CreateError, Some(attempt))
      case NoKey(_) => (k, after, if x.secretReadFails then CreateError else Crash, Some(attempt))
      case Created(ids) =>
        (k.(annKey := Some(ids.key), annRole := Some(ids.role)), after,
         if x.secretReadFails || x.secretFails then CreateError else CreateOk, Some(attempt))
  }

  // ---- Observe ----

  datatype Observation = ObserveError | NotExisting | Existing

  /** Moves the ids from the annotations to the status, in memory. */
  function Transfer(k: IAMKey): (r: (IAMKey, bool)) {
    if k.statusRole.None? && k.annRole.None? then (k, false)
    else
      var k1 := if k.statusRole.None? then k.(statusRole := k.annRole, annRole := None) else k;
      if k1.statusKey.None? && k1.annKey.None? then (k1, false)
      else ((if k1.statusKey.None? then k1.(statusKey := k1.annKey, annKey := None) else k1), true)
  }

  /** A failed lookup counts as absence while deleting; unreadable connection details are an error even then. */
  function Observe(k: IAMKey, cloud: Cloud, getFails: bool, detailsFail: bool): (r: (IAMKey, Observation)) {
    var (seen, found) := Transfer(k);
    if !found then (seen, NotExisting)
    else if getFails || seen.statusKey.value !in cloud.keys then
      (seen, if k.deleting then NotExisting else ObserveError)
    else (seen, if detailsFail then ObserveError else Existing)
  }

  // ---- Delete ----

  function RemoveKey(cloud: Cloud, key: Id, reply: DeleteReply): Cloud {
    if reply == NotDeleted(false) then cloud else cloud.(keys := cloud.keys - {key})
  }

  function RemoveRole(cloud: Cloud, role: Id, reply: DeleteReply): Cloud {
    if reply == NotDeleted(false) then cloud else cloud.(roles := cloud.roles - {role})
  }

  /** The role is touched only after the key deletion was reported done; the flag says whether the role
      deletion was reported done. */
  function Delete(cloud: Cloud, ids: Ids, deleteKey: DeleteReply, deleteRole: DeleteReply): (r: (Cloud, bool)) {
    var keyless := RemoveKey(cloud, ids.key, deleteKey);
    if !deleteKey.Deleted? then (keyless, false)
    else (RemoveRole(keyless, ids.role, deleteRole), deleteRole.Deleted?)
  }

  // ---- Runs ----

  /** What has happened to a resource so far; the controller does not read this. `keysMade` counts what appeared on
      the remote side, `strays` the failed requests among the inputs that made a key; `made` is what Create was told
      and `twins` the strays of that attempt; `orphaned` counts the attempts that made a role without handing it over;
      `roleDeleted` is a reported role deletion and `roleRemoved` one that took effect. */
  datatype Log = Log(
    keysMade: nat, strays: nat, made: Option<Ids>, twins: nat, orphaned: nat, roleDeleted: bool, roleRemoved: bool)

  const NOTHING := Log(0, 0, None, 0, 0, false, false)

  datatype Tracked = Tracked(k: IAMKey, log: Log)

  datatype State = State(resources: map<Uid, Tracked>, cloud: Cloud)

  const INITIAL := State(map[], Cloud(map[], map[], 0))

  datatype Step =
    | ApiCreate(u: Uid, orphan: bool)
    | ApiUpdate(u: Uid, orphan: bool)
    | ApiDelete(u: Uid)
    | Reconcile(u: Uid, x: Inputs)

  function StoreObserved(k: IAMKey, seen: IAMKey, w: Write): IAMKey {
    match w
    case Lost => k
    case StatusOnly => k.(statusKey := seen.statusKey, statusRole := seen.statusRole)
    case StatusAndAnnotations => seen
  }

  function KeysAdded(before: Cloud, after: Cloud): int {
    |after.keys| - |before.keys|
  }

  /** The creation half. The pending mark is written before Create and cleared with writing the annotations; a
      crash or a lost write leaves it, and it blocks the resource from then on. */
  function ReconcileCreate(t: Tracked, cloud: Cloud, u: Uid, x: Inputs): (r: (Tracked, Cloud)) {
    var (created, after, end, attempt) := Create(t.k, cloud, u, x);
    var stored := !end.Crash? && !x.annotationsLost;
    var handed := stored && attempt.Some? && attempt.value.Created?;
    var log := t.log.(
      keysMade := if KeysAdded(cloud, after) > 0 then t.log.keysMade + KeysAdded(cloud, after) else t.log.keysMade,
      strays := if attempt.Some? then t.log.strays + Strays(x.role, x.replies) else t.log.strays,
      made := if attempt.Some? && attempt.value.Created? then Some(attempt.value.ids) else t.log.made,
      twins := if attempt.Some? && attempt.value.Created? then Strays(x.role, x.replies) else t.log.twins,
      orphaned := if attempt.Some? && MadeRole(attempt.value) && !handed then t.log.orphaned + 1 else t.log.orphaned);
    (Tracked(if stored then created else t.k.(pending := true), log), after)
  }

  function ReconcileDelete(t: Tracked, seen: IAMKey, cloud: Cloud, x: Inputs): (r: (Tracked, Cloud))
    requires seen.statusKey.Some? && seen.statusRole.Some?
  {
    var (after, roleDone) := Delete(cloud, Ids(seen.statusKey.value, seen.statusRole.value), x.deleteKey, x.deleteRole);
    var log := t.log.(
      roleDeleted := t.log.roleDeleted || roleDone,
      roleRemoved := t.log.roleRemoved || (cloud.roles != after.roles));
    (Tracked(StoreObserved(t.k, seen, x.write), log), after)
  }

  function ReconcileOne(t: Tracked, cloud: Cloud, u: Uid, x: Inputs): (r: (Tracked, Cloud)) {
    if t.k.gone then (t, cloud)
    else if t.k.deleting && t.k.orphan then (t.(k := Release(t.k, t.k, x)), cloud)
    else if t.k.pending || x.connectFails then (t, cloud)
    else
      var (seen, observation) := Observe(t.k, cloud, x.getFails, x.detailsFail);
      match observation
      case ObserveError => (t.(k := StoreObserved(t.k, seen, x.write)), cloud)
      case Existing =>
        if t.k.deleting then ReconcileDelete(t, seen, cloud, x)
        else (t.(k := StoreObserved(t.k, seen, x.write)), cloud)
      case NotExisting =>
        if t.k.deleting then (t.(k := Release(t.k, seen, x)), cloud)
        // Before Create the stored object is written and read back: the annotations as observed, the status as stored.
        else ReconcileCreate(t.(k := seen.(statusKey := t.k.statusKey, statusRole := t.k.statusRole)), cloud, u, x)
  }

  /** Drops the finalizer; if that fails the observed status is written instead. */
  function Release(k: IAMKey, seen: IAMKey, x: Inputs): IAMKey {
    if x.finalizerFails then StoreObserved(k, seen, x.write) else k.(gone := true)
  }

  function Apply(s: State, step: Step): State {
    match step
    case ApiCreate(u, orphan) =>
      if u in s.resources then s else s.(resources := s.resources[u := Tracked(New(orphan), NOTHING)])
    case ApiUpdate(u, orphan) =>
      if u in s.resources then
        s.(resources := s.resources[u := s.resources[u].(k := s.resources[u].k.(orphan := orphan))])
      else s
    case ApiDelete(u) =>
      if u in s.resources then
        s.(resources := s.resources[u := s.resources[u].(k := s.resources[u].k.(deleting := true))])
      else s
    case Reconcile(u, x) =>
      if u in s.resources then
        var (t, cloud) := ReconcileOne(s.resources[u], s.cloud, u, x);
        State(s.resources[u := t], cloud)
      else s
  }

  function Run(s: State, steps: seq<Step>): State
    decreases |steps|
  {
    if steps == [] then s else Run(Apply(s, steps[0]), steps[1..])
  }
}
