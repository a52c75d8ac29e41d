/** Why the hypotheses of the ownership theorem are there: for each one a run that keeps all the others
    and still breaks exclusive ownership, and the split of a reconcile into Observe and Create. */
module BucketViolations {
  import opened Wrappers
  import opened Buckets
  import opened BucketRuns

  datatype Hypothesis = KeepsLock | KeepsName | KeepsBucket | RecordsRemoval | KeepsMark

  /** Every hypothesis but `dropped`. */
  predicate ObeysAllBut(s: State, step: Step, dropped: Hypothesis) {
    && (dropped.KeepsLock? || LockEarned(s, step))
    && (dropped.KeepsName? || NameKept(s, step))
    && (dropped.KeepsBucket? || BucketKept(s, step))
    && (dropped.RecordsRemoval? || RemovalRecorded(s, step))
    && (dropped.KeepsMark? || MarkPreserved(s, step))
  }

  predicate RunsAllBut(s: State, steps: seq<Step>, dropped: Hypothesis)
    decreases |steps|
  {
    steps == [] || (ObeysAllBut(s, steps[0], dropped) && RunsAllBut(Apply(s, steps[0]), steps[1..], dropped))
  }

  const UNWRITTEN := FINE.(statusLost := true)
  const STUCK := FINE.(finalizerFails := true)

  function For(bucket: string): Spec {
    Spec(bucket, "zone", "config", DeleteIfEmpty, false)
  }

  function Claimed(name: string, bucket: string): Bucket {
    Bucket(name, For(bucket), true, "", [CREATING, SUCCESS], false, false, false)
  }

  const LOCKED := State(map[1 := Claimed("a", "x")], map["x" := Stored(Owned(1), "zone", {})])

  lemma ClaimConditions(b: Bucket)
    requires b.conditions == []
    ensures b.Mark(CREATING, SUCCESS).conditions == [CREATING, SUCCESS]
  {
    assert SetCondition([], CREATING) == [CREATING];
    assert [CREATING][1..] == [];
    assert SetCondition([CREATING], SUCCESS) == [CREATING] + [SUCCESS];
  }

  /** Creating a resource for a free bucket name and reconciling it once claims the bucket. */
  lemma ClaimTwoSteps(s: State, u: Uid, name: string, bucket: string, dropped: Hypothesis)
    requires u !in s.resources && NameFree(s, name) && bucket != "" && bucket !in s.store
    ensures var made := Apply(s, ApiCreate(u, name, For(bucket), false));
            && ObeysAllBut(s, ApiCreate(u, name, For(bucket), false), dropped)
            && ObeysAllBut(made, Reconcile(u, FINE), dropped)
            && Apply(made, Reconcile(u, FINE)) ==
               State(s.resources[u := Claimed(name, bucket)], s.store[bucket := Stored(Owned(u), "zone", {})])
  {
    var made := Apply(s, ApiCreate(u, name, For(bucket), false));
    var b := made.resources[u];
    assert b == Bucket(name, For(bucket), false, "", [], false, false, false);
    assert !b.AlreadyDeleted();
    ClaimConditions(b);
    assert Apply(made, Reconcile(u, FINE)).resources == s.resources[u := Claimed(name, bucket)];
  }

  lemma {:induction false} RunAppend(s: State, first: seq<Step>, second: seq<Step>, dropped: Hypothesis)
    ensures Run(s, first + second) == Run(Run(s, first), second)
    ensures RunsAllBut(s, first + second, dropped) <==>
            RunsAllBut(s, first, dropped) && RunsAllBut(Run(s, first), second, dropped)
    decreases |first|
  {
    if first == [] {
      assert first + second == second;
    } else {
      assert (first + second)[1..] == first[1..] + second;
      RunAppend(Apply(s, first[0]), first[1..], second, dropped);
    }
  }

  function ClaimSteps(u: Uid, name: string, bucket: string): seq<Step> {
    [ApiCreate(u, name, For(bucket), false), Reconcile(u, FINE)]
  }

  lemma ClaimRun(s: State, u: Uid, name: string, bucket: string, dropped: Hypothesis)
    requires u !in s.resources && NameFree(s, name) && bucket != "" && bucket !in s.store
    ensures RunsAllBut(s, ClaimSteps(u, name, bucket), dropped)
    ensures Run(s, ClaimSteps(u, name, bucket)) ==
            State(s.resources[u := Claimed(name, bucket)], s.store[bucket := Stored(Owned(u), "zone", {})])
  {
    ClaimTwoSteps(s, u, name, bucket, dropped);
    var create, claim := ApiCreate(u, name, For(bucket), false), Reconcile(u, FINE);
    RunOne(s, create, dropped);
    RunOne(Apply(s, create), claim, dropped);
    RunAppend(s, [create], [claim], dropped);
    assert ClaimSteps(u, name, bucket) == [create] + [claim];
  }

  /** One more step after a run. */
  lemma RunOne(s: State, step: Step, dropped: Hypothesis)
    ensures Run(s, [step]) == Apply(s, step)
    ensures RunsAllBut(s, [step], dropped) <==> ObeysAllBut(s, step, dropped)
  {
    assert [step][1..] == [];
  }

  /** Two resources hold the lock of one bucket. */
  predicate TwoHolders(s: State) {
    exists u, v :: u in s.resources && v in s.resources && u != v && s.resources[u].Holds() && s.resources[v].Holds() &&
                   s.resources[u].GetBucketName() == s.resources[v].GetBucketName()
  }

  ghost predicate Breakable(dropped: Hypothesis) {
    exists steps :: RunsAllBut(INITIAL, steps, dropped) && TwoHolders(Run(INITIAL, steps))
  }

  /** Extending the run that claims bucket x for resource 1. */
  lemma BreaksAfterClaim(rest: seq<Step>, dropped: Hypothesis)
    requires RunsAllBut(LOCKED, rest, dropped) && TwoHolders(Run(LOCKED, rest))
    ensures Breakable(dropped)
  {
    ClaimRun(INITIAL, 1, "a", "x", dropped);
    assert Run(INITIAL, ClaimSteps(1, "a", "x")) == LOCKED;
    RunAppend(INITIAL, ClaimSteps(1, "a", "x"), rest, dropped);
  }

  lemma ClaimedHolds(name: string, bucket: string)
    ensures Claimed(name, bucket).Holds()
  {
    assert FindCondition([CREATING, SUCCESS], Ready) == Some(CREATING);
  }

  /** Resource 1 still holds the lock on x although x is gone: a second resource claims x as well. */
  lemma BreaksAfterLoss(rest: seq<Step>, dropped: Hypothesis)
    requires RunsAllBut(LOCKED, rest, dropped)
    requires var s := Run(LOCKED, rest);
             && s.store == map[] && s.resources.Keys == {1} && s.resources[1].Holds()
             && s.resources[1].name == "a" && s.resources[1].GetBucketName() == "x"
    ensures Breakable(dropped)
  {
    var s := Run(LOCKED, rest);
    assert NameFree(s, "b");
    ClaimRun(s, 2, "b", "x", dropped);
    RunAppend(LOCKED, rest, ClaimSteps(2, "b", "x"), dropped);
    var t := Run(LOCKED, rest + ClaimSteps(2, "b", "x"));
    ClaimedHolds("b", "x");
    assert t.resources[1] == s.resources[1] && t.resources[2] == Claimed("b", "x");
    BreaksAfterClaim(rest + ClaimSteps(2, "b", "x"), dropped);
  }

  lemma CopiedLockBreaks()
    ensures Breakable(KeepsLock)
  {
    var copy := ApiCreate(2, "b", For("x"), true);
    var t := Apply(LOCKED, copy);
    RunOne(LOCKED, copy, KeepsLock);
    ClaimedHolds("a", "x");
    assert 1 in t.resources && t.resources[1].Holds();
    assert t.resources[2].Holds() && t.resources[2].GetBucketName() == "x";
    BreaksAfterClaim([copy], KeepsLock);
  }

  lemma RenameBreaks()
    ensures Breakable(KeepsName)
  {
    var rename := ApiUpdate(1, For("y"), true);
    ClaimRun(LOCKED, 2, "b", "y", KeepsName);
    var s := Run(LOCKED, ClaimSteps(2, "b", "y"));
    var t := Apply(s, rename);
    RunOne(s, rename, KeepsName);
    RunAppend(LOCKED, ClaimSteps(2, "b", "y"), [rename], KeepsName);
    ClaimedHolds("a", "x");
    ClaimedHolds("b", "y");
    assert t.resources[1] == Claimed("a", "y") && t.resources[2] == Claimed("b", "y");
    ClaimedHolds("a", "y");
    assert t.resources[1].GetBucketName() == t.resources[2].GetBucketName();
    BreaksAfterClaim(ClaimSteps(2, "b", "y") + [rename], KeepsName);
  }

  lemma OutOfBandRemovalBreaks()
    ensures Breakable(KeepsBucket)
  {
    RunOne(LOCKED, OutOfBandRemove("x"), KeepsBucket);
    ClaimedHolds("a", "x");
    BreaksAfterLoss([OutOfBandRemove("x")], KeepsBucket);
  }

  const DOOMED := State(map[1 := Claimed("a", "x").(deleting := true)], LOCKED.store)

  /** Deleting an empty held bucket: the storage forgets it, the mark is written unless the write is lost. */
  lemma DeleteOnce(f: Faults)
    requires f == FINE || f == UNWRITTEN
    ensures var t := Apply(DOOMED, Reconcile(1, f));
            && t.store == map[] && 1 in t.resources
            && t.resources[1].lock && !t.resources[1].gone && t.resources[1].deleting
            && !t.resources[1].pending && t.resources[1].spec == For("x") && t.resources[1].name == "a"
            && (t.resources[1].AlreadyDeleted() <==> f == FINE)
  {
    var b := DOOMED.resources[1];
    ClaimedHolds("a", "x");
    assert !b.AlreadyDeleted() && b.GetBucketName() == "x";
    var (seen, observation) := Observe(b, BucketExists(DOOMED.store, "x", "zone", false));
    assert observation.Existing?;
    var (after, ok) := Delete(seen, DOOMED.store, f.sweep, f.remove);
    assert ok && after == map[];
    DeletedMarkIff(seen, DELETING, SUCCESS);
  }

  lemma UnwrittenRemovalBreaks()
    ensures Breakable(RecordsRemoval)
  {
    RunOne(LOCKED, ApiDelete(1), RecordsRemoval);
    RunOne(DOOMED, Reconcile(1, UNWRITTEN), RecordsRemoval);
    assert Apply(LOCKED, ApiDelete(1)) == DOOMED;
    RunAppend(LOCKED, [ApiDelete(1)], [Reconcile(1, UNWRITTEN)], RecordsRemoval);
    DeleteOnce(UNWRITTEN);
    ClaimedHolds("a", "x");
    var t := Apply(DOOMED, Reconcile(1, UNWRITTEN));
    assert t.resources.Keys == {1} && t.resources[1].Holds();
    BreaksAfterLoss([ApiDelete(1)] + [Reconcile(1, UNWRITTEN)], RecordsRemoval);
  }

  lemma LostMark()
    ensures var s := Apply(DOOMED, Reconcile(1, FINE));
            var t := Apply(s, Reconcile(1, STUCK));
            && t.store == map[] && 1 in t.resources && t.resources[1].Holds() && !t.resources[1].pending
            && t.resources[1].deleting && t.resources[1].spec == For("x") && t.resources[1].name == "a"
            && t.resources.Keys == {1}
  {
    DeleteOnce(FINE);
    var s := Apply(DOOMED, Reconcile(1, FINE));
    DeletedMarkIff(s.resources[1], DELETING, FAILURE);
  }

  lemma StuckRun()
    ensures var steps := [ApiDelete(1)] + ([Reconcile(1, FINE)] + [Reconcile(1, STUCK)]);
            && RunsAllBut(LOCKED, steps, KeepsMark)
            && Run(LOCKED, steps) == Apply(Apply(DOOMED, Reconcile(1, FINE)), Reconcile(1, STUCK))
  {
    var s := Apply(DOOMED, Reconcile(1, FINE));
    RunOne(LOCKED, ApiDelete(1), KeepsMark);
    RunOne(DOOMED, Reconcile(1, FINE), KeepsMark);
    RunOne(s, Reconcile(1, STUCK), KeepsMark);
    assert Apply(LOCKED, ApiDelete(1)) == DOOMED;
    RunAppend(DOOMED, [Reconcile(1, FINE)], [Reconcile(1, STUCK)], KeepsMark);
    RunAppend(LOCKED, [ApiDelete(1)], [Reconcile(1, FINE)] + [Reconcile(1, STUCK)], KeepsMark);
    DeletionsObey(s);
  }

  lemma DeletionsObey(s: State)
    requires s == Apply(DOOMED, Reconcile(1, FINE))
    ensures ObeysAllBut(DOOMED, Reconcile(1, FINE), KeepsMark) && ObeysAllBut(s, Reconcile(1, STUCK), KeepsMark)
  {
    DeleteOnce(FINE);
  }

  lemma StuckFinalizerBreaks()
    ensures Breakable(KeepsMark)
  {
    var s := Apply(DOOMED, Reconcile(1, FINE));
    var t := Apply(s, Reconcile(1, STUCK));
    StuckRun();
    LostMark();
    BreaksAfterLoss([ApiDelete(1)] + ([Reconcile(1, FINE)] + [Reconcile(1, STUCK)]), KeepsMark);
  }

  /** Dropping any one hypothesis admits a run, obeying all the others, after which two resources hold the lock of
      the same bucket. */
  lemma EveryHypothesisIsNeeded(dropped: Hypothesis)
    ensures exists steps :: RunsAllBut(INITIAL, steps, dropped) && TwoHolders(Run(INITIAL, steps))
  {
    match dropped
    case KeepsLock => CopiedLockBreaks();
    case KeepsName => RenameBreaks();
    case KeepsBucket => OutOfBandRemovalBreaks();
    case RecordsRemoval => UnwrittenRemovalBreaks();
    case KeepsMark => StuckFinalizerBreaks();
    assert Breakable(dropped);
  }

  /** Once the deletion mark is lost, the next reconcile of the old resource removes the bucket that a
      successor has meanwhile created under the same name. */
  lemma LostMarkHitsSuccessor()
    ensures var s := Run(Apply(Apply(DOOMED, Reconcile(1, FINE)), Reconcile(1, STUCK)), ClaimSteps(2, "b", "x"));
            && "x" in s.store && s.store["x"].creator == Owned(2)
            && "x" !in Apply(s, Reconcile(1, FINE)).store
  {
    LostMark();
    var t := Apply(Apply(DOOMED, Reconcile(1, FINE)), Reconcile(1, STUCK));
    assert NameFree(t, "b");
    ClaimRun(t, 2, "b", "x", KeepsLock);
    var s := Run(t, ClaimSteps(2, "b", "x"));
    var b := s.resources[1];
    assert b == t.resources[1];
    var (seen, observation) := Observe(b, BucketExists(s.store, "x", "zone", false));
    assert observation.Existing?;
    DeleteSucceedsIff(seen, s.store, FINE.sweep, Performed);
  }

  // ---- Observe and Create as separate steps ----

  datatype Split = Split(s: State, waiting: set<Uid>)

  /** `Look` is the half of a reconcile up to an Observe that found nothing; `Claim` is the Create that
      follows, possibly much later. */
  datatype SplitStep = Look(u: Uid) | Claim(u: Uid, faults: Faults) | Whole(step: Step)

  predicate ReadyToCreate(b: Bucket) {
    !b.gone && !b.deleting && !b.pending && !b.AlreadyDeleted()
  }

  predicate FindsNothing(b: Bucket, store: Store) {
    Observe(b, BucketExists(store, b.GetBucketName(), b.spec.zone, false)).1.NotExisting?
  }

  function ApplySplit(p: Split, step: SplitStep): Split {
    match step
    case Look(u) =>
      if u in p.s.resources && ReadyToCreate(p.s.resources[u]) && FindsNothing(p.s.resources[u], p.s.store)
      then p.(waiting := p.waiting + {u}) else p
    case Claim(u, f) =>
      if u in p.waiting && u in p.s.resources then
        var (b, store) := ReconcileCreate(u, p.s.resources[u], p.s.store, f);
        Split(State(p.s.resources[u := b], store), p.waiting - {u})
      else p
    case Whole(step) => p.(s := Apply(p.s, step))
  }

  function RunSplit(p: Split, steps: seq<SplitStep>): Split
    decreases |steps|
  {
    if steps == [] then p else RunSplit(ApplySplit(p, steps[0]), steps[1..])
  }

  function Fresh(name: string): Bucket {
    Bucket(name, For("x"), false, "", [], false, false, false)
  }

  const PAST_OBSERVE := Split(State(map[1 := Fresh("a"), 2 := Fresh("b")], map[]), {1, 2})

  lemma RunSplitCons(p: Split, step: SplitStep, rest: seq<SplitStep>)
    ensures RunSplit(p, [step] + rest) == RunSplit(ApplySplit(p, step), rest)
  {
    assert ([step] + rest)[1..] == rest;
  }

  /** Two resources naming the same free bucket both get past Observe. */
  lemma BothPastObserve(rest: seq<SplitStep>)
    ensures exists steps :: RunSplit(Split(INITIAL, {}), steps) == RunSplit(PAST_OBSERVE, rest)
  {
    var p0 := Split(INITIAL, {});
    var one, two := Whole(ApiCreate(1, "a", For("x"), false)), Whole(ApiCreate(2, "b", For("x"), false));
    var p1 := ApplySplit(p0, one);
    assert p1 == Split(State(map[1 := Fresh("a")], map[]), {});
    var p2 := ApplySplit(p1, two);
    assert p2 == Split(State(map[1 := Fresh("a"), 2 := Fresh("b")], map[]), {});
    assert ReadyToCreate(Fresh("a")) && ReadyToCreate(Fresh("b"));
    assert ApplySplit(p2, Look(1)) == p2.(waiting := {1});
    assert ApplySplit(p2.(waiting := {1}), Look(2)) == PAST_OBSERVE;
    RunSplitCons(p0, one, [two] + ([Look(1)] + ([Look(2)] + rest)));
    RunSplitCons(p1, two, [Look(1)] + ([Look(2)] + rest));
    RunSplitCons(p2, Look(1), [Look(2)] + rest);
    RunSplitCons(p2.(waiting := {1}), Look(2), rest);
  }

  /** With Observe and Create apart, two resources for one bucket both pass Observe and both take the lock:
      the second Create finds the bucket existing and counts that as its own success. */
  lemma SplitBreaksOwnership()
    ensures exists steps :: TwoHolders(RunSplit(Split(INITIAL, {}), steps).s)
  {
    var rest := [Claim(1, FINE)] + ([Claim(2, FINE)] + []);
    ClaimConditions(Fresh("a"));
    ClaimConditions(Fresh("b"));
    var p := ApplySplit(PAST_OBSERVE, Claim(1, FINE));
    assert p.s.resources == map[1 := Claimed("a", "x"), 2 := Fresh("b")];
    assert p.s.store == map["x" := Stored(Owned(1), "zone", {})];
    var q := ApplySplit(p, Claim(2, FINE));
    assert q.s.resources == map[1 := Claimed("a", "x"), 2 := Claimed("b", "x")];
    RunSplitCons(PAST_OBSERVE, Claim(1, FINE), [Claim(2, FINE)] + []);
    RunSplitCons(p, Claim(2, FINE), []);
    ClaimedHolds("a", "x");
    ClaimedHolds("b", "x");
    assert q.s.resources[1].GetBucketName() == q.s.resources[2].GetBucketName();
    BothPastObserve(rest);
  }

  /** Exactly when a late Create keeps ownership: unless it finds a bucket of another resource that it can
      reach, confirms it and gets to write the lock. */
  lemma LateCreateKeepsOwnershipIff(s: State, u: Uid, f: Faults)
    requires OwnershipState(s) && u in s.resources && ReadyToCreate(s.resources[u]) && !s.resources[u].lock
    ensures var b := s.resources[u];
            var n := b.GetBucketName();
            var (after, store) := ReconcileCreate(u, b, s.store, f);
            OwnershipState(State(s.resources[u := after], store)) <==>
            !(&& n in s.store && s.store[n].creator != Owned(u) && Accessible(s.store, n, b.spec.zone)
              && !f.recheckFails && !f.annotationsLost)
  {
    var b := s.resources[u];
    var n := b.GetBucketName();
    var (after, store) := ReconcileCreate(u, b, s.store, f);
    var t := State(s.resources[u := after], store);
    assert WellOwned(u, b, s.store);
    DeletedMarkIff(b, CREATING, SUCCESS);
    DeletedMarkIff(b, CREATING, FAILURE);
    forall v | v in t.resources && v != u
      ensures WellOwned(v, t.resources[v], t.store)
    {
      assert WellOwned(v, s.resources[v], s.store);
    }
    assert u in t.resources;
    assert OwnershipState(t) <==> WellOwned(u, after, store);
  }
}
