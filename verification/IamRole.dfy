/** The policy of an IAM role: the rule list built from the bucket names, and what it permits. */
module IamRole {
  datatype Action = Allow | Deny

  datatype Expression = OperationIn(operations: set<string>) | BucketIsNot(bucket: string) | Always

  datatype Rule = Rule(action: Action, expression: Expression)

  datatype Request = Request(operation: string, bucket: string)

  const LISTING := {"list-sos-buckets-usage", "list-buckets"}

  /** The two operations that show buckets of others. */
  predicate Lists(operation: string) {
    operation == "list-buckets" || operation == "list-sos-buckets-usage"
  }

  predicate Matches(e: Expression, r: Request) {
    match e
    case OperationIn(operations) => r.operation in operations
    case BucketIsNot(bucket) => r.bucket != bucket
    case Always => true
  }

  /** The first matching rule decides; without one the request is denied. */
  function Evaluate(rules: seq<Rule>, r: Request): Action {
    if rules == [] then Deny
    else if Matches(rules[0].expression, r) then rules[0].action
    else Evaluate(rules[1..], r)
  }

  /** A request is permitted exactly if some rule that allows matches it and no earlier rule does. */
  lemma {:induction false} EvaluateIff(rules: seq<Rule>, r: Request)
    ensures Evaluate(rules, r).Allow? <==>
            exists i :: 0 <= i < |rules| && Matches(rules[i].expression, r) && rules[i].action.Allow? &&
                        forall j :: 0 <= j < i ==> !Matches(rules[j].expression, r)
    decreases |rules|
  {
    if rules != [] && !Matches(rules[0].expression, r) {
      var rest := rules[1..];
      EvaluateIff(rest, r);
      if Evaluate(rest, r).Allow? {
        var i :| 0 <= i < |rest| && Matches(rest[i].expression, r) && rest[i].action.Allow? &&
                 forall j :: 0 <= j < i ==> !Matches(rest[j].expression, r);
        assert rules[i + 1] == rest[i];
        assert forall j :: 0 < j < i + 1 ==> rules[j] == rest[j - 1];
      }
      if i :| 0 <= i < |rules| && Matches(rules[i].expression, r) && rules[i].action.Allow? &&
              forall j :: 0 <= j < i ==> !Matches(rules[j].expression, r)
      {
        assert rest[i - 1] == rules[i];
        assert forall j :: 0 <= j < i - 1 ==> rest[j] == rules[j + 1];
      }
    }
  }

  function DenyOthers(buckets: seq<string>): seq<Rule> {
    seq(|buckets|, i requires 0 <= i < |buckets| => Rule(Deny, BucketIsNot(buckets[i])))
  }

  function RoleRules(buckets: seq<string>): seq<Rule> {
    [Rule(Deny, OperationIn(LISTING))] + DenyOthers(buckets) + [Rule(Allow, Always)]
  }

  predicate Permits(buckets: seq<string>, r: Request) {
    Evaluate(RoleRules(buckets), r).Allow?
  }

  method CreateRole(buckets: seq<string>) returns (rules: seq<Rule>)
    ensures rules == RoleRules(buckets)
    ensures forall r :: Evaluate(rules, r).Allow? <==>
                        !Lists(r.operation) && forall b :: b in buckets ==> b == r.bucket
  {
    rules := [Rule(Deny, OperationIn(LISTING))];
    for i := 0 to |buckets|
      invariant rules == [Rule(Deny, OperationIn(LISTING))] + DenyOthers(buckets[..i])
    {
      rules := rules + [Rule(Deny, BucketIsNot(buckets[i]))];
      assert DenyOthers(buckets[..i + 1]) == DenyOthers(buckets[..i]) + [Rule(Deny, BucketIsNot(buckets[i]))];
    }
    assert buckets[..|buckets|] == buckets;
    rules := rules + [Rule(Allow, Always)];
    forall r
      ensures Evaluate(rules, r).Allow? <==> !Lists(r.operation) && forall b :: b in buckets ==> b == r.bucket
    {
      RoleMeaning(buckets, r);
    }
  }

  lemma {:induction false} DenyOthersMeaning(buckets: seq<string>, r: Request)
    ensures Evaluate(DenyOthers(buckets) + [Rule(Allow, Always)], r).Allow? <==>
            forall b :: b in buckets ==> b == r.bucket
    decreases |buckets|
  {
    var rules := DenyOthers(buckets) + [Rule(Allow, Always)];
    if buckets != [] {
      DenyOthersMeaning(buckets[1..], r);
      assert rules[0] == Rule(Deny, BucketIsNot(buckets[0]));
      assert rules[1..] == DenyOthers(buckets[1..]) + [Rule(Allow, Always)];
      assert Evaluate(rules, r) == if r.bucket != buckets[0] then Deny else Evaluate(rules[1..], r);
      assert forall b :: b in buckets[1..] ==> b in buckets;
      assert forall b :: b in buckets ==> b == buckets[0] || b in buckets[1..];
      assert buckets[0] in buckets;
    } else {
      assert rules == [Rule(Allow, Always)];
    }
  }

  /** A request is permitted exactly when it is not a listing operation and its bucket equals every listed name. */
  lemma RoleMeaning(buckets: seq<string>, r: Request)
    ensures Permits(buckets, r) <==> !Lists(r.operation) && forall b :: b in buckets ==> b == r.bucket
  {
    DenyOthersMeaning(buckets, r);
    assert RoleRules(buckets)[1..] == DenyOthers(buckets) + [Rule(Allow, Always)];
  }

  /** The role keeps to the listed buckets exactly when at least one is listed. */
  lemma KeepsToListedIff(buckets: seq<string>)
    ensures (forall r :: Permits(buckets, r) ==> r.bucket in buckets) <==> buckets != []
  {
    if buckets == [] {
      RoleMeaning(buckets, Request("get-object", "x"));
      assert Permits(buckets, Request("get-object", "x"));
    } else {
      forall r | Permits(buckets, r)
        ensures r.bucket in buckets
      {
        RoleMeaning(buckets, r);
        assert buckets[0] in buckets;
      }
    }
  }

  /** The role gives access to every listed bucket, for an operation that is not a listing one, exactly when all
      listed names are the same; two different names leave access to none. */
  lemma GrantsEveryListedIff(buckets: seq<string>, operation: string)
    requires !Lists(operation)
    ensures (forall b :: b in buckets ==> Permits(buckets, Request(operation, b))) <==>
            forall b, c :: b in buckets && c in buckets ==> b == c
    ensures (exists b, c :: b in buckets && c in buckets && b != c) ==> forall r :: !Permits(buckets, r)
  {
    forall b ensures Permits(buckets, Request(operation, b)) <==> forall c :: c in buckets ==> c == b {
      RoleMeaning(buckets, Request(operation, b));
    }
    if b, c :| b in buckets && c in buckets && b != c {
      forall r ensures !Permits(buckets, r) {
        RoleMeaning(buckets, r);
      }
    }
  }
}
