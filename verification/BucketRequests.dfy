/**
 What a bucket policy means for a request, and what the audit therefore
 guarantees about single requests.  A request is denied when any Deny statement
 applies to it.
 */
module BucketRequests {
  import opened Patterns
  import opened BucketPolicy

  datatype Action = PutObject | DeleteObject | DeleteObjectVersion | OtherAction(name: string)

  function ActionName(action: Action): string {
    match action
    case PutObject => "s3:PutObject"
    case DeleteObject => "s3:DeleteObject"
    case DeleteObjectVersion => "s3:DeleteObjectVersion"
    case OtherAction(name) => name
  }

  /** One S3 request: its action, its object, its conditional headers and its principal. */
  datatype Request = Request(
    action: Action, resource: string, ifNoneMatch: Option<string>, ifMatch: Option<string>,
    principal: Option<string>, context: map<string, string>)

  /** The value a request supplies for a condition key. */
  function Context(req: Request, key: string): Option<string> {
    if key == "s3:if-none-match" then req.ifNoneMatch
    else if key == "s3:if-match" then req.ifMatch
    else if key == PRINCIPAL_KEY then req.principal
    else if key in req.context then Some(req.context[key]) else None
  }

  /**
   Whatever the audit does not read of a statement: other principals, other
   statement elements, other condition operators, and wildcard principal ARNs.
   Every guarantee holds for every such reading.
   */
  datatype Reading = Reading(
    principal: (Statement, Request) -> bool,
    element: (Statement, Request) -> bool,
    operator: (string, Json, Request) -> bool,
    arnLike: (string, string) -> bool)

  /** A principal pattern without wildcards names exactly itself. */
  predicate ArnMatches(m: Reading, pattern: string, arn: string) {
    if Plain(pattern) then pattern == arn else m.arnLike(pattern, arn)
  }

  /** One key of a negated string operator: true when the key is missing or no value is equal. */
  predicate StringNotEquals(value: Json, key: string, req: Request) {
    match Context(req, key)
    case None => true
    case Some(actual) => actual !in StringValues(Some(value))
  }

  /** `Null` asks for a missing key with "true" and for a present one with "false". */
  predicate NullHolds(value: Json, key: string, req: Request) {
    ("true" in StringValues(Some(value)) && Context(req, key).None?)
    || ("false" in StringValues(Some(value)) && Context(req, key).Some?)
  }

  predicate ArnNotMatched(m: Reading, value: Json, key: string, req: Request) {
    match Context(req, key)
    case None => true
    case Some(actual) => forall p :: p in StringValues(Some(value)) ==> !ArnMatches(m, p, actual)
  }

  /** One operator of a condition: all of its keys must hold. */
  predicate OperatorHolds(m: Reading, op: string, tests: Json, req: Request) {
    if !tests.Obj? then m.operator(op, tests, req)
    else if op == "StringNotEquals" then
      forall key :: key in tests.fields ==> StringNotEquals(tests.fields[key], key, req)
    else if op == "Null" then forall key :: key in tests.fields ==> NullHolds(tests.fields[key], key, req)
    else if op == "ArnNotEquals" || op == "ArnNotLike" then
      forall key :: key in tests.fields ==> ArnNotMatched(m, tests.fields[key], key, req)
    else m.operator(op, tests, req)
  }

  predicate ConditionHolds(m: Reading, condition: Json, req: Request) {
    condition.Obj? && forall op :: op in condition.fields ==> OperatorHolds(m, op, condition.fields[op], req)
  }

  predicate ConditionApplies(m: Reading, st: Statement, req: Request) {
    st.condition.None? || ConditionHolds(m, st.condition.value, req)
  }

  predicate ResourceApplies(m: Reading, st: Statement, req: Request) {
    if st.resource.Some? then Within(Resources(st), req.resource)
    else if st.notResource.Some? then !Within(StringValues(st.notResource), req.resource)
    else m.element(st, req)
  }

  predicate ActionApplies(m: Reading, st: Statement, req: Request) {
    if st.action.Some? then Within(StringValues(st.action), ActionName(req.action)) else m.element(st, req)
  }

  predicate PrincipalApplies(m: Reading, st: Statement, req: Request) {
    IsWildcardPrincipal(st.principal) || m.principal(st, req)
  }

  predicate Applies(m: Reading, st: Statement, req: Request) {
    PrincipalApplies(m, st, req) && ActionApplies(m, st, req) && ResourceApplies(m, st, req)
    && ConditionApplies(m, st, req)
  }

  ghost predicate Denied(m: Reading, sts: seq<Statement>, req: Request) {
    exists st :: st in sts && IsDeny(st) && Applies(m, st, req)
  }

  /** Some pattern of the list matches the object. */
  predicate Within(patterns: seq<string>, resource: string) {
    exists p :: p in patterns && Glob(p, resource)
  }

  predicate IsDelete(req: Request) {
    req.action == DeleteObject || req.action == DeleteObjectVersion
  }

  // ------------------------------------------------------------------
  // Exact lists

  /** The distinct values of an exact list are exactly the expected ones, when those are distinct. */
  lemma ExactIsSame(values: seq<string>, expected: seq<string>)
    requires ExactValues(values, expected) && Distinct(expected)
    ensures forall v :: v in values <==> v in expected
  {
    SizeOfDistinct(values);
    SizeOfDistinct(expected);
    var have, want := set v | v in values, set e | e in expected;
    assert want <= have;
    SubsetOfSameSize(want, have);
    forall v ensures v in values <==> v in expected {
      assert v in values <==> v in have;
      assert v in expected <==> v in want;
    }
  }

  lemma {:induction false} SizeOfDistinct(xs: seq<string>)
    requires Distinct(xs)
    ensures |set x | x in xs| == |xs|
  {
    if xs != [] {
      SizeOfDistinct(xs[1..]);
      var rest := set x | x in xs[1..];
      assert xs[0] !in rest;
      assert (set x | x in xs) == rest + {xs[0]};
    }
  }

  lemma SubsetOfSameSize<T>(a: set<T>, b: set<T>)
    requires a <= b && |a| == |b|
    ensures a == b
  {
    if x :| x in b && x !in a {
      assert a <= b - {x};
      SubsetSize(a, b - {x});
    }
  }

  lemma {:induction false} SubsetSize<T>(a: set<T>, b: set<T>)
    requires a <= b
    ensures |a| <= |b|
    decreases a
  {
    if x :| x in a {
      SubsetSize(a - {x}, b - {x});
    }
  }

  /** A statement that denies exactly puts applies to puts. */
  lemma PutActionApplies(m: Reading, st: Statement, req: Request)
    requires ActionIs(st, ["s3:PutObject"]) && req.action == PutObject
    ensures ActionApplies(m, st, req)
  {
    PlainMatchesItself("s3:PutObject", "s3:PutObject");
    assert "s3:PutObject" in ["s3:PutObject"];
  }

  /** A statement that denies exactly both deletes applies to both. */
  lemma DeleteActionApplies(m: Reading, st: Statement, req: Request)
    requires ActionIs(st, DELETE_ACTIONS) && IsDelete(req)
    ensures ActionApplies(m, st, req)
  {
    var name := ActionName(req.action);
    PlainMatchesItself(name, name);
    assert name in DELETE_ACTIONS;
  }

  // ------------------------------------------------------------------
  // Deletes

  /** Every delete of a protected object is denied, for every principal. */
  lemma DeletesDenied(m: Reading, sts: seq<Statement>, spec: Specification, req: Request)
    requires RequireDeletionDeny(sts, spec).Accepted?
    requires IsDelete(req) && Within(spec.protected, req.resource)
    ensures Denied(m, sts, req)
  {
    var p :| p in spec.protected && Glob(p, req.resource);
    var st := DeletionProofFor(sts, spec, p);
    DeleteActionApplies(m, st, req);
    assert Applies(m, st, req);
  }

  lemma DeletionProofFor(sts: seq<Statement>, spec: Specification, p: string) returns (st: Statement)
    requires RequireDeletionDeny(sts, spec).Accepted? && p in spec.protected
    ensures st in sts && IsDeny(st) && ExactDeletionDeny(st) && st.resource.Some? && p in Resources(st)
  {
    var covered := set r | r in AllResources(DeletionProofs(sts, spec));
    assert p in covered;
    st :| st in DeletionProofs(sts, spec) && p in Resources(st);
  }

  // ------------------------------------------------------------------
  // Puts

  /** A statement of the conditional-put shape, with the given condition, that names pattern `p`. */
  ghost predicate PutDeny(sts: seq<Statement>, st: Statement, condition: Json, p: string) {
    st in sts && IsDeny(st) && ConditionalPutShape(st) && p in Resources(st) && st.condition == Some(condition)
  }

  lemma ImmutableDenyFor(sts: seq<Statement>, spec: Specification, p: string) returns (st: Statement)
    requires RequireImmutableCreateOnlyDeny(sts, spec).Accepted? && p in spec.immutable
    ensures PutDeny(sts, st, IMMUTABLE_CONDITION, p)
  {
    st := PutDenyFor(sts, PutCandidates(sts, spec.immutable), IMMUTABLE_CONDITION, spec.immutable, p);
  }

  lemma PutDenyFor(sts: seq<Statement>, candidates: seq<Statement>, condition: Json, resources: seq<string>, p: string)
    returns (st: Statement)
    requires candidates == PutCandidates(sts, resources)
    requires !exists st :: st in candidates && !ConditionalPutShape(st)
    requires ExactValues(AllResources(WithCondition(candidates, condition)), resources) && p in resources
    ensures PutDeny(sts, st, condition, p)
  {
    st :| st in WithCondition(candidates, condition) && p in Resources(st);
  }

  /** A conditional-put deny applies to every put on its objects for which its condition holds. */
  lemma PutDenyApplies(m: Reading, sts: seq<Statement>, st: Statement, condition: Json, p: string, req: Request)
    requires PutDeny(sts, st, condition, p) && req.action == PutObject && Glob(p, req.resource)
    requires ConditionHolds(m, condition, req)
    ensures Denied(m, sts, req)
  {
    PutActionApplies(m, st, req);
    assert Applies(m, st, req);
  }

  /** What the three required conditions mean for the headers of a request. */
  lemma RequiredConditions(m: Reading, req: Request)
    ensures ConditionHolds(m, IMMUTABLE_CONDITION, req) <==> req.ifNoneMatch != Some("*")
    ensures ConditionHolds(m, POINTER_CONDITION, req) <==> req.ifNoneMatch != Some("*") && req.ifMatch.None?
    ensures ConditionHolds(m, AMBIGUOUS_CONDITION, req) <==> req.ifNoneMatch.Some? && req.ifMatch.Some?
  {
    HeaderTests(m, req);
    ImmutableMeans(m, req);
    PointerMeans(m, req);
    AmbiguousMeans(m, req);
  }

  lemma HeaderTests(m: Reading, req: Request)
    ensures StringNotEquals(Str("*"), "s3:if-none-match", req) <==> req.ifNoneMatch != Some("*")
    ensures NullHolds(Str("true"), "s3:if-match", req) <==> req.ifMatch.None?
    ensures NullHolds(Str("false"), "s3:if-match", req) <==> req.ifMatch.Some?
    ensures NullHolds(Str("false"), "s3:if-none-match", req) <==> req.ifNoneMatch.Some?
  {
    assert "true"[0] != "false"[0];
    assert "s3:if-match"[6] != "s3:if-none-match"[6];
    assert StringValues(Some(Str("*"))) == ["*"];
    assert StringValues(Some(Str("true"))) == ["true"];
    assert StringValues(Some(Str("false"))) == ["false"];
  }

  lemma ImmutableMeans(m: Reading, req: Request)
    ensures ConditionHolds(m, IMMUTABLE_CONDITION, req) <==> StringNotEquals(Str("*"), "s3:if-none-match", req)
  {
    var tests := Obj(map["s3:if-none-match" := Str("*")]);
    assert OperatorHolds(m, "StringNotEquals", tests, req) <==> StringNotEquals(Str("*"), "s3:if-none-match", req) by {
      assert "s3:if-none-match" in tests.fields;
    }
    assert IMMUTABLE_CONDITION.fields.Keys == {"StringNotEquals"};
  }

  lemma PointerMeans(m: Reading, req: Request)
    ensures ConditionHolds(m, POINTER_CONDITION, req) <==>
            StringNotEquals(Str("*"), "s3:if-none-match", req) && NullHolds(Str("true"), "s3:if-match", req)
  {
    var tests, nulls := Obj(map["s3:if-none-match" := Str("*")]), Obj(map["s3:if-match" := Str("true")]);
    assert OperatorHolds(m, "StringNotEquals", tests, req) <==> StringNotEquals(Str("*"), "s3:if-none-match", req) by {
      assert "s3:if-none-match" in tests.fields;
    }
    assert OperatorHolds(m, "Null", nulls, req) <==> NullHolds(Str("true"), "s3:if-match", req) by {
      assert "s3:if-match" in nulls.fields;
      assert "Null"[0] != "StringNotEquals"[0];
    }
    assert "Null" in POINTER_CONDITION.fields && "StringNotEquals" in POINTER_CONDITION.fields;
    assert POINTER_CONDITION.fields.Keys == {"StringNotEquals", "Null"};
  }

  lemma AmbiguousMeans(m: Reading, req: Request)
    ensures ConditionHolds(m, AMBIGUOUS_CONDITION, req) <==>
            NullHolds(Str("false"), "s3:if-none-match", req) && NullHolds(Str("false"), "s3:if-match", req)
  {
    var nulls := Obj(map["s3:if-none-match" := Str("false"), "s3:if-match" := Str("false")]);
    assert OperatorHolds(m, "Null", nulls, req) <==>
           NullHolds(Str("false"), "s3:if-none-match", req) && NullHolds(Str("false"), "s3:if-match", req) by {
      assert "s3:if-match" in nulls.fields && "s3:if-none-match" in nulls.fields;
      assert "Null"[0] != "StringNotEquals"[0];
      assert nulls.fields.Keys == {"s3:if-none-match", "s3:if-match"};
    }
    assert AMBIGUOUS_CONDITION.fields.Keys == {"Null"};
  }

  /** A put that is not denied on an immutable object says `If-None-Match: *`. */
  lemma ImmutablePutsCreate(m: Reading, sts: seq<Statement>, spec: Specification, req: Request)
    requires RequireImmutableCreateOnlyDeny(sts, spec).Accepted?
    requires req.action == PutObject && Within(spec.immutable, req.resource) && !Denied(m, sts, req)
    ensures req.ifNoneMatch == Some("*")
  {
    var p :| p in spec.immutable && Glob(p, req.resource);
    var st := ImmutableDenyFor(sts, spec, p);
    RequiredConditions(m, req);
    if ConditionHolds(m, IMMUTABLE_CONDITION, req) {
      PutDenyApplies(m, sts, st, IMMUTABLE_CONDITION, p, req);
    }
  }

  /** A put that is not denied on a pointer says either `If-None-Match: *` or some `If-Match`, not both. */
  lemma PointerPutsAreGuarded(m: Reading, sts: seq<Statement>, spec: Specification, req: Request)
    requires RequirePointerDenies(sts, spec).Accepted?
    requires req.action == PutObject && Within(spec.pointers, req.resource) && !Denied(m, sts, req)
    ensures req.ifMatch.Some? || req.ifNoneMatch == Some("*")
    ensures req.ifMatch.None? || req.ifNoneMatch.None?
  {
    var p :| p in spec.pointers && Glob(p, req.resource);
    var candidates := PutCandidates(sts, spec.pointers);
    RequiredConditions(m, req);
    if ConditionHolds(m, POINTER_CONDITION, req) {
      var st := PutDenyFor(sts, candidates, POINTER_CONDITION, spec.pointers, p);
      PutDenyApplies(m, sts, st, POINTER_CONDITION, p, req);
    }
    if ConditionHolds(m, AMBIGUOUS_CONDITION, req) {
      var st := PutDenyFor(sts, candidates, AMBIGUOUS_CONDITION, spec.pointers, p);
      PutDenyApplies(m, sts, st, AMBIGUOUS_CONDITION, p, req);
    }
  }

  /** A put by a principal outside a restriction's configured ARNs is denied. */
  lemma OutsidersDenied(m: Reading, sts: seq<Statement>, spec: Specification, restriction: Restriction, req: Request)
    requires RequirePublisherRestrictions(sts, spec.restrictions).Accepted? && restriction in spec.restrictions
    requires Distinct(restriction.publishers) && forall p :: p in restriction.publishers ==> Plain(p)
    requires req.action == PutObject && Within(restriction.objectArns, req.resource)
    requires req.principal.Some? ==> req.principal.value !in restriction.publishers
    ensures Denied(m, sts, req)
  {
    RestrictionAccepted(sts, spec.restrictions, restriction);
    var candidates := RestrictionCandidates(sts, restriction);
    var st := candidates[0];
    assert st in candidates;
    var principals := ConditionPrincipals(st.condition.value, restriction.operator).value;
    NotAdministrator(principals, restriction.publishers);
    ExactIsSame(principals, restriction.publishers);
    PrincipalConditionHolds(m, st.condition.value, restriction.operator, req);
    var p :| p in restriction.objectArns && Glob(p, req.resource);
    assert p in Resources(st);
    PutActionApplies(m, st, req);
    assert Applies(m, st, req);
  }

  /** A condition of the configured shape holds for a principal it does not list. */
  lemma PrincipalConditionHolds(m: Reading, condition: Json, operator: ArnOperator, req: Request)
    requires ConditionPrincipals(condition, operator).Some?
    requires forall p :: p in ConditionPrincipals(condition, operator).value ==> Plain(p)
    requires req.principal.Some? ==> req.principal.value !in ConditionPrincipals(condition, operator).value
    ensures ConditionHolds(m, condition, req)
  {
    var op := OperatorName(operator);
    var tests := condition.fields[op];
    assert op == "ArnNotEquals" || op == "ArnNotLike";
    assert op[0] != "StringNotEquals"[0] && op[0] != "Null"[0];
    assert Context(req, PRINCIPAL_KEY) == req.principal by {
      assert PRINCIPAL_KEY[0] != "s3:if-match"[0] && PRINCIPAL_KEY[0] != "s3:if-none-match"[0];
    }
    assert ArnNotMatched(m, tests.fields[PRINCIPAL_KEY], PRINCIPAL_KEY, req);
    assert OperatorHolds(m, op, tests, req);
  }

  lemma NotAdministrator(actual: seq<string>, expected: seq<string>)
    requires forall p :: p in expected ==> Plain(p)
    ensures !IsExactAdministrator(actual, expected)
  {
    if |expected| == 1 && EndsWith(expected[0], "_????????????????") {
      AdministratorHasWildcard(expected[0]);
    }
  }

  lemma AdministratorHasWildcard(pattern: string)
    requires EndsWith(pattern, "_????????????????")
    ensures !Plain(pattern)
  {
    assert pattern[|pattern| - 17..][16] == pattern[|pattern| - 1];
  }

  lemma {:induction false} RestrictionAccepted(sts: seq<Statement>, restrictions: seq<Restriction>, r: Restriction)
    requires RequirePublisherRestrictions(sts, restrictions).Accepted? && r in restrictions
    ensures RequirePublisherRestriction(sts, r).Accepted?
  {
    if r != restrictions[0] {
      RestrictionAccepted(sts, restrictions[1..], r);
    }
  }

  // ------------------------------------------------------------------
  // Retired namespaces

  /** A put to a retired object outside the current namespaces is denied, on either way of being accepted. */
  lemma RetiredPutsDenied(m: Reading, sts: seq<Statement>, spec: Specification, req: Request)
    requires RequireRetiredWriteDeny(sts, spec).Accepted? && spec.retired != []
    requires req.action == PutObject && Within(spec.retired, req.resource)
    requires !Within(spec.immutable, req.resource) && !Within(spec.pointers, req.resource)
    requires Distinct(spec.immutable + spec.pointers)
    ensures Denied(m, sts, req)
  {
    var closed := ClosedCandidates(sts);
    if |closed| == 1 {
      ClosedNamespaceDenies(m, sts, spec, closed[0], req);
    } else {
      var p :| p in spec.retired && Glob(p, req.resource);
      var candidates := RetiredCandidates(sts, spec);
      CollectedComesFrom(candidates, spec, []);
      var st :| st in candidates && UnconditionalRetired(st, spec) && p in Resources(st);
      PutActionApplies(m, st, req);
      assert Applies(m, st, req);
    }
  }

  lemma ClosedNamespaceDenies(m: Reading, sts: seq<Statement>, spec: Specification, st: Statement, req: Request)
    requires st in ClosedCandidates(sts) && ClosedNamespace(st, spec) && req.action == PutObject
    requires !Within(spec.immutable, req.resource) && !Within(spec.pointers, req.resource)
    requires Distinct(spec.immutable + spec.pointers)
    ensures Denied(m, sts, req)
  {
    ExactIsSame(StringValues(st.notResource), spec.immutable + spec.pointers);
    PutActionApplies(m, st, req);
    assert Applies(m, st, req);
  }

  predicate UnconditionalRetired(st: Statement, spec: Specification) {
    UnconditionalKeys(st) && IsWildcardPrincipal(st.principal)
    && NonemptySubset(Resources(st), spec.retired)
  }

  lemma {:induction false} CollectedComesFrom(candidates: seq<Statement>, spec: Specification, covered: seq<string>)
    requires CollectRetired(candidates, spec, covered).0.Accepted?
    ensures forall p :: p in CollectRetired(candidates, spec, covered).1 ==>
              p in covered || exists st :: st in candidates && UnconditionalRetired(st, spec) && p in Resources(st)
    decreases |candidates|
  {
    if candidates != [] {
      var st := candidates[0];
      var next := if st.condition.Some? then covered else covered + Resources(st);
      CollectedComesFrom(candidates[1..], spec, next);
      forall p | p in CollectRetired(candidates, spec, covered).1 && p !in covered
        ensures exists st :: st in candidates && UnconditionalRetired(st, spec) && p in Resources(st)
      {
        if p in next {
          assert st in candidates && UnconditionalRetired(st, spec) && p in Resources(st);
        } else {
          var other :| other in candidates[1..] && UnconditionalRetired(other, spec) && p in Resources(other);
          assert other in candidates;
        }
      }
    }
  }
}
