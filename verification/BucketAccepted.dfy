/**
 Policy documents that the audit accepts, for every specification built for a
 target whose names are apart, and what such a document still lets through.
 */
module BucketAccepted {
  import opened Patterns
  import opened BucketPolicy
  import opened BucketRequests
  import opened BucketRequired
  import opened BucketRuns
  import opened BucketInventory
  import opened BucketBuilt

  function Entry(key: string, value: Option<Json>): map<string, Json> {
    match value
    case None => map[]
    case Some(json) => map[key := json]
  }

  function Entries(keys: seq<string>, values: seq<Option<Json>>): map<string, Json>
    requires |keys| == |values|
  {
    if keys == [] then map[] else Entry(keys[0], values[0]) + Entries(keys[1..], values[1..])
  }

  const STATEMENT_KEYS := ["Sid", "Effect", "Principal", "Action", "Resource", "NotResource", "Condition"]

  /** A statement of known elements as a record of a policy document. */
  function StatementFields(st: Statement): map<string, Json> {
    Entries(STATEMENT_KEYS, [st.sid, st.effect, st.principal, st.action, st.resource, st.notResource, st.condition])
  }

  function StatementRecords(sts: seq<Statement>): (items: seq<Json>)
    ensures |items| == |sts| && forall i :: 0 <= i < |sts| ==> items[i] == Obj(StatementFields(sts[i]))
  {
    seq(|sts|, i requires 0 <= i < |sts| => Obj(StatementFields(sts[i])))
  }

  function PolicyOf(sts: seq<Statement>): Json {
    Obj(map["Version" := Str("2012-10-17"), "Statement" := Arr(StatementRecords(sts))])
  }

  lemma KeysDiffer()
    ensures Distinct(STATEMENT_KEYS)
  {
    assert "Effect"[0] == 'E' && "Action"[0] == 'A' && "Principal"[0] == 'P' && "Condition"[0] == 'C';
  }

  lemma {:induction false} EntriesReadBack(keys: seq<string>, values: seq<Option<Json>>)
    requires |keys| == |values| && Distinct(keys)
    ensures forall i :: 0 <= i < |keys| ==> Field(Entries(keys, values), keys[i]) == values[i]
    ensures forall key :: key in Entries(keys, values) ==> key in keys
  {
    if keys != [] {
      EntriesReadBack(keys[1..], values[1..]);
      forall i | 0 <= i < |keys| ensures Field(Entries(keys, values), keys[i]) == values[i] {
        assert i > 0 ==> keys[i] == keys[1..][i - 1] && values[i] == values[1..][i - 1];
        assert i == 0 ==> keys[0] !in keys[1..];
      }
    }
  }

  lemma KeysAreKnown(key: string)
    requires key in STATEMENT_KEYS
    ensures key in KNOWN_KEYS
  {}

  /** A record reads back as its statement. */
  lemma StatementReadsBack(st: Statement)
    requires st.others == {}
    ensures StatementOf(StatementFields(st)) == st
  {
    var keys := STATEMENT_KEYS;
    var values := [st.sid, st.effect, st.principal, st.action, st.resource, st.notResource, st.condition];
    KeysDiffer();
    EntriesReadBack(keys, values);
    var fields := StatementFields(st);
    assert Field(fields, keys[0]) == values[0] && Field(fields, keys[1]) == values[1];
    assert Field(fields, keys[2]) == values[2] && Field(fields, keys[3]) == values[3];
    assert Field(fields, keys[4]) == values[4] && Field(fields, keys[5]) == values[5];
    assert Field(fields, keys[6]) == values[6];
    forall key | key in fields ensures key in KNOWN_KEYS {
      KeysAreKnown(key);
    }
  }

  lemma PolicyReadsBack(sts: seq<Statement>)
    requires forall i :: 0 <= i < |sts| ==> sts[i].others == {}
    ensures PolicyStatements(PolicyOf(sts)) == Some(sts)
  {
    var fields := PolicyOf(sts).fields;
    assert "Version"[0] != "Statement"[0];
    assert fields["Statement"] == Arr(StatementRecords(sts)) && fields["Version"] == Str("2012-10-17");
    assert fields.Keys == {"Version", "Statement"};
    forall i | 0 <= i < |sts| ensures StatementOf(StatementRecords(sts)[i].fields) == sts[i] {
      StatementReadsBack(sts[i]);
    }
    assert StatementsOf(StatementRecords(sts)) == sts;
  }

  lemma RequiredHaveNoOthers(sids: seq<string>, spec: Specification)
    requires |sids| == |spec.restrictions| + 5
    ensures forall i :: 0 <= i < |RequiredStatements(sids, spec)| ==> RequiredStatements(sids, spec)[i].others == {}
  {}

  lemma AcceptedByParts(spec: Specification, policy: Json, sts: seq<Statement>)
    requires policy.Obj? && policy.fields.Keys == {"Version", "Statement"}
    requires policy.fields["Version"] == Str("2012-10-17")
    requires PolicyStatements(policy) == Some(sts) && RequireStatements(sts, spec).Accepted?
    ensures AuditObservation(spec, spec.bucketName, "Enabled", policy).Accepted?
  {}

  lemma PolicyHasParts(sts: seq<Statement>)
    ensures PolicyOf(sts).fields.Keys == {"Version", "Statement"}
    ensures PolicyOf(sts).fields["Version"] == Str("2012-10-17")
  {
    assert "Version"[0] != "Statement"[0];
  }

  /** The audit of a built specification accepts the document made of the statements it asks for. */
  lemma BuiltIsAccepted(t: Target, spec: Specification, sids: seq<string>)
    requires NamesApart(t) && spec in BuildSpecifications(t)
    requires |sids| == |spec.restrictions| + 5 && Distinct(sids)
    ensures AuditObservation(spec, spec.bucketName, "Enabled", PolicyOf(RequiredStatements(sids, spec))).Accepted?
    ensures PolicyStatements(PolicyOf(RequiredStatements(sids, spec))) == Some(RequiredStatements(sids, spec))
  {
    BuiltIsWellPosed(t, spec);
    RequiredIsAccepted(sids, spec);
    var sts := RequiredStatements(sids, spec);
    RequiredHaveNoOthers(sids, spec);
    PolicyReadsBack(sts);
    PolicyHasParts(sts);
    AcceptedByParts(spec, PolicyOf(sts), sts);
  }

  lemma RetiredDenied(m: Reading, sts: seq<Statement>, spec: Specification, req: Request)
    requires RequireStatements(sts, spec).Accepted? && WellPosed(spec)
    requires req.action == PutObject && Within(spec.retired, req.resource)
    requires !Within(spec.immutable, req.resource) && !Within(spec.pointers, req.resource)
    ensures Denied(m, sts, req)
  {
    RetiredPutsDenied(m, sts, spec, req);
  }

  /** Under an accepted audit of a built specification, puts to retired objects outside the current namespaces are
      denied. */
  lemma RetiredStaysClosed(w: Setting, t: Target, spec: Specification, bucketName: string, versioning: string,
                           policy: Json, req: Request)
    requires NamesApart(t) && Audited(w, t, spec, bucketName, versioning, policy)
    requires req.action == PutObject && Within(spec.retired, req.resource)
    requires !Within(spec.immutable, req.resource) && !Within(spec.pointers, req.resource)
    ensures Denied(w.reading, w.statements, req)
  {
    BuiltIsWellPosed(t, spec);
    AuditedStatements(w, t, spec, bucketName, versioning, policy);
    RetiredDenied(w.reading, w.statements, spec, req);
  }

  // ------------------------------------------------------------------
  // What an accepted document lets through

  /** Under a plain prefix only the tails are compared. */
  lemma {:induction false} PlainPrefixGlob(prefix: string, tail: string, rest: string)
    requires Plain(prefix)
    ensures Glob(prefix + tail, prefix + rest) <==> Glob(tail, rest)
  {
    if prefix == "" {
      assert prefix + tail == tail && prefix + rest == rest;
    } else {
      assert (prefix + tail)[1..] == prefix[1..] + tail && (prefix + rest)[1..] == prefix[1..] + rest;
      PlainPrefixGlob(prefix[1..], tail, rest);
    }
  }

  /** The pointer of the toolchain, and the role that may replace it. */
  function ToolchainPointer(t: Target): string {
    Under(ReleaseArn(t), "promotions/toolchain/current.json")
  }

  function ToolchainPublisher(t: Target): string {
    RoleArn(t, t.names.toolchainPointerRole)
  }

  /** A put by that role on that pointer with `If-Match: *`. */
  function StarPut(t: Target): Request {
    Request(PutObject, ToolchainPointer(t), None, Some("*"), Some(ToolchainPublisher(t)), map[])
  }

  predicate PlainNames(t: Target) {
    Plain(ReleaseArn(t)) && Plain(ToolchainPublisher(t))
  }

  lemma InitialsDiffer(prefix: string, tail: string, rest: string)
    requires Plain(prefix) && tail != "" && rest != "" && tail[0] != '*' && tail[0] != '?' && tail[0] != rest[0]
    ensures !Glob(Under(prefix, tail), Under(prefix, rest))
  {
    PlainPrefixGlob(prefix + "/", tail, rest);
  }

  lemma PlainTails(prefix: string, tail: string, rest: string)
    requires Plain(prefix) && Plain(tail)
    ensures Glob(Under(prefix, tail), Under(prefix, rest)) <==> tail == rest
  {
    PlainPrefixGlob(prefix + "/", tail, rest);
    PlainMatchesItself(tail, rest);
  }

  /** The patterns of the other restrictions and of the immutable objects do not match the pointer. */
  lemma OthersDoNotMatch(t: Target)
    requires Plain(ReleaseArn(t))
    ensures !Glob(Under(ReleaseArn(t), "artifacts/toolchain/candidates/*"), ToolchainPointer(t))
    ensures !Glob(Under(ReleaseArn(t), "artifacts/prover/candidates/*"), ToolchainPointer(t))
    ensures !Glob(Under(ReleaseArn(t), "promotions/prover/current.json"), ToolchainPointer(t))
    ensures Glob(ToolchainPointer(t), ToolchainPointer(t))
  {
    var rest, other := "promotions/toolchain/current.json", "promotions/prover/current.json";
    InitialsDiffer(ReleaseArn(t), "artifacts/toolchain/candidates/*", rest);
    InitialsDiffer(ReleaseArn(t), "artifacts/prover/candidates/*", rest);
    assert other[11] != rest[11];
    PlainTails(ReleaseArn(t), other, rest);
    PlainTails(ReleaseArn(t), rest, rest);
  }

  lemma OneNotWithin(pattern: string, resource: string)
    ensures Within([pattern], resource) <==> Glob(pattern, resource)
  {
    assert pattern in [pattern];
  }

  lemma TwoNotWithin(a: string, b: string, resource: string)
    ensures Within([a, b], resource) <==> Glob(a, resource) || Glob(b, resource)
  {
    assert a in [a, b] && b in [a, b];
  }

  /** A put statement does not apply when its patterns or its condition do not. */
  lemma PutStatementSpares(m: Reading, sid: string, resources: seq<string>, condition: Json, req: Request)
    requires !Within(resources, req.resource) || !ConditionHolds(m, condition, req)
    ensures !Applies(m, PutStatement(sid, resources, condition), req)
  {
    TextsAreValues(resources);
  }

  lemma NoDeleteIsPut()
    ensures !Within(DELETE_ACTIONS, "s3:PutObject")
  {
    var name := "s3:PutObject";
    PlainNoMatch(DELETE_ACTIONS[0], name, 3);
    PlainNoMatch(DELETE_ACTIONS[1], name, 3);
  }

  lemma PlainNoMatch(pattern: string, s: string, i: nat)
    requires Plain(pattern) && i < |pattern| && i < |s| && pattern[i] != s[i]
    ensures !Glob(pattern, s)
  {
    PlainMatchesItself(pattern, s);
  }

  lemma DeletionSpares(m: Reading, sid: string, spec: Specification, req: Request)
    requires req.action == PutObject
    ensures !Applies(m, DeletionStatement(sid, spec), req)
  {
    TextsAreValues(DELETE_ACTIONS);
    NoDeleteIsPut();
  }

  lemma ClosedSpares(m: Reading, sid: string, spec: Specification, req: Request)
    requires Within(spec.immutable + spec.pointers, req.resource)
    ensures !Applies(m, ClosedStatement(sid, spec), req)
  {
    TextsAreValues(spec.immutable + spec.pointers);
  }

  /** A restriction does not hold for a plain principal that it lists. */
  lemma ListedPrincipalSpared(m: Reading, r: Restriction, req: Request)
    requires r.operator == ArnNotEquals && !IsAdministratorPattern(r.publishers)
    requires req.principal.Some? && req.principal.value in r.publishers && Plain(req.principal.value)
    ensures !ConditionHolds(m, PrincipalCondition(r), req)
  {
    var op := OperatorName(r.operator);
    var condition := PrincipalCondition(r);
    OperatorNames(r.operator);
    TextsAreValues(PrincipalsOf(r));
    assert op in condition.fields && PRINCIPAL_KEY in condition.fields[op].fields;
    assert Context(req, PRINCIPAL_KEY) == req.principal by {
      assert PRINCIPAL_KEY[0] == 'a' && "s3:if-match"[0] == 's' && "s3:if-none-match"[0] == 's';
    }
    assert !ArnNotMatched(m, condition.fields[op].fields[PRINCIPAL_KEY], PRINCIPAL_KEY, req);
  }

  lemma NoPlainAdministrator(arn: string)
    requires Plain(arn)
    ensures !IsAdministratorPattern([arn])
  {
    if EndsWith(arn, ADMINISTRATOR_END) {
      AdministratorHasWildcard(arn);
    }
  }

  lemma RestrictionsSpare(m: Reading, t: Target, i: nat)
    requires PlainNames(t) && i < |ReleaseSpecification(t).restrictions|
    ensures var r := ReleaseSpecification(t).restrictions[i];
      !Within(r.objectArns, ToolchainPointer(t)) || !ConditionHolds(m, PrincipalCondition(r), StarPut(t))
  {
    OthersDoNotMatch(t);
    var r := ReleaseSpecification(t).restrictions[i];
    OneNotWithin(r.objectArns[0], ToolchainPointer(t));
    if i == 2 {
      NoPlainAdministrator(ToolchainPublisher(t));
      ListedPrincipalSpared(m, r, StarPut(t));
    }
  }

  lemma StarPutConditions(m: Reading, t: Target)
    ensures !ConditionHolds(m, POINTER_CONDITION, StarPut(t)) && !ConditionHolds(m, AMBIGUOUS_CONDITION, StarPut(t))
  {
    RequiredConditions(m, StarPut(t));
  }

  lemma ReleasePlaces(t: Target)
    requires Plain(ReleaseArn(t))
    ensures !Within(ReleaseSpecification(t).immutable, ToolchainPointer(t))
    ensures Within(ReleaseSpecification(t).immutable + ReleaseSpecification(t).pointers, ToolchainPointer(t))
    ensures Within(ReleaseSpecification(t).pointers, ToolchainPointer(t))
  {
    OthersDoNotMatch(t);
    var spec := ReleaseSpecification(t);
    TwoNotWithin(spec.immutable[0], spec.immutable[1], ToolchainPointer(t));
    assert spec.pointers[0] == ToolchainPointer(t);
    assert ToolchainPointer(t) in spec.immutable + spec.pointers;
  }

  /** The required statements do not deny the put with `If-Match: *`. */
  lemma StarPutIsUndenied(m: Reading, t: Target, sids: seq<string>)
    requires PlainNames(t)
    requires |sids| == |ReleaseSpecification(t).restrictions| + 5 && Distinct(sids)
    ensures !Denied(m, RequiredStatements(sids, ReleaseSpecification(t)), StarPut(t))
  {
    var spec, req := ReleaseSpecification(t), StarPut(t);
    forall st | st in RequiredStatements(sids, spec) ensures !Applies(m, st, req) {
      RequiredAreListed(sids, spec);
      StatementSpares(m, t, sids, st);
    }
  }

  lemma StatementSpares(m: Reading, t: Target, sids: seq<string>, st: Statement)
    requires PlainNames(t)
    requires |sids| == |ReleaseSpecification(t).restrictions| + 5 && Listed(sids, ReleaseSpecification(t), st)
    ensures !Applies(m, st, StarPut(t))
  {
    var spec, req := ReleaseSpecification(t), StarPut(t);
    ReleasePlaces(t);
    StarPutConditions(m, t);
    if st == DeletionStatement(sids[0], spec) {
      DeletionSpares(m, sids[0], spec, req);
    } else if st == PutStatement(sids[1], spec.immutable, IMMUTABLE_CONDITION) {
      PutStatementSpares(m, sids[1], spec.immutable, IMMUTABLE_CONDITION, req);
    } else if st == PutStatement(sids[2], spec.pointers, POINTER_CONDITION) {
      PutStatementSpares(m, sids[2], spec.pointers, POINTER_CONDITION, req);
    } else if st == PutStatement(sids[3], spec.pointers, AMBIGUOUS_CONDITION) {
      PutStatementSpares(m, sids[3], spec.pointers, AMBIGUOUS_CONDITION, req);
    } else if st == ClosedStatement(sids[4], spec) {
      ClosedSpares(m, sids[4], spec, req);
    } else {
      var i :| 0 <= i < |spec.restrictions| && st == RestrictionStatement(sids, spec, i);
      RestrictionsSpare(m, t, i);
      PutStatementSpares(m, sids[i + 5], spec.restrictions[i].objectArns, PrincipalCondition(spec.restrictions[i]),
                         req);
    }
  }

  /**
   Under a document that the audit accepts for the release bucket, the publisher of
   a pointer replaces whatever version it holds without naming it, by `If-Match: *`.
   */
  lemma StarReplacesUnderAudit(w: Setting, t: Target, sids: seq<string>, before: Store, version: Version)
    requires NamesApart(t) && PlainNames(t)
    requires |sids| == |ReleaseSpecification(t).restrictions| + 5 && Distinct(sids)
    requires w.statements == RequiredStatements(sids, ReleaseSpecification(t))
    requires ToolchainPointer(t) in before && version != before[ToolchainPointer(t)]
    requires !w.tags.listed("*", before[ToolchainPointer(t)].etag)
    ensures Audited(w, t, ReleaseSpecification(t), t.names.releaseBucket, "Enabled", PolicyOf(w.statements))
    ensures Within(ReleaseSpecification(t).pointers, ToolchainPointer(t))
    ensures var after := before[ToolchainPointer(t) := version];
      Run(w, [StarPut(t)], [before, after]) && Replaces(before, after, ToolchainPointer(t))
  {
    BuiltIsAccepted(t, ReleaseSpecification(t), sids);
    ReleasePlaces(t);
    StarPutIsUndenied(w.reading, t, sids);
    StarRuns(w, ToolchainPointer(t), Some(ToolchainPublisher(t)), before, version);
  }

  lemma StarRuns(w: Setting, resource: string, principal: Option<string>, before: Store, version: Version)
    requires resource in before && version != before[resource] && !w.tags.listed("*", before[resource].etag)
    requires !Denied(w.reading, w.statements, Request(PutObject, resource, None, Some("*"), principal, map[]))
    ensures var req := Request(PutObject, resource, None, Some("*"), principal, map[]);
      var after := before[resource := version];
      Run(w, [req], [before, after]) && Replaces(before, after, resource)
  {
    StarReplacesUnnamed(w, resource, principal, before, version);
  }
}
