/**
 The statements that a specification asks for.  A policy made of them is accepted, so
 what is proved of accepted policies speaks of policies that exist.
 */
module BucketRequired {
  import opened BucketPolicy
  import opened BucketRequests

  function Texts(ss: seq<string>): Json {
    Arr(seq(|ss|, i requires 0 <= i < |ss| => Str(ss[i])))
  }

  lemma TextsAreValues(ss: seq<string>)
    ensures StringValues(Some(Texts(ss))) == ss
  {
    assert AllStrings(Texts(ss).items);
  }

  function WildcardDeny(sid: string, action: Json): Statement {
    Statement(Some(Str(sid)), Some(Str("Deny")), Some(Str("*")), Some(action), None, None, None, {})
  }

  function DeletionStatement(sid: string, spec: Specification): Statement {
    WildcardDeny(sid, Texts(DELETE_ACTIONS)).(resource := Some(Texts(spec.protected)))
  }

  function PutStatement(sid: string, resources: seq<string>, condition: Json): Statement {
    WildcardDeny(sid, Str("s3:PutObject")).(resource := Some(Texts(resources)), condition := Some(condition))
  }

  function ClosedStatement(sid: string, spec: Specification): Statement {
    WildcardDeny(sid, Str("s3:PutObject")).(notResource := Some(Texts(spec.immutable + spec.pointers)))
  }

  /** The administrator role whose unknown digits are all zero, or the configured principals. */
  function PrincipalsOf(r: Restriction): seq<string> {
    if IsAdministratorPattern(r.publishers) then [r.publishers[0][..|r.publishers[0]| - 16] + "0000000000000000"]
    else r.publishers
  }

  predicate IsAdministratorPattern(publishers: seq<string>) {
    |publishers| == 1 && EndsWith(publishers[0], "_????????????????")
  }

  function PrincipalCondition(r: Restriction): Json {
    Obj(map[OperatorName(r.operator) := Obj(map[PRINCIPAL_KEY := Texts(PrincipalsOf(r))])])
  }

  function RestrictionStatements(sids: seq<string>, rs: seq<Restriction>): (sts: seq<Statement>)
    requires |sids| == |rs|
    ensures |sts| == |rs|
    ensures forall i :: 0 <= i < |rs| ==>
              sts[i] == PutStatement(sids[i], rs[i].objectArns, PrincipalCondition(rs[i]))
  {
    seq(|rs|, i requires 0 <= i < |rs| == |sids| => PutStatement(sids[i], rs[i].objectArns, PrincipalCondition(rs[i])))
  }

  /** One deny for deletions, three for conditional writes, one per restriction, and one that closes the namespace. */
  function RequiredStatements(sids: seq<string>, spec: Specification): seq<Statement>
    requires |sids| == |spec.restrictions| + 5
  {
    [DeletionStatement(sids[0], spec), PutStatement(sids[1], spec.immutable, IMMUTABLE_CONDITION),
     PutStatement(sids[2], spec.pointers, POINTER_CONDITION), PutStatement(sids[3], spec.pointers, AMBIGUOUS_CONDITION),
     ClosedStatement(sids[4], spec)] + RestrictionStatements(sids[5..], spec.restrictions)
  }

  /** Lists without repetition, and restrictions that name different objects and publishers the audit can compare. */
  ghost predicate WellPosed(spec: Specification) {
    && spec.protected != [] && spec.immutable != [] && spec.pointers != []
    && Distinct(spec.protected) && Distinct(spec.immutable + spec.pointers)
    && (forall r :: r in spec.restrictions ==>
          Distinct(r.objectArns) && r.objectArns != []
          && (IsAdministratorPattern(r.publishers)
              || (Distinct(r.publishers) && forall p :: p in r.publishers ==> !HasQuestionMark(p))))
    && (forall i, j :: 0 <= i < |spec.restrictions| && 0 <= j < |spec.restrictions| && i != j ==>
          !ExactValues(spec.restrictions[i].objectArns, spec.restrictions[j].objectArns))
  }

  lemma OnlyMember<T>(xs: seq<T>, x: T)
    requires Distinct(xs) && x in xs && forall y :: y in xs ==> y == x
    ensures xs == [x]
  {
    AllTheSame(xs, x);
  }

  lemma AllTheSame<T>(xs: seq<T>, x: T)
    requires x in xs && forall y :: y in xs ==> y == x
    ensures xs[0] == x && (|xs| > 1 ==> xs[0] == xs[1])
  {
    assert xs[0] in xs;
    assert |xs| > 1 ==> xs[1] in xs;
  }

  /** The statement is one of those required, by its kind. */
  ghost predicate Listed(sids: seq<string>, spec: Specification, st: Statement)
    requires |sids| == |spec.restrictions| + 5
  {
    || st == DeletionStatement(sids[0], spec)
    || st == PutStatement(sids[1], spec.immutable, IMMUTABLE_CONDITION)
    || st == PutStatement(sids[2], spec.pointers, POINTER_CONDITION)
    || st == PutStatement(sids[3], spec.pointers, AMBIGUOUS_CONDITION)
    || st == ClosedStatement(sids[4], spec)
    || exists i :: 0 <= i < |spec.restrictions| && st == RestrictionStatement(sids, spec, i)
  }

  function RestrictionStatement(sids: seq<string>, spec: Specification, i: nat): Statement
    requires |sids| == |spec.restrictions| + 5 && i < |spec.restrictions|
  {
    PutStatement(sids[i + 5], spec.restrictions[i].objectArns, PrincipalCondition(spec.restrictions[i]))
  }

  lemma RequiredAreListed(sids: seq<string>, spec: Specification)
    requires |sids| == |spec.restrictions| + 5 && Distinct(sids)
    ensures forall st :: st in RequiredStatements(sids, spec) <==> Listed(sids, spec, st)
    ensures Distinct(RequiredStatements(sids, spec))
  {
    var sts := RequiredStatements(sids, spec);
    forall i | 0 <= i < |sts| ensures sts[i].sid == Some(Str(sids[i])) {
    }
    forall i | 0 <= i < |spec.restrictions| ensures sts[i + 5] == RestrictionStatement(sids, spec, i) {
    }
    assert sts[0] == DeletionStatement(sids[0], spec) && sts[4] == ClosedStatement(sids[4], spec);
    forall st | st in sts ensures Listed(sids, spec, st) {
      var k :| 0 <= k < |sts| && sts[k] == st;
      if k >= 5 {
        assert st == RestrictionStatement(sids, spec, k - 5);
      }
    }
  }

  lemma ConditionsDiffer(r: Restriction)
    ensures IMMUTABLE_CONDITION != POINTER_CONDITION && POINTER_CONDITION != AMBIGUOUS_CONDITION
    ensures PrincipalCondition(r) != IMMUTABLE_CONDITION && PrincipalCondition(r) != POINTER_CONDITION
    ensures PrincipalCondition(r) != AMBIGUOUS_CONDITION
  {
    assert "Null" in POINTER_CONDITION.fields && "Null" !in IMMUTABLE_CONDITION.fields;
    assert "StringNotEquals" in POINTER_CONDITION.fields && "StringNotEquals" !in AMBIGUOUS_CONDITION.fields;
    assert "StringNotEquals" in IMMUTABLE_CONDITION.fields && "Null" in AMBIGUOUS_CONDITION.fields;
    OperatorNames(r.operator);
  }

  lemma OperatorNames(operator: ArnOperator)
    ensures OperatorName(operator) != "Null" && OperatorName(operator) != "StringNotEquals"
  {
    assert OperatorName(operator)[0] == 'A';
  }

  lemma ConditionsMention()
    ensures TextMentions(IMMUTABLE_CONDITION, "s3:if-none-match") && TextMentions(POINTER_CONDITION, "s3:if-none-match")
    ensures TextMentions(AMBIGUOUS_CONDITION, "s3:if-none-match")
  {
    Mentions(Obj(map["s3:if-none-match" := Str("*")]), "s3:if-none-match");
    MentionsBelow(IMMUTABLE_CONDITION, "StringNotEquals", "s3:if-none-match");
    MentionsBelow(POINTER_CONDITION, "StringNotEquals", "s3:if-none-match");
    Mentions(AMBIGUOUS_CONDITION.fields["Null"], "s3:if-none-match");
    MentionsBelow(AMBIGUOUS_CONDITION, "Null", "s3:if-none-match");
  }

  lemma Mentions(value: Json, name: string)
    requires value.Obj? && name in value.fields
    ensures TextMentions(value, name)
  {
  }

  lemma MentionsBelow(value: Json, key: string, name: string)
    requires value.Obj? && key in value.fields && TextMentions(value.fields[key], name)
    ensures TextMentions(value, name)
  {
  }

  lemma NoPrincipalCondition(st: Statement)
    requires st.condition in {Some(IMMUTABLE_CONDITION), Some(POINTER_CONDITION), Some(AMBIGUOUS_CONDITION)}
    ensures !HasPrincipalCondition(st)
  {
    assert PRINCIPAL_KEY[0] == 'a';
    forall op | op in st.condition.value.fields ensures PRINCIPAL_KEY !in st.condition.value.fields[op].fields {
      assert "s3:if-none-match"[0] == 's' && "s3:if-match"[0] == 's';
    }
  }

  lemma PutShape(sid: string, resources: seq<string>, condition: Json)
    ensures var st := PutStatement(sid, resources, condition);
      IsDeny(st) && ConditionalPutShape(st) && ActionIs(st, ["s3:PutObject"]) && Resources(st) == resources
  {
    TextsAreValues(resources);
  }

  lemma DeletionIsNoPut(sid: string, spec: Specification)
    ensures !ActionIs(DeletionStatement(sid, spec), ["s3:PutObject"])
  {
    TextsAreValues(DELETE_ACTIONS);
  }

  lemma DeletionCovers(sids: seq<string>, spec: Specification)
    requires |sids| == |spec.restrictions| + 5 && Distinct(sids) && WellPosed(spec)
    ensures (set r | r in AllResources(DeletionProofs(RequiredStatements(sids, spec), spec)))
            == set r | r in spec.protected
  {
    var st, proofs := DeletionStatement(sids[0], spec), DeletionProofs(RequiredStatements(sids, spec), spec);
    RequiredAreListed(sids, spec);
    DeletionProves(sids[0], spec);
    assert st in proofs;
    forall r ensures r in AllResources(proofs) <==> r in spec.protected {
      if r in AllResources(proofs) {
        var other :| other in proofs && r in Resources(other);
        assert DeletionProof(other, spec);
      }
    }
  }

  lemma DeletionAccepted(sids: seq<string>, spec: Specification)
    requires |sids| == |spec.restrictions| + 5 && Distinct(sids) && WellPosed(spec)
    ensures RequireDeletionDeny(RequiredStatements(sids, spec), spec).Accepted?
  {
    var sts := RequiredStatements(sids, spec);
    DeletionCovers(sids, spec);
    SizeOfDistinct(spec.protected);
    CoveredIsAccepted(sts, spec);
  }

  lemma CoveredIsAccepted(sts: seq<Statement>, spec: Specification)
    requires (set r | r in AllResources(DeletionProofs(sts, spec))) == set r | r in spec.protected
    requires |set r | r in spec.protected| == |spec.protected|
    ensures RequireDeletionDeny(sts, spec).Accepted?
  {
  }

  lemma DeletionProves(sid: string, spec: Specification)
    requires WellPosed(spec)
    ensures DeletionProof(DeletionStatement(sid, spec), spec)
            && Resources(DeletionStatement(sid, spec)) == spec.protected
  {
    var st := DeletionStatement(sid, spec);
    TextsAreValues(DELETE_ACTIONS);
    TextsAreValues(spec.protected);
    assert DELETE_ACTIONS[0] in StringValues(st.action);
    assert spec.protected[0] in Resources(st);
    assert |DELETE_ACTIONS[0]| != |DELETE_ACTIONS[1]|;
  }

  /** Among the required statements only the conditional ones can be candidates, and all of them have the right
      shape. */
  lemma CandidatesHaveShape(sids: seq<string>, spec: Specification, resources: seq<string>, st: Statement)
    requires |sids| == |spec.restrictions| + 5 && Distinct(sids)
    requires st in PutCandidates(RequiredStatements(sids, spec), resources)
    ensures ConditionalPutShape(st)
  {
    RequiredAreListed(sids, spec);
    DeletionIsNoPut(sids[0], spec);
    PutShape(sids[1], spec.immutable, IMMUTABLE_CONDITION);
    PutShape(sids[2], spec.pointers, POINTER_CONDITION);
    PutShape(sids[3], spec.pointers, AMBIGUOUS_CONDITION);
    if st != DeletionStatement(sids[0], spec) && st != ClosedStatement(sids[4], spec) && !ConditionalPutShape(st) {
      var i :| 0 <= i < |spec.restrictions| && st == RestrictionStatement(sids, spec, i);
      PutShape(sids[i + 5], spec.restrictions[i].objectArns, PrincipalCondition(spec.restrictions[i]));
    }
  }

  /** One of the three conditional statements that are required beside the restrictions. */
  predicate Conditional(sids: seq<string>, spec: Specification, resources: seq<string>, condition: Json, st: Statement)
    requires |sids| == |spec.restrictions| + 5
  {
    || (resources == spec.immutable && condition == IMMUTABLE_CONDITION
        && st == PutStatement(sids[1], resources, condition))
    || (resources == spec.pointers && condition == POINTER_CONDITION
        && st == PutStatement(sids[2], resources, condition))
    || (resources == spec.pointers && condition == AMBIGUOUS_CONDITION
        && st == PutStatement(sids[3], resources, condition))
  }

  /** It is the only candidate with its condition. */
  lemma OneWithCondition(sids: seq<string>, spec: Specification, resources: seq<string>, condition: Json, st: Statement)
    requires |sids| == |spec.restrictions| + 5 && Distinct(sids) && WellPosed(spec)
    requires Conditional(sids, spec, resources, condition, st)
    ensures Resources(st) == resources
    ensures WithCondition(PutCandidates(RequiredStatements(sids, spec), resources), condition) == [st]
  {
    var sts := RequiredStatements(sids, spec);
    RequiredAreListed(sids, spec);
    PutShape(st.sid.value.s, resources, condition);
    ConditionsMention();
    assert resources[0] in resources;
    var found := WithCondition(PutCandidates(sts, resources), condition);
    assert st in sts && ConditionalPutCandidate(st, resources);
    forall other | other in found ensures other == st {
      assert Listed(sids, spec, other);
      OthersDiffer(sids, spec, resources, condition, st, other);
    }
    OnlyMember(found, st);
  }

  lemma OthersDiffer(sids: seq<string>, spec: Specification, resources: seq<string>, condition: Json,
                     st: Statement, other: Statement)
    requires |sids| == |spec.restrictions| + 5 && Listed(sids, spec, other)
    requires Conditional(sids, spec, resources, condition, st) && other.condition == Some(condition)
    ensures other == st
  {
    ConditionsDiffer(Restriction([], ArnNotEquals, []));
    if exists i :: 0 <= i < |spec.restrictions| && other == RestrictionStatement(sids, spec, i) {
      var i :| 0 <= i < |spec.restrictions| && other == RestrictionStatement(sids, spec, i);
      ConditionsDiffer(spec.restrictions[i]);
    }
  }

  lemma DistinctParts(spec: Specification)
    requires WellPosed(spec)
    ensures ExactValues(spec.immutable, spec.immutable) && ExactValues(spec.pointers, spec.pointers)
  {
    var both := spec.immutable + spec.pointers;
    forall i, j | 0 <= i < j < |spec.immutable| ensures spec.immutable[i] != spec.immutable[j] {
      assert both[i] == spec.immutable[i] && both[j] == spec.immutable[j];
    }
    forall i, j | 0 <= i < j < |spec.pointers| ensures spec.pointers[i] != spec.pointers[j] {
      assert both[|spec.immutable| + i] == spec.pointers[i] && both[|spec.immutable| + j] == spec.pointers[j];
    }
  }

  lemma AllHaveShape(sids: seq<string>, spec: Specification, resources: seq<string>)
    requires |sids| == |spec.restrictions| + 5 && Distinct(sids)
    ensures forall st :: st in PutCandidates(RequiredStatements(sids, spec), resources) ==> ConditionalPutShape(st)
  {
    forall st | st in PutCandidates(RequiredStatements(sids, spec), resources) ensures ConditionalPutShape(st) {
      CandidatesHaveShape(sids, spec, resources, st);
    }
  }

  lemma CoveredByOne(sts: seq<Statement>, resources: seq<string>, condition: Json, st: Statement)
    requires WithCondition(PutCandidates(sts, resources), condition) == [st]
    requires Resources(st) == resources && ExactValues(resources, resources)
    ensures WithCondition(PutCandidates(sts, resources), condition) != []
    ensures ExactValues(AllResources(WithCondition(PutCandidates(sts, resources), condition)), resources)
  {
    AllOfOne(st);
  }

  /** The required statements cover these resources under this condition. */
  ghost predicate CoversUnder(sts: seq<Statement>, resources: seq<string>, condition: Json) {
    WithCondition(PutCandidates(sts, resources), condition) != []
    && ExactValues(AllResources(WithCondition(PutCandidates(sts, resources), condition)), resources)
  }

  lemma CoversImmutable(sids: seq<string>, spec: Specification)
    requires |sids| == |spec.restrictions| + 5 && Distinct(sids) && WellPosed(spec)
    ensures CoversUnder(RequiredStatements(sids, spec), spec.immutable, IMMUTABLE_CONDITION)
  {
    DistinctParts(spec);
    OneWithCondition(sids, spec, spec.immutable, IMMUTABLE_CONDITION,
                     PutStatement(sids[1], spec.immutable, IMMUTABLE_CONDITION));
    CoveredByOne(RequiredStatements(sids, spec), spec.immutable, IMMUTABLE_CONDITION,
                 PutStatement(sids[1], spec.immutable, IMMUTABLE_CONDITION));
  }

  lemma CoversPointers(sids: seq<string>, spec: Specification, k: nat, condition: Json)
    requires |sids| == |spec.restrictions| + 5 && Distinct(sids) && WellPosed(spec)
    requires (k == 2 && condition == POINTER_CONDITION) || (k == 3 && condition == AMBIGUOUS_CONDITION)
    ensures CoversUnder(RequiredStatements(sids, spec), spec.pointers, condition)
  {
    DistinctParts(spec);
    OneWithCondition(sids, spec, spec.pointers, condition, PutStatement(sids[k], spec.pointers, condition));
    CoveredByOne(RequiredStatements(sids, spec), spec.pointers, condition,
                 PutStatement(sids[k], spec.pointers, condition));
  }

  lemma ImmutableAccepted(sids: seq<string>, spec: Specification)
    requires |sids| == |spec.restrictions| + 5 && Distinct(sids) && WellPosed(spec)
    ensures RequireImmutableCreateOnlyDeny(RequiredStatements(sids, spec), spec).Accepted?
  {
    AllHaveShape(sids, spec, spec.immutable);
    CoversImmutable(sids, spec);
    ImmutableByParts(RequiredStatements(sids, spec), spec);
  }

  lemma ImmutableByParts(sts: seq<Statement>, spec: Specification)
    requires forall st :: st in PutCandidates(sts, spec.immutable) ==> ConditionalPutShape(st)
    requires CoversUnder(sts, spec.immutable, IMMUTABLE_CONDITION)
    ensures RequireImmutableCreateOnlyDeny(sts, spec).Accepted?
  {
  }

  lemma PointersByParts(sts: seq<Statement>, spec: Specification)
    requires forall st :: st in PutCandidates(sts, spec.pointers) ==> ConditionalPutShape(st)
    requires CoversUnder(sts, spec.pointers, POINTER_CONDITION) && CoversUnder(sts, spec.pointers, AMBIGUOUS_CONDITION)
    ensures RequirePointerDenies(sts, spec).Accepted?
  {
  }

  lemma PointersAccepted(sids: seq<string>, spec: Specification)
    requires |sids| == |spec.restrictions| + 5 && Distinct(sids) && WellPosed(spec)
    ensures RequirePointerDenies(RequiredStatements(sids, spec), spec).Accepted?
  {
    AllHaveShape(sids, spec, spec.pointers);
    CoversPointers(sids, spec, 2, POINTER_CONDITION);
    CoversPointers(sids, spec, 3, AMBIGUOUS_CONDITION);
    PointersByParts(RequiredStatements(sids, spec), spec);
  }

  lemma AllOfOne(st: Statement)
    ensures AllResources([st]) == Resources(st)
  {
    assert [st][1..] == [];
    assert AllResources([st]) == Resources(st) + AllResources([]);
  }

  lemma OneCandidate(sids: seq<string>, spec: Specification, i: nat)
    requires |sids| == |spec.restrictions| + 5 && Distinct(sids) && WellPosed(spec) && i < |spec.restrictions|
    ensures RestrictionCandidates(RequiredStatements(sids, spec), spec.restrictions[i])
            == [RestrictionStatement(sids, spec, i)]
  {
    var sts, r, st := RequiredStatements(sids, spec), spec.restrictions[i], RestrictionStatement(sids, spec, i);
    RequiredAreListed(sids, spec);
    assert r in spec.restrictions;
    PutShape(sids[i + 5], r.objectArns, PrincipalCondition(r));
    ComparesPrincipal(st, r);
    assert RestrictionCandidate(st, r);
    var found := RestrictionCandidates(sts, r);
    forall other | other in found ensures other == st {
      OnlyItsRestriction(sids, spec, i, other);
    }
    OnlyMember(found, st);
  }

  lemma ComparesPrincipal(st: Statement, r: Restriction)
    requires st.condition == Some(PrincipalCondition(r))
    ensures HasPrincipalCondition(st)
    ensures ConditionPrincipals(PrincipalCondition(r), r.operator) == Some(PrincipalsOf(r))
  {
    assert OperatorName(r.operator) in st.condition.value.fields;
    assert PRINCIPAL_KEY in st.condition.value.fields[OperatorName(r.operator)].fields;
    TextsAreValues(PrincipalsOf(r));
  }

  lemma RestrictionAcceptedAlone(sids: seq<string>, spec: Specification, i: nat)
    requires |sids| == |spec.restrictions| + 5 && Distinct(sids) && WellPosed(spec) && i < |spec.restrictions|
    ensures RequirePublisherRestriction(RequiredStatements(sids, spec), spec.restrictions[i]).Accepted?
  {
    var r, st := spec.restrictions[i], RestrictionStatement(sids, spec, i);
    assert r in spec.restrictions;
    OneCandidate(sids, spec, i);
    PutShape(sids[i + 5], r.objectArns, PrincipalCondition(r));
    ComparesPrincipal(st, r);
    if IsAdministratorPattern(r.publishers) {
      ZeroAdministrator(r.publishers[0]);
      assert r.publishers == [r.publishers[0]];
    }
    OneCandidateAccepted(RequiredStatements(sids, spec), r, st);
  }

  lemma OneCandidateAccepted(sts: seq<Statement>, r: Restriction, st: Statement)
    requires RestrictionCandidates(sts, r) == [st] && ConditionalKeys(st) && IsWildcardPrincipal(st.principal)
    requires ConditionPrincipals(st.condition.value, r.operator) == Some(PrincipalsOf(r))
    requires IsExactAdministrator(PrincipalsOf(r), r.publishers)
      || (ExactValues(PrincipalsOf(r), r.publishers) && forall p :: p in r.publishers ==> !HasQuestionMark(p))
    ensures RequirePublisherRestriction(sts, r).Accepted?
  {
  }

  lemma OnlyItsRestriction(sids: seq<string>, spec: Specification, i: nat, other: Statement)
    requires |sids| == |spec.restrictions| + 5 && Distinct(sids) && WellPosed(spec) && i < |spec.restrictions|
    requires other in RequiredStatements(sids, spec) && RestrictionCandidate(other, spec.restrictions[i])
    ensures other == RestrictionStatement(sids, spec, i)
  {
    RequiredAreListed(sids, spec);
    DeletionIsNoPut(sids[0], spec);
    if other.condition in {Some(IMMUTABLE_CONDITION), Some(POINTER_CONDITION), Some(AMBIGUOUS_CONDITION)} {
      NoPrincipalCondition(other);
    } else {
      var j :| 0 <= j < |spec.restrictions| && other == RestrictionStatement(sids, spec, j);
      PutShape(sids[j + 5], spec.restrictions[j].objectArns, PrincipalCondition(spec.restrictions[j]));
    }
  }

  lemma ZeroAdministrator(pattern: string)
    requires EndsWith(pattern, "_????????????????")
    ensures IsExactAdministrator([pattern[..|pattern| - 16] + "0000000000000000"], [pattern])
  {
    var zeros := "0000000000000000";
    var actual := pattern[..|pattern| - 16] + zeros;
    assert |zeros| == 16 && forall i :: 0 <= i < 16 ==> zeros[i] == '0';
    assert |"_????????????????"| == 17;
    assert actual[..|pattern| - 16] == pattern[..|pattern| - 16];
    forall i | |actual| - 16 <= i < |actual| ensures IsHexDigit(actual[i]) {
      assert actual[i] == zeros[i - (|actual| - 16)];
    }
  }

  lemma {:induction false} RestrictionsAccepted(sids: seq<string>, spec: Specification, from: nat)
    requires |sids| == |spec.restrictions| + 5 && Distinct(sids) && WellPosed(spec) && from <= |spec.restrictions|
    ensures RequirePublisherRestrictions(RequiredStatements(sids, spec), spec.restrictions[from..]).Accepted?
    decreases |spec.restrictions| - from
  {
    if from < |spec.restrictions| {
      RestrictionAcceptedAlone(sids, spec, from);
      RestrictionsAccepted(sids, spec, from + 1);
      assert spec.restrictions[from..][1..] == spec.restrictions[from + 1..];
    }
  }

  lemma RetiredAccepted(sids: seq<string>, spec: Specification)
    requires |sids| == |spec.restrictions| + 5 && Distinct(sids) && WellPosed(spec)
    ensures RequireRetiredWriteDeny(RequiredStatements(sids, spec), spec).Accepted?
  {
    var sts, st := RequiredStatements(sids, spec), ClosedStatement(sids[4], spec);
    RequiredAreListed(sids, spec);
    TextsAreValues(spec.immutable + spec.pointers);
    assert st in sts && ClosedCandidate(st);
    var closed := ClosedCandidates(sts);
    forall other | other in closed ensures other == st {
      assert Listed(sids, spec, other);
    }
    OnlyMember(closed, st);
  }

  /** Every well-posed specification is met by a policy: the one made of the statements it asks for. */
  lemma RequiredIsAccepted(sids: seq<string>, spec: Specification)
    requires |sids| == |spec.restrictions| + 5 && Distinct(sids) && WellPosed(spec)
    ensures RequireStatements(RequiredStatements(sids, spec), spec).Accepted?
  {
    DeletionAccepted(sids, spec);
    ImmutableAccepted(sids, spec);
    PointersAccepted(sids, spec);
    RestrictionsAccepted(sids, spec, 0);
    assert spec.restrictions[0..] == spec.restrictions;
    RetiredAccepted(sids, spec);
  }
}
