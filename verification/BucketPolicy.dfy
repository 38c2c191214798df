/**
 The audit of an authority bucket's policy document: which statements it
 requires, and when it rejects.
 */
module BucketPolicy {

  /** A policy document as parsed; two values are equal exactly when their canonical JSON is. */
  datatype Json = Null | Bool(b: bool) | Num(n: int) | Str(s: string) | Arr(items: seq<Json>)
                | Obj(fields: map<string, Json>)

  datatype Option<+T> = None | Some(value: T)

  /** The elements of one statement that the audit reads; `others` names any further ones. */
  datatype Statement = Statement(
    sid: Option<Json>, effect: Option<Json>, principal: Option<Json>, action: Option<Json>, resource: Option<Json>,
    notResource: Option<Json>, condition: Option<Json>, others: set<string>)

  datatype BucketKind = Release | AppRetained | Terraform

  datatype ArnOperator = ArnNotEquals | ArnNotLike

  datatype Restriction = Restriction(objectArns: seq<string>, operator: ArnOperator, publishers: seq<string>)

  datatype Specification = Specification(
    kind: BucketKind, bucketName: string, immutable: seq<string>, pointers: seq<string>, protected: seq<string>,
    retired: seq<string>, restrictions: seq<Restriction>)

  /** Why an observation is rejected, in the order in which the checks are made. */
  datatype Reason =
    | BucketMismatch | VersioningNotEnabled | DocumentShape | DocumentVersion | StatementShape
    | DeletionPrincipal | DeletionConditional | DeletionActions | DeletionShape | DeletionCoverage
    | ImmutableShape | ImmutableCondition | ImmutableCoverage
    | PointerShape | PointerConditional | PointerConditionalCoverage | PointerAmbiguous | PointerAmbiguousCoverage
    | PublisherCoverage | PublisherShape | PublisherOperator | PublisherPrincipals
    | RetiredNamespace | RetiredShape | RetiredConditional | RetiredCoverage

  datatype Verdict = Accepted | Rejected(reason: Reason)

  // ------------------------------------------------------------------
  // Lists and fields

  predicate Distinct<T(==)>(xs: seq<T>) {
    forall i, j :: 0 <= i < j < |xs| ==> xs[i] != xs[j]
  }

  function Filter<T(!new, ==)>(keep: T -> bool, xs: seq<T>): (ys: seq<T>)
    ensures forall x :: x in ys <==> x in xs && keep(x)
    ensures |ys| <= |xs|
    ensures Distinct(xs) ==> Distinct(ys)
  {
    if xs == [] then []
    else
      assert Distinct(xs) ==> xs[0] !in xs[1..];
      (if keep(xs[0]) then [xs[0]] else []) + Filter(keep, xs[1..])
  }

  predicate AllStrings(items: seq<Json>) {
    forall i :: 0 <= i < |items| ==> items[i].Str?
  }

  function Strings(items: seq<Json>): (ss: seq<string>)
    requires AllStrings(items)
    ensures |ss| == |items| && forall i :: 0 <= i < |items| ==> ss[i] == items[i].s
  {
    seq(|items|, i requires 0 <= i < |items| && items[i].Str? => items[i].s)
  }

  /** A string or a list of strings as a list; anything else gives the empty list. */
  function StringValues(value: Option<Json>): seq<string> {
    match value
    case Some(Str(s)) => [s]
    case Some(Arr(items)) => if AllStrings(items) then Strings(items) else []
    case _ => []
  }

  function Resources(st: Statement): seq<string> {
    StringValues(st.resource)
  }

  function AllResources(sts: seq<Statement>): (rs: seq<string>)
    ensures forall r :: r in rs <==> exists st :: st in sts && r in Resources(st)
  {
    if sts == [] then [] else Resources(sts[0]) + AllResources(sts[1..])
  }

  predicate Covers(values: seq<string>, expected: seq<string>) {
    forall e :: e in expected ==> e in values
  }

  /** The given values are distinct, as many as expected, and include every expected one. */
  predicate ExactValues(values: seq<string>, expected: seq<string>) {
    |values| == |expected| && Distinct(values) && Covers(values, expected)
  }

  predicate NonemptySubset(values: seq<string>, allowed: seq<string>) {
    |values| > 0 && Distinct(values) && Covers(allowed, values)
  }

  /** Sid, Effect, Principal and Action, and no element the audit does not know. */
  predicate CommonKeys(st: Statement) {
    st.sid.Some? && st.effect.Some? && st.principal.Some? && st.action.Some? && st.others == {}
  }

  /** Exactly the elements of an unconditional deny over resources. */
  predicate UnconditionalKeys(st: Statement) {
    CommonKeys(st) && st.resource.Some? && st.notResource.None? && st.condition.None?
  }

  predicate ConditionalKeys(st: Statement) {
    CommonKeys(st) && st.resource.Some? && st.notResource.None? && st.condition.Some?
  }

  predicate ClosedKeys(st: Statement) {
    CommonKeys(st) && st.resource.None? && st.notResource.Some? && st.condition.None?
  }

  predicate IsDeny(st: Statement) {
    st.effect == Some(Str("Deny"))
  }

  predicate ActionIs(st: Statement, actions: seq<string>) {
    ExactValues(StringValues(st.action), actions)
  }

  /** Principal `*`, or `{"AWS": "*"}` in either spelling. */
  predicate IsWildcardPrincipal(principal: Option<Json>) {
    principal == Some(Str("*"))
    || (principal.Some? && principal.value.Obj? && principal.value.fields.Keys == {"AWS"}
        && ExactValues(StringValues(Some(principal.value.fields["AWS"])), ["*"]))
  }

  predicate Overlaps(st: Statement, resources: seq<string>) {
    exists r :: r in Resources(st) && r in resources
  }

  predicate EndsWith(s: string, suffix: string) {
    |suffix| <= |s| && s[|s| - |suffix|..] == suffix
  }

  /**
   Does the canonical text of a value contain the quoted name?  A quote inside a
   JSON string is escaped, so the occurrence is a whole string, or the end of a
   string right after a quote.
   */
  predicate TextMentions(value: Json, name: string) {
    match value
    case Str(s) => s == name || EndsWith(s, "\"" + name)
    case Arr(items) => exists i :: 0 <= i < |items| && TextMentions(items[i], name)
    case Obj(fields) =>
      exists k :: k in fields && (k == name || EndsWith(k, "\"" + name) || TextMentions(fields[k], name))
    case _ => false
  }

  predicate HasWriteHeader(st: Statement) {
    st.condition.Some?
    && (TextMentions(st.condition.value, "s3:if-none-match") || TextMentions(st.condition.value, "s3:if-match"))
  }

  // ------------------------------------------------------------------
  // Deletion

  const DELETE_ACTIONS := ["s3:DeleteObject", "s3:DeleteObjectVersion"]

  predicate DeniesSomeDelete(st: Statement, spec: Specification) {
    IsDeny(st) && (exists a :: a in StringValues(st.action) && a in DELETE_ACTIONS)
    && Overlaps(st, spec.protected)
  }

  predicate ExactDeletionDeny(st: Statement) {
    IsWildcardPrincipal(st.principal) && st.condition.None? && ActionIs(st, DELETE_ACTIONS)
  }

  /** A statement that proves its resources undeletable. */
  predicate DeletionProof(st: Statement, spec: Specification) {
    DeniesSomeDelete(st, spec) && ExactDeletionDeny(st) && UnconditionalKeys(st)
    && NonemptySubset(Resources(st), spec.protected)
  }

  /** The overlapping delete denies, narrowed step by step as the check narrows them. */
  function OverlappingDenies(sts: seq<Statement>, spec: Specification): (ys: seq<Statement>)
    ensures forall st :: st in ys <==> st in sts && DeniesSomeDelete(st, spec)
  {
    Filter((st: Statement) => DeniesSomeDelete(st, spec), sts)
  }

  function WildcardDenies(sts: seq<Statement>, spec: Specification): (ys: seq<Statement>)
    ensures forall st :: st in ys <==> st in sts && DeniesSomeDelete(st, spec) && IsWildcardPrincipal(st.principal)
  {
    Filter((st: Statement) => IsWildcardPrincipal(st.principal), OverlappingDenies(sts, spec))
  }

  function UnconditionalDenies(sts: seq<Statement>, spec: Specification): (ys: seq<Statement>)
    ensures forall st :: st in ys <==>
              st in sts && DeniesSomeDelete(st, spec) && IsWildcardPrincipal(st.principal) && st.condition.None?
  {
    Filter((st: Statement) => st.condition.None?, WildcardDenies(sts, spec))
  }

  function ExactDenies(sts: seq<Statement>, spec: Specification): (ys: seq<Statement>)
    ensures forall st :: st in ys <==> st in sts && DeniesSomeDelete(st, spec) && ExactDeletionDeny(st)
  {
    Filter((st: Statement) => ActionIs(st, DELETE_ACTIONS), UnconditionalDenies(sts, spec))
  }

  function DeletionProofs(sts: seq<Statement>, spec: Specification): (ys: seq<Statement>)
    ensures forall st :: st in ys <==> st in sts && DeletionProof(st, spec)
  {
    Filter((st: Statement) => UnconditionalKeys(st) && NonemptySubset(Resources(st), spec.protected),
           ExactDenies(sts, spec))
  }

  function RequireDeletionDeny(sts: seq<Statement>, spec: Specification): Verdict {
    var covered := set r | r in AllResources(DeletionProofs(sts, spec));
    if |covered| == |spec.protected| && forall e :: e in spec.protected ==> e in covered then Accepted
    else if WildcardDenies(sts, spec) == [] && OverlappingDenies(sts, spec) != [] then Rejected(DeletionPrincipal)
    else if UnconditionalDenies(sts, spec) == [] && WildcardDenies(sts, spec) != [] then Rejected(DeletionConditional)
    else if ExactDenies(sts, spec) == [] && UnconditionalDenies(sts, spec) != [] then Rejected(DeletionActions)
    else if exists st :: st in ExactDenies(sts, spec) && NonemptySubset(Resources(st), spec.protected)
                         && !UnconditionalKeys(st) then Rejected(DeletionShape)
    else Rejected(DeletionCoverage)
  }

  // ------------------------------------------------------------------
  // Conditional writes

  const IMMUTABLE_CONDITION := Obj(map["StringNotEquals" := Obj(map["s3:if-none-match" := Str("*")])])
  const POINTER_CONDITION := Obj(map[
    "StringNotEquals" := Obj(map["s3:if-none-match" := Str("*")]),
    "Null" := Obj(map["s3:if-match" := Str("true")])])
  const AMBIGUOUS_CONDITION := Obj(map[
    "Null" := Obj(map["s3:if-none-match" := Str("false"), "s3:if-match" := Str("false")])])

  predicate ConditionalPutShape(st: Statement) {
    ConditionalKeys(st) && IsWildcardPrincipal(st.principal) && ActionIs(st, ["s3:PutObject"])
  }

  predicate ConditionalPutCandidate(st: Statement, resources: seq<string>) {
    IsDeny(st) && ActionIs(st, ["s3:PutObject"]) && HasWriteHeader(st) && Overlaps(st, resources)
  }

  function WithCondition(sts: seq<Statement>, condition: Json): (ys: seq<Statement>)
    ensures forall st :: st in ys <==> st in sts && st.condition == Some(condition)
    ensures Distinct(sts) ==> Distinct(ys)
  {
    Filter((st: Statement) => st.condition == Some(condition), sts)
  }

  function PutCandidates(sts: seq<Statement>, resources: seq<string>): (ys: seq<Statement>)
    ensures forall st :: st in ys <==> st in sts && ConditionalPutCandidate(st, resources)
    ensures Distinct(sts) ==> Distinct(ys)
  {
    Filter((st: Statement) => ConditionalPutCandidate(st, resources), sts)
  }

  function RequireImmutableCreateOnlyDeny(sts: seq<Statement>, spec: Specification): Verdict {
    var candidates := PutCandidates(sts, spec.immutable);
    var matching := WithCondition(candidates, IMMUTABLE_CONDITION);
    if exists st :: st in candidates && !ConditionalPutShape(st) then Rejected(ImmutableShape)
    else if matching == [] then Rejected(ImmutableCondition)
    else if !ExactValues(AllResources(matching), spec.immutable) then Rejected(ImmutableCoverage)
    else Accepted
  }

  function RequirePointerDenies(sts: seq<Statement>, spec: Specification): Verdict {
    var candidates := PutCandidates(sts, spec.pointers);
    var conditional := WithCondition(candidates, POINTER_CONDITION);
    var ambiguous := WithCondition(candidates, AMBIGUOUS_CONDITION);
    if exists st :: st in candidates && !ConditionalPutShape(st) then Rejected(PointerShape)
    else if conditional == [] then Rejected(PointerConditional)
    else if !ExactValues(AllResources(conditional), spec.pointers) then Rejected(PointerConditionalCoverage)
    else if ambiguous == [] then Rejected(PointerAmbiguous)
    else if !ExactValues(AllResources(ambiguous), spec.pointers) then Rejected(PointerAmbiguousCoverage)
    else Accepted
  }

  // ------------------------------------------------------------------
  // Publishers

  const PRINCIPAL_KEY := "aws:PrincipalArn"

  function OperatorName(operator: ArnOperator): string {
    match operator
    case ArnNotEquals => "ArnNotEquals"
    case ArnNotLike => "ArnNotLike"
  }

  /** The condition compares the principal under some operator. */
  predicate HasPrincipalCondition(st: Statement) {
    st.condition.Some? && st.condition.value.Obj?
    && (forall op :: op in st.condition.value.fields ==> st.condition.value.fields[op].Obj?)
    && exists op :: op in st.condition.value.fields && PRINCIPAL_KEY in st.condition.value.fields[op].fields
  }

  predicate IsHexDigit(c: char) {
    '0' <= c <= '9' || 'a' <= c <= 'f'
  }

  /** The single administrator role whose name ends in sixteen unknown hexadecimal digits. */
  predicate IsExactAdministrator(actual: seq<string>, expected: seq<string>) {
    && |expected| == 1 && EndsWith(expected[0], "_????????????????")
    && |actual| == 1 && |actual[0]| >= 16
    && |expected[0]| - 16 <= |actual[0]|
    && actual[0][..|expected[0]| - 16] == expected[0][..|expected[0]| - 16]
    && forall i :: |actual[0]| - 16 <= i < |actual[0]| ==> IsHexDigit(actual[0][i])
  }

  predicate HasQuestionMark(s: string) {
    '?' in s
  }

  predicate RestrictionCandidate(st: Statement, restriction: Restriction) {
    IsDeny(st) && ActionIs(st, ["s3:PutObject"])
    && ExactValues(Resources(st), restriction.objectArns) && HasPrincipalCondition(st)
  }

  /** The principals a condition of the configured shape compares with. */
  function ConditionPrincipals(condition: Json, operator: ArnOperator): Option<seq<string>> {
    if condition.Obj? && condition.fields.Keys == {OperatorName(operator)}
       && condition.fields[OperatorName(operator)].Obj?
       && condition.fields[OperatorName(operator)].fields.Keys == {PRINCIPAL_KEY}
    then Some(StringValues(Some(condition.fields[OperatorName(operator)].fields[PRINCIPAL_KEY])))
    else None
  }

  function RestrictionCandidates(sts: seq<Statement>, restriction: Restriction): (ys: seq<Statement>)
    ensures forall st :: st in ys <==> st in sts && RestrictionCandidate(st, restriction)
    ensures Distinct(sts) ==> Distinct(ys)
  {
    Filter((st: Statement) => RestrictionCandidate(st, restriction), sts)
  }

  function RequirePublisherRestriction(sts: seq<Statement>, restriction: Restriction): Verdict {
    var matches := RestrictionCandidates(sts, restriction);
    if |matches| != 1 then Rejected(PublisherCoverage)
    else
      var st := matches[0];
      if !ConditionalKeys(st) || !IsWildcardPrincipal(st.principal) then Rejected(PublisherShape)
      else
        match ConditionPrincipals(st.condition.value, restriction.operator)
        case None => Rejected(PublisherOperator)
        case Some(principals) =>
          if IsExactAdministrator(principals, restriction.publishers) then Accepted
          else if exists p :: p in restriction.publishers && HasQuestionMark(p) then Rejected(PublisherPrincipals)
          else if !ExactValues(principals, restriction.publishers) then Rejected(PublisherPrincipals)
          else Accepted
  }

  function RequirePublisherRestrictions(sts: seq<Statement>, restrictions: seq<Restriction>): Verdict {
    if restrictions == [] then Accepted
    else
      var verdict := RequirePublisherRestriction(sts, restrictions[0]);
      if verdict.Accepted? then RequirePublisherRestrictions(sts, restrictions[1..]) else verdict
  }

  // ------------------------------------------------------------------
  // Retired namespaces

  predicate ClosedCandidate(st: Statement) {
    IsDeny(st) && ActionIs(st, ["s3:PutObject"]) && st.notResource.Some?
  }

  predicate ClosedNamespace(st: Statement, spec: Specification) {
    ClosedKeys(st) && IsWildcardPrincipal(st.principal)
    && ExactValues(StringValues(st.notResource), spec.immutable + spec.pointers)
  }

  predicate RetiredCandidate(st: Statement, spec: Specification) {
    IsDeny(st) && ActionIs(st, ["s3:PutObject"]) && Overlaps(st, spec.retired)
  }

  /** Walk the candidates, skipping conditional ones, and collect what the others cover. */
  function CollectRetired(candidates: seq<Statement>, spec: Specification, covered: seq<string>)
    : (r: (Verdict, seq<string>))
    decreases |candidates|
  {
    if candidates == [] then (Accepted, covered)
    else
      var st := candidates[0];
      if st.condition.Some? then CollectRetired(candidates[1..], spec, covered)
      else if !UnconditionalKeys(st) || !IsWildcardPrincipal(st.principal) then
        (Rejected(RetiredShape), covered)
      else if !NonemptySubset(Resources(st), spec.retired) then (Rejected(RetiredCoverage), covered)
      else CollectRetired(candidates[1..], spec, covered + Resources(st))
  }

  function ClosedCandidates(sts: seq<Statement>): (ys: seq<Statement>)
    ensures forall st :: st in ys <==> st in sts && ClosedCandidate(st)
    ensures Distinct(sts) ==> Distinct(ys)
  {
    Filter((st: Statement) => ClosedCandidate(st), sts)
  }

  function RetiredCandidates(sts: seq<Statement>, spec: Specification): (ys: seq<Statement>)
    ensures forall st :: st in ys <==> st in sts && RetiredCandidate(st, spec)
  {
    Filter((st: Statement) => RetiredCandidate(st, spec), sts)
  }

  function RequireRetiredWriteDeny(sts: seq<Statement>, spec: Specification): Verdict {
    if spec.retired == [] then Accepted
    else
      var closed := ClosedCandidates(sts);
      if |closed| == 1 then
        if ClosedNamespace(closed[0], spec) then Accepted else Rejected(RetiredNamespace)
      else
        var candidates := RetiredCandidates(sts, spec);
        var (verdict, covered) := CollectRetired(candidates, spec, []);
        if !verdict.Accepted? then verdict
        else if ExactValues(covered, spec.retired) then Accepted
        else if exists st :: st in candidates && st.condition.Some? then Rejected(RetiredConditional)
        else Rejected(RetiredCoverage)
  }

  // ------------------------------------------------------------------
  // The whole audit

  function Field(fields: map<string, Json>, key: string): Option<Json> {
    if key in fields then Some(fields[key]) else None
  }

  const KNOWN_KEYS := {"Sid", "Effect", "Principal", "Action", "Resource", "NotResource", "Condition"}

  function StatementOf(fields: map<string, Json>): Statement {
    Statement(Field(fields, "Sid"), Field(fields, "Effect"), Field(fields, "Principal"), Field(fields, "Action"),
              Field(fields, "Resource"), Field(fields, "NotResource"), Field(fields, "Condition"),
              fields.Keys - KNOWN_KEYS)
  }

  function StatementsOf(items: seq<Json>): (sts: seq<Statement>)
    requires forall i :: 0 <= i < |items| ==> items[i].Obj?
    ensures |sts| == |items| && forall i :: 0 <= i < |items| ==> sts[i] == StatementOf(items[i].fields)
  {
    seq(|items|, i requires 0 <= i < |items| && items[i].Obj? => StatementOf(items[i].fields))
  }

  function RequireStatements(sts: seq<Statement>, spec: Specification): Verdict {
    var deletion := RequireDeletionDeny(sts, spec);
    if !deletion.Accepted? then deletion else
    var immutable := RequireImmutableCreateOnlyDeny(sts, spec);
    if !immutable.Accepted? then immutable else
    var pointers := RequirePointerDenies(sts, spec);
    if !pointers.Accepted? then pointers else
    var publishers := RequirePublisherRestrictions(sts, spec.restrictions);
    if !publishers.Accepted? then publishers else
    RequireRetiredWriteDeny(sts, spec)
  }

  /** The document is an object of exactly a version and a list of statement records. */
  function PolicyStatements(policy: Json): Option<seq<Statement>> {
    if policy.Obj? && policy.fields.Keys == {"Version", "Statement"} && policy.fields["Version"] == Str("2012-10-17")
       && policy.fields["Statement"].Arr?
       && forall i :: 0 <= i < |policy.fields["Statement"].items| ==> policy.fields["Statement"].items[i].Obj?
    then Some(StatementsOf(policy.fields["Statement"].items)) else None
  }

  function RequireBucketPolicy(policy: Json, spec: Specification): Verdict {
    if !policy.Obj? || policy.fields.Keys != {"Version", "Statement"} then Rejected(DocumentShape)
    else if policy.fields["Version"] != Str("2012-10-17") then Rejected(DocumentVersion)
    else
      match PolicyStatements(policy)
      case None => Rejected(StatementShape)
      case Some(sts) => RequireStatements(sts, spec)
  }

  /** One bucket: its name, its versioning state and its policy. */
  function AuditObservation(spec: Specification, bucketName: string, versioning: string, policy: Json): Verdict {
    if bucketName != spec.bucketName then Rejected(BucketMismatch)
    else if versioning != "Enabled" then Rejected(VersioningNotEnabled)
    else RequireBucketPolicy(policy, spec)
  }
}
