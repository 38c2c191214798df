/**
 The specifications built for a target can be met: when its names are apart,
 each of them is well-posed, and a policy document made of the statements it
 asks for is accepted.
 */
module BucketBuilt {
  import opened Patterns
  import opened BucketPolicy
  import opened BucketRequired
  import opened BucketInventory

  const ADMINISTRATOR_END := "_????????????????"

  predicate StartsWith(s: string, start: string) {
    |start| <= |s| && s[..|start|] == start
  }

  /** A name that does not lie under `deployment/`, where the records of the three roots are. */
  predicate OutsideDeployment(name: string) {
    !StartsWith(name + "/", "deployment/")
  }

  predicate NoQuestionMarks(names: seq<string>) {
    forall i :: 0 <= i < |names| ==> !HasQuestionMark(names[i])
  }

  function RoleNames(t: Target): seq<string> {
    [t.names.toolchainCandidateRole, t.names.proverCandidateRole, t.names.toolchainPointerRole,
     t.names.proverPointerRole, t.foundation.plan, t.foundation.apply, t.foundation.smoke, t.app.plan, t.app.apply,
     t.app.smoke, t.staticDeployRole, t.statusPublisherRole]
  }

  /** The prefixes in the app bucket. */
  function AppPrefixes(t: Target): seq<string> {
    [t.names.lambdaPrefix, t.names.frontendPrefix, t.names.signaturePrefix, t.names.acceptedPrefix,
     t.names.approvalPrefix, t.names.recoveryPrefix]
  }

  /** Different names, none under `deployment/`; role names without `?`; a status key that is no pattern. */
  predicate NamesApart(t: Target) {
    && Distinct(AppPrefixes(t)) && t.names.baselinePrefix != t.names.approvalPrefix
    && (forall i :: 0 <= i < |AppPrefixes(t)| ==> OutsideDeployment(AppPrefixes(t)[i]))
    && OutsideDeployment(t.names.baselinePrefix) && OutsideDeployment(t.names.statusKey)
    && Plain(t.names.statusKey)
    && !HasQuestionMark(t.partition) && !HasQuestionMark(t.accountId) && NoQuestionMarks(RoleNames(t))
  }

  // ------------------------------------------------------------------
  // Lists of different patterns

  lemma UnderDiffers(prefix: string, a: string, b: string)
    requires a != b
    ensures Under(prefix, a) != Under(prefix, b)
  {
    assert Under(prefix, a)[|prefix| + 1..] == a && Under(prefix, b)[|prefix| + 1..] == b;
  }

  /** What comes before the roots of a bucket, and what comes after it. */
  function RootTail(t: Target, root: Root, tail: string): string {
    "deployment/" + t.targetKey + "/" + RootName(root) + "/" + tail
  }

  lemma Regroup(bucket: string, slash: string, start: string, key: string, root: string, tail: string)
    ensures bucket + (slash + start) + key + slash + root + slash + tail
            == bucket + slash + (start + key + slash + root + slash + tail)
  {
    var left, right := bucket + (slash + start) + key, start + key;
    assert left == bucket + slash + right;
    assert left + slash == bucket + slash + (right + slash);
    assert left + slash + root == bucket + slash + (right + slash + root);
    assert left + slash + root + slash == bucket + slash + (right + slash + root + slash);
  }

  lemma RootTailUnder(t: Target, root: Root, tail: string)
    ensures Under(RootPrefix(t, root), tail)
            == Under(BucketArn(t, if root == AppRoot then t.names.appBucket else t.names.terraformBucket),
                     RootTail(t, root, tail))
  {
    Regroup(BucketArn(t, if root == AppRoot then t.names.appBucket else t.names.terraformBucket), "/", "deployment/",
            t.targetKey, RootName(root), tail);
    assert "/deployment/" == "/" + "deployment/";
  }

  lemma ExtendedStarts(start: string, key: string, slash: string, root: string, tail: string)
    ensures StartsWith(start + key + slash + root + slash + tail, start)
  {}

  lemma StarPastStart(start: string, name: string)
    requires StartsWith(name + "/*", start) && '*' !in start
    ensures StartsWith(name + "/", start)
  {
    var pattern := name + "/*";
    assert pattern[|name| + 1] == '*';
    assert forall i :: 0 <= i < |start| ==> pattern[i] == start[i] && start[i] in start;
    assert |start| <= |name| + 1;
    assert (name + "/*")[..|name| + 1] == name + "/";
    assert start == (name + "/*")[..|name| + 1][..|start|];
  }

  lemma StartsWithMore(start: string, name: string)
    requires StartsWith(name, start)
    ensures StartsWith(name + "/", start)
  {
    assert (name + "/")[..|start|] == name[..|start|];
  }

  /** A name outside `deployment/` gives no pattern of a root. */
  lemma OutsideRoot(t: Target, root: Root, tail: string, name: string)
    requires OutsideDeployment(name)
    ensures RootTail(t, root, tail) != name + "/*" && RootTail(t, root, tail) != name
  {
    ExtendedStarts("deployment/", t.targetKey, "/", RootName(root), tail);
    if RootTail(t, root, tail) == name + "/*" {
      StarPastStart("deployment/", name);
    }
    if RootTail(t, root, tail) == name {
      StartsWithMore("deployment/", name);
    }
  }

  lemma RootsDiffer(t: Target, r: Root, a: string, s: Root, b: string)
    requires r != s
    ensures RootTail(t, r, a) != RootTail(t, s, b)
  {
    var before := "deployment/" + t.targetKey + "/";
    InitialAt(before, RootName(r), "/", a);
    InitialAt(before, RootName(s), "/", b);
    assert RootName(BootstrapRoot)[0] == 'b' && RootName(FoundationRoot)[0] == 'f' && RootName(AppRoot)[0] == 'a';
  }

  lemma InitialAt(before: string, root: string, slash: string, tail: string)
    requires root != ""
    ensures (before + root + slash + tail)[|before|] == root[0]
  {}

  lemma RootTailDiffers(t: Target, root: Root, a: string, b: string)
    requires a != b
    ensures RootTail(t, root, a) != RootTail(t, root, b)
  {
    PrefixKeepsApart("deployment/" + t.targetKey + "/" + RootName(root) + "/", a, b);
  }

  lemma PrefixKeepsApart(before: string, a: string, b: string)
    requires a != b
    ensures before + a != before + b
  {
    assert (before + a)[|before|..] == a && (before + b)[|before|..] == b;
  }

  /** A place in a bucket: below a root, everything under a prefix, or one key. */
  datatype Place = Rooted(root: Root, tail: string) | Prefix(name: string) | Key(name: string)

  function Text(t: Target, place: Place): string {
    match place
    case Rooted(root, tail) => RootTail(t, root, tail)
    case Prefix(name) => name + "/*"
    case Key(name) => name
  }

  predicate Outside(place: Place) {
    match place
    case Rooted(_, _) => true
    case Prefix(name) => OutsideDeployment(name)
    case Key(name) => OutsideDeployment(name) && Plain(name)
  }

  /** Different places have different patterns. */
  lemma PlacesDiffer(t: Target, x: Place, y: Place)
    requires Outside(x) && Outside(y) && x != y
    ensures Text(t, x) != Text(t, y)
  {
    if x.Rooted? && y.Rooted? {
      if x.root == y.root {
        RootTailDiffers(t, x.root, x.tail, y.tail);
      } else {
        RootsDiffer(t, x.root, x.tail, y.root, y.tail);
      }
    } else if x.Rooted? {
      OutsideRoot(t, x.root, x.tail, y.name);
    } else if y.Rooted? {
      OutsideRoot(t, y.root, y.tail, x.name);
    } else {
      NamesDiffer(x.name, y.name);
    }
  }

  lemma NamesDiffer(x: string, y: string)
    ensures x != y ==> x + "/*" != y + "/*"
    ensures Plain(x) ==> x != y + "/*"
    ensures Plain(y) ==> y != x + "/*"
  {
    assert (x + "/*")[|x| + 1] == '*' && (y + "/*")[|y| + 1] == '*';
    if x + "/*" == y + "/*" {
      assert (x + "/*")[..|x|] == x && (y + "/*")[..|y|] == y;
    }
  }

  /** The patterns of some places of a bucket. */
  function Placed(t: Target, bucket: string, places: seq<Place>): (patterns: seq<string>)
    ensures |patterns| == |places|
    ensures forall i :: 0 <= i < |places| ==> patterns[i] == Under(bucket, Text(t, places[i]))
  {
    seq(|places|, i requires 0 <= i < |places| => Under(bucket, Text(t, places[i])))
  }

  lemma PlacedDistinct(t: Target, bucket: string, places: seq<Place>)
    requires Distinct(places) && forall i :: 0 <= i < |places| ==> Outside(places[i])
    ensures Distinct(Placed(t, bucket, places))
  {
    forall i, j | 0 <= i < j < |places|
      ensures Under(bucket, Text(t, places[i])) != Under(bucket, Text(t, places[j]))
    {
      PlacesDiffer(t, places[i], places[j]);
      UnderDiffers(bucket, Text(t, places[i]), Text(t, places[j]));
    }
  }

  // ------------------------------------------------------------------
  // Restrictions

  predicate GoodRole(t: Target, role: string) {
    role == Administrator(t) || !HasQuestionMark(role)
  }

  /** The audit can compare the publishers of a restriction on one pattern. */
  ghost predicate Comparable(r: Restriction) {
    IsAdministratorPattern(r.publishers) || (Distinct(r.publishers) && NoQuestionMarks(r.publishers))
  }

  lemma EndsWithTail(s: string, end: string)
    ensures EndsWith(s + end, end)
  {}

  lemma PublishersComparable(t: Target, arn: string, role: string)
    requires GoodRole(t, role) && !HasQuestionMark(t.partition) && !HasQuestionMark(t.accountId)
    ensures Comparable(Publishers(t, arn, role))
  {
    if role == Administrator(t) {
      AdministratorEnds(t);
    } else {
      PartsHaveNone("arn:", t.partition, ":iam::", t.accountId, ":role/", role);
    }
  }

  lemma PartsHaveNone(a: string, b: string, c: string, d: string, e: string, f: string)
    requires !HasQuestionMark(a) && !HasQuestionMark(b) && !HasQuestionMark(c)
    requires !HasQuestionMark(d) && !HasQuestionMark(e) && !HasQuestionMark(f)
    ensures !HasQuestionMark(a + b + c + d + e + f)
  {}

  lemma AdministratorEnds(t: Target)
    ensures EndsWith(RoleArn(t, Administrator(t)), ADMINISTRATOR_END)
  {
    var before, name := "aws-reserved/sso.amazonaws.com/" + t.region, "/AWSReservedSSO_AdministratorAccess";
    assert "/AWSReservedSSO_AdministratorAccess_????????????????" == name + ADMINISTRATOR_END;
    TailOfTail("arn:" + t.partition + ":iam::" + t.accountId + ":role/", before, name, ADMINISTRATOR_END);
  }

  lemma TailOfTail(a: string, b: string, c: string, end: string)
    ensures EndsWith(a + (b + (c + end)), end)
  {
    assert a + (b + (c + end)) == (a + b + c) + end;
    EndsWithTail(a + b + c, end);
  }

  /** Each restriction names one pattern, and the audit can compare its publishers. */
  ghost predicate Restricts(rs: seq<Restriction>, arns: seq<string>) {
    && |rs| == |arns|
    && forall i :: 0 <= i < |rs| ==> rs[i].objectArns == [arns[i]] && Comparable(rs[i])
  }

  lemma WellPosedFrom(spec: Specification, arns: seq<string>)
    requires spec.protected != [] && spec.immutable != [] && spec.pointers != []
    requires Distinct(spec.protected) && Distinct(spec.immutable + spec.pointers)
    requires Restricts(spec.restrictions, arns) && Distinct(arns)
    ensures WellPosed(spec)
  {
    forall r | r in spec.restrictions
      ensures Distinct(r.objectArns) && r.objectArns != []
      ensures IsAdministratorPattern(r.publishers)
              || (Distinct(r.publishers) && forall p :: p in r.publishers ==> !HasQuestionMark(p))
    {
      var i :| 0 <= i < |spec.restrictions| && spec.restrictions[i] == r;
      assert Comparable(spec.restrictions[i]);
    }
    forall i, j | 0 <= i < |spec.restrictions| && 0 <= j < |spec.restrictions| && i != j
      ensures !ExactValues(spec.restrictions[i].objectArns, spec.restrictions[j].objectArns)
    {
      assert arns[i] != arns[j] && arns[j] in [arns[j]];
    }
  }

  function ActionTail(action: string): string {
    "actions/*/" + action + ".json"
  }

  function ActionTails(t: Target, root: Root): (tails: seq<string>)
    ensures |tails| == |ActionWriters(t, root)|
    ensures forall i :: 0 <= i < |tails| ==> tails[i] == ActionTail(ActionWriters(t, root)[i].0)
  {
    var writers := ActionWriters(t, root);
    seq(|writers|, i requires 0 <= i < |writers| => ActionTail(writers[i].0))
  }

  function RecordTails(): seq<string> {
    ["plan-packages/*", "checkpoint.json", "mutation-owner.json"]
  }

  function ApprovalTails(root: Root): seq<string> {
    if root == BootstrapRoot then ["approvals/*"] else []
  }

  function RootTails(t: Target, root: Root): seq<string> {
    RecordTails() + ActionTails(t, root) + ApprovalTails(root)
  }

  lemma ActionTailStarts(action: string)
    ensures |ActionTail(action)| > 1 && ActionTail(action)[0] == 'a' && ActionTail(action)[1] == 'c'
  {}

  lemma ActionTailsDiffer(a: string, b: string)
    requires a != b
    ensures ActionTail(a) != ActionTail(b)
  {
    Between("actions/*/", a, b, ".json");
  }

  lemma Between(before: string, a: string, b: string, after: string)
    requires a != b
    ensures before + a + after != before + b + after
  {
    assert (a + after)[..|a|] == a && (b + after)[..|b|] == b;
    PrefixKeepsApart(before, a + after, b + after);
    assert before + a + after == before + (a + after) && before + b + after == before + (b + after);
  }

  /** Names that are told apart by one character. */
  lemma ToldApart(writers: seq<(string, string)>, at: nat)
    requires forall i :: 0 <= i < |writers| ==> at < |writers[i].0|
    requires forall i, j :: 0 <= i < j < |writers| ==> writers[i].0[at] != writers[j].0[at]
    ensures forall i, j :: 0 <= i < j < |writers| ==> writers[i].0 != writers[j].0
  {}

  lemma FoundationActionsDiffer(t: Target)
    ensures forall i, j :: 0 <= i < j < |ActionWriters(t, FoundationRoot)| ==>
              ActionWriters(t, FoundationRoot)[i].0 != ActionWriters(t, FoundationRoot)[j].0
  {
    var writers := ActionWriters(t, FoundationRoot);
    assert writers[0].0[17] == 'A' && writers[1].0[17] == 'F';
  }

  lemma AppActionsDiffer(t: Target)
    ensures forall i, j :: 0 <= i < j < |ActionWriters(t, AppRoot)| ==>
              ActionWriters(t, AppRoot)[i].0 != ActionWriters(t, AppRoot)[j].0
  {
    var writers := ActionWriters(t, AppRoot);
    assert writers[0].0[18] == 'A' && writers[1].0[18] == 'D' && writers[2].0[18] == 'T' && writers[3].0[18] == 'P';
    ToldApart(writers, 18);
  }

  lemma ActionsDiffer(t: Target, root: Root)
    ensures forall i, j :: 0 <= i < j < |ActionWriters(t, root)| ==>
              ActionWriters(t, root)[i].0 != ActionWriters(t, root)[j].0
  {
    FoundationActionsDiffer(t);
    AppActionsDiffer(t);
  }

  lemma ActionTailsDistinct(t: Target, root: Root)
    ensures Distinct(ActionTails(t, root))
  {
    var tails := ActionTails(t, root);
    ActionsDiffer(t, root);
    forall i, j | 0 <= i < j < |tails| ensures tails[i] != tails[j] {
      ActionTailsDiffer(ActionWriters(t, root)[i].0, ActionWriters(t, root)[j].0);
    }
  }

  lemma JoinDistinct<T>(a: seq<T>, b: seq<T>)
    requires Distinct(a) && Distinct(b) && forall i, j :: 0 <= i < |a| && 0 <= j < |b| ==> a[i] != b[j]
    ensures Distinct(a + b)
  {}

  lemma TailInitials(t: Target, root: Root)
    ensures Distinct(RecordTails()) && Distinct(ApprovalTails(root))
    ensures forall i :: 0 <= i < 3 ==> |RecordTails()[i]| > 1 && RecordTails()[i][0] != 'a'
    ensures forall i :: 0 <= i < |ApprovalTails(root)| ==>
              |ApprovalTails(root)[i]| > 1 && ApprovalTails(root)[i][0] == 'a' && ApprovalTails(root)[i][1] == 'p'
  {
    assert RecordTails()[0][0] == 'p' && RecordTails()[1][0] == 'c' && RecordTails()[2][0] == 'm';
  }

  lemma ActionInitials(t: Target, root: Root)
    ensures forall i :: 0 <= i < |ActionTails(t, root)| ==>
              |ActionTails(t, root)[i]| > 1 && ActionTails(t, root)[i][0] == 'a' && ActionTails(t, root)[i][1] == 'c'
  {
    forall i | 0 <= i < |ActionTails(t, root)|
      ensures |ActionTails(t, root)[i]| > 1 && ActionTails(t, root)[i][0] == 'a' && ActionTails(t, root)[i][1] == 'c'
    {
      ActionTailStarts(ActionWriters(t, root)[i].0);
    }
  }

  lemma ThreeDistinct(a: seq<string>, b: seq<string>, c: seq<string>)
    requires Distinct(a) && Distinct(b) && Distinct(c)
    requires forall i :: 0 <= i < |a| ==> |a[i]| > 1 && a[i][0] != 'a'
    requires forall i :: 0 <= i < |b| ==> |b[i]| > 1 && b[i][0] == 'a' && b[i][1] == 'c'
    requires forall i :: 0 <= i < |c| ==> |c[i]| > 1 && c[i][0] == 'a' && c[i][1] == 'p'
    ensures Distinct(a + b + c)
  {
    JoinDistinct(a, b);
    JoinDistinct(a + b, c);
  }

  /** What a root's restrictions are on, below its prefix. */
  lemma RootTailsDistinct(t: Target, root: Root)
    ensures Distinct(RootTails(t, root))
  {
    TailInitials(t, root);
    ActionInitials(t, root);
    ActionTailsDistinct(t, root);
    ThreeDistinct(RecordTails(), ActionTails(t, root), ApprovalTails(root));
  }

  function RootedAll(root: Root, tails: seq<string>): (places: seq<Place>)
    ensures |places| == |tails| && forall i :: 0 <= i < |tails| ==> places[i] == Rooted(root, tails[i])
  {
    seq(|tails|, i requires 0 <= i < |tails| => Rooted(root, tails[i]))
  }

  lemma RestrictsJoin(rs: seq<Restriction>, arns: seq<string>, more: seq<Restriction>, others: seq<string>)
    requires Restricts(rs, arns) && Restricts(more, others)
    ensures Restricts(rs + more, arns + others)
  {}

  lemma RolesAreGood(t: Target, root: Root)
    requires NamesApart(t)
    ensures GoodRole(t, Roles(t, root).plan) && GoodRole(t, Roles(t, root).smoke) && GoodRole(t, Roles(t, root).apply)
    ensures forall i :: 0 <= i < |ActionWriters(t, root)| ==> GoodRole(t, ActionWriters(t, root)[i].1)
  {
    var names := RoleNames(t);
    assert names[4] == t.foundation.plan && names[5] == t.foundation.apply && names[6] == t.foundation.smoke;
    assert names[7] == t.app.plan && names[8] == t.app.apply && names[9] == t.app.smoke;
    assert names[10] == t.staticDeployRole && names[11] == t.statusPublisherRole;
  }

  function RootBucket(t: Target, root: Root): string {
    BucketArn(t, if root == AppRoot then t.names.appBucket else t.names.terraformBucket)
  }

  lemma RestrictsOne(t: Target, root: Root, tail: string, role: string)
    requires NamesApart(t) && GoodRole(t, role)
    ensures Restricts([Publishers(t, Under(RootPrefix(t, root), tail), role)],
                      Placed(t, RootBucket(t, root), [Rooted(root, tail)]))
  {
    PublishersComparable(t, Under(RootPrefix(t, root), tail), role);
    RootTailUnder(t, root, tail);
  }

  lemma RestrictsThree(t: Target, root: Root, a: string, b: string, c: string, x: string, y: string, z: string)
    requires NamesApart(t) && GoodRole(t, x) && GoodRole(t, y) && GoodRole(t, z)
    ensures Restricts([Publishers(t, Under(RootPrefix(t, root), a), x), Publishers(t, Under(RootPrefix(t, root), b), y),
                       Publishers(t, Under(RootPrefix(t, root), c), z)],
                      Placed(t, RootBucket(t, root), RootedAll(root, [a, b, c])))
  {
    RestrictsOne(t, root, a, x);
    RestrictsOne(t, root, b, y);
    RestrictsOne(t, root, c, z);
    var bucket := RootBucket(t, root);
    assert Placed(t, bucket, RootedAll(root, [a, b, c]))
           == Placed(t, bucket, [Rooted(root, a)]) + Placed(t, bucket, [Rooted(root, b)])
              + Placed(t, bucket, [Rooted(root, c)]);
  }

  lemma RecordRestricts(t: Target, root: Root)
    requires NamesApart(t)
    ensures Restricts(RecordRestrictions(t, root), Placed(t, RootBucket(t, root), RootedAll(root, RecordTails())))
  {
    RolesAreGood(t, root);
    RestrictsThree(t, root, "plan-packages/*", "checkpoint.json", "mutation-owner.json", Roles(t, root).plan,
                   Roles(t, root).smoke, Roles(t, root).apply);
  }

  lemma ApprovalRestricts(t: Target, root: Root)
    requires NamesApart(t)
    ensures Restricts(ApprovalRestrictions(t, root),
                      Placed(t, RootBucket(t, root), RootedAll(root, ApprovalTails(root))))
  {
    if root == BootstrapRoot {
      RestrictsOne(t, root, "approvals/*", Administrator(t));
      assert RootedAll(root, ApprovalTails(root)) == [Rooted(root, "approvals/*")];
    }
  }

  lemma ActionRestricts(t: Target, root: Root)
    requires NamesApart(t)
    ensures Restricts(ActionRestrictions(t, root, ActionWriters(t, root)),
                      Placed(t, RootBucket(t, root), RootedAll(root, ActionTails(t, root))))
  {
    RolesAreGood(t, root);
    var writers, rs := ActionWriters(t, root), ActionRestrictions(t, root, ActionWriters(t, root));
    var arns := Placed(t, RootBucket(t, root), RootedAll(root, ActionTails(t, root)));
    forall i | 0 <= i < |rs| ensures rs[i].objectArns == [arns[i]] && Comparable(rs[i]) {
      var arn := Under(RootPrefix(t, root), "actions/*/" + writers[i].0 + ".json");
      PublishersComparable(t, arn, writers[i].1);
      RootTailUnder(t, root, ActionTail(writers[i].0));
      assert rs[i] == Publishers(t, arn, writers[i].1);
    }
  }

  /** The restrictions of a root are on its places. */
  lemma RootRestricts(t: Target, root: Root)
    requires NamesApart(t)
    ensures Restricts(RootRestrictions(t, root), Placed(t, RootBucket(t, root), RootedAll(root, RootTails(t, root))))
  {
    RecordRestricts(t, root);
    ActionRestricts(t, root);
    ApprovalRestricts(t, root);
    JoinThree(t, root, RecordRestrictions(t, root), RecordTails(), ActionRestrictions(t, root, ActionWriters(t, root)),
              ActionTails(t, root), ApprovalRestrictions(t, root), ApprovalTails(root));
  }

  lemma JoinThree(t: Target, root: Root, rs: seq<Restriction>, a: seq<string>, ss: seq<Restriction>, b: seq<string>,
                  us: seq<Restriction>, c: seq<string>)
    requires Restricts(rs, Placed(t, RootBucket(t, root), RootedAll(root, a)))
    requires Restricts(ss, Placed(t, RootBucket(t, root), RootedAll(root, b)))
    requires Restricts(us, Placed(t, RootBucket(t, root), RootedAll(root, c)))
    ensures Restricts(rs + ss + us, Placed(t, RootBucket(t, root), RootedAll(root, a + b + c)))
  {
    var bucket := RootBucket(t, root);
    PlacedJoins(t, bucket, root, a, b);
    PlacedJoins(t, bucket, root, a + b, c);
  }

  lemma PlacedJoins(t: Target, bucket: string, root: Root, a: seq<string>, b: seq<string>)
    ensures Placed(t, bucket, RootedAll(root, a + b))
            == Placed(t, bucket, RootedAll(root, a)) + Placed(t, bucket, RootedAll(root, b))
  {}

  // ------------------------------------------------------------------
  // The three specifications

  lemma ReleaseIsWellPosed(t: Target)
    requires NamesApart(t)
    ensures WellPosed(ReleaseSpecification(t))
  {
    var spec, bucket := ReleaseSpecification(t), ReleaseArn(t);
    var arns := spec.immutable + spec.pointers;
    ReleaseArnsDistinct(bucket, arns);
    ReleaseRestricts(t, spec.restrictions, arns);
    WellPosedFrom(spec, arns);
  }

  lemma ReleaseArnsDistinct(bucket: string, arns: seq<string>)
    requires arns == [Under(bucket, "artifacts/toolchain/candidates/*"), Under(bucket, "artifacts/prover/candidates/*"),
                      Under(bucket, "promotions/toolchain/current.json"),
                      Under(bucket, "promotions/prover/current.json")]
    ensures Distinct(arns)
  {
    var a, b := "artifacts/toolchain/candidates/*", "artifacts/prover/candidates/*";
    var c, d := "promotions/toolchain/current.json", "promotions/prover/current.json";
    assert a[0] == b[0] == 'a' && c[0] == d[0] == 'p' && a[10] != b[10] && c[11] != d[11];
    FourDistinct(bucket, a, b, c, d, arns);
  }

  lemma FourDistinct(bucket: string, a: string, b: string, c: string, d: string, patterns: seq<string>)
    requires a != b && a != c && a != d && b != c && b != d && c != d
    requires patterns == [Under(bucket, a), Under(bucket, b), Under(bucket, c), Under(bucket, d)]
    ensures Distinct(patterns)
  {
    UnderDiffers(bucket, a, b);
    UnderDiffers(bucket, a, c);
    UnderDiffers(bucket, a, d);
    UnderDiffers(bucket, b, c);
    UnderDiffers(bucket, b, d);
    UnderDiffers(bucket, c, d);
  }

  lemma ReleaseRestricts(t: Target, rs: seq<Restriction>, arns: seq<string>)
    requires NamesApart(t) && |arns| == 4
    requires rs == [Publishers(t, arns[0], t.names.toolchainCandidateRole),
                    Publishers(t, arns[1], t.names.proverCandidateRole),
                    Publishers(t, arns[2], t.names.toolchainPointerRole),
                    Publishers(t, arns[3], t.names.proverPointerRole)]
    ensures Restricts(rs, arns)
  {
    var names := RoleNames(t);
    assert names[0] == t.names.toolchainCandidateRole && names[1] == t.names.proverCandidateRole;
    assert names[2] == t.names.toolchainPointerRole && names[3] == t.names.proverPointerRole;
    forall i | 0 <= i < 4 ensures rs[i].objectArns == [arns[i]] && Comparable(rs[i]) {
      PublishersComparable(t, arns[i], names[i]);
    }
  }

  /** The places of a root that are immutable. */
  function ImmutablePlaces(root: Root): seq<Place> {
    [Rooted(root, "plan-packages/*"), Rooted(root, "actions/*"), Rooted(root, "approvals/*")]
  }

  lemma ImmutablePlaced(t: Target, root: Root)
    ensures RootImmutable(t, root) == Placed(t, RootBucket(t, root), ImmutablePlaces(root))
    ensures [Under(RootPrefix(t, root), "*")] == Placed(t, RootBucket(t, root), [Rooted(root, "*")])
  {
    RootTailUnder(t, root, "plan-packages/*");
    RootTailUnder(t, root, "actions/*");
    RootTailUnder(t, root, "approvals/*");
    RootTailUnder(t, root, "*");
  }

  lemma ImmutableDistinct(root: Root)
    ensures Distinct(ImmutablePlaces(root) + [Rooted(root, "*")])
  {
    assert "plan-packages/*"[0] == 'p' && "actions/*"[..2] == "ac" && "approvals/*"[..2] == "ap" && "*"[0] == '*';
  }

  lemma PlacesJoin(t: Target, bucket: string, a: seq<Place>, b: seq<Place>)
    ensures Placed(t, bucket, a + b) == Placed(t, bucket, a) + Placed(t, bucket, b)
  {}

  function Prefixes(names: seq<string>): (places: seq<Place>)
    ensures |places| == |names| && forall i :: 0 <= i < |names| ==> places[i] == Prefix(names[i])
  {
    seq(|names|, i requires 0 <= i < |names| => Prefix(names[i]))
  }

  lemma PartDistinct<T>(a: seq<T>, b: seq<T>)
    requires Distinct(a + b)
    ensures Distinct(a) && Distinct(b)
  {
    forall i, j | 0 <= i < j < |a| ensures a[i] != a[j] {
      assert (a + b)[i] == a[i] && (a + b)[j] == a[j];
    }
    forall i, j | 0 <= i < j < |b| ensures b[i] != b[j] {
      assert (a + b)[|a| + i] == b[i] && (a + b)[|a| + j] == b[j];
    }
  }

  /** Rooted places, prefixes and a key are apart. */
  lemma KindsDistinct(rooted: seq<Place>, names: seq<string>, more: seq<Place>, keys: seq<Place>)
    requires Distinct(rooted + more) && Distinct(names) && Distinct(keys)
    requires forall i :: 0 <= i < |rooted| ==> rooted[i].Rooted?
    requires forall i :: 0 <= i < |more| ==> more[i].Rooted?
    requires forall i :: 0 <= i < |keys| ==> keys[i].Key?
    ensures Distinct(rooted + Prefixes(names) + more + keys)
  {
    PartDistinct(rooted, more);
    JoinDistinct(rooted, Prefixes(names));
    forall i, j | 0 <= i < |rooted + Prefixes(names)| && 0 <= j < |more|
      ensures (rooted + Prefixes(names))[i] != more[j]
    {
      assert (rooted + more)[|rooted| + j] == more[j];
      assert i < |rooted| ==> (rooted + more)[i] == rooted[i];
    }
    JoinDistinct(rooted + Prefixes(names), more);
    JoinDistinct(rooted + Prefixes(names) + more, keys);
  }

  /** The names of the app bucket: artifacts first, then those of retired records. */
  lemma AppNames(t: Target)
    requires NamesApart(t)
    ensures Distinct(AppPrefixes(t)[..3])
    ensures forall i :: 0 <= i < |AppPrefixes(t)| ==> Outside(Prefix(AppPrefixes(t)[i]))
    ensures Outside(Key(t.names.statusKey))
    ensures AppArtifacts(t) == Placed(t, AppArn(t), Prefixes(AppPrefixes(t)[..3]))
    ensures OldApp(t) == Placed(t, AppArn(t), Prefixes(AppPrefixes(t)[3..]))
    ensures [StatusArn(t)] == Placed(t, AppArn(t), [Key(t.names.statusKey)])
  {}

  function AppWritten(t: Target): seq<Place> {
    ImmutablePlaces(AppRoot) + Prefixes(AppPrefixes(t)[..3]) + [Rooted(AppRoot, "*")] + [Key(t.names.statusKey)]
  }

  lemma AppWrittenDistinct(t: Target)
    requires NamesApart(t)
    ensures Distinct(Placed(t, AppArn(t), AppWritten(t)))
  {
    AppNames(t);
    ImmutableDistinct(AppRoot);
    KindsDistinct(ImmutablePlaces(AppRoot), AppPrefixes(t)[..3], [Rooted(AppRoot, "*")], [Key(t.names.statusKey)]);
    PlacedDistinct(t, AppArn(t), AppWritten(t));
  }

  lemma AppWrittenPlaced(t: Target)
    requires NamesApart(t)
    ensures AppSpecification(t).immutable + AppSpecification(t).pointers == Placed(t, AppArn(t), AppWritten(t))
  {
    AppNames(t);
    ImmutablePlaced(t, AppRoot);
    FourJoin(t, AppArn(t), ImmutablePlaces(AppRoot), Prefixes(AppPrefixes(t)[..3]), [Rooted(AppRoot, "*")],
             [Key(t.names.statusKey)]);
    assert AppSpecification(t).immutable == RootImmutable(t, AppRoot) + AppArtifacts(t);
    assert AppSpecification(t).pointers == [Under(RootPrefix(t, AppRoot), "*")] + [StatusArn(t)];
  }

  lemma FourJoin(t: Target, bucket: string, a: seq<Place>, b: seq<Place>, c: seq<Place>, d: seq<Place>)
    ensures Placed(t, bucket, a + b + c + d)
            == (Placed(t, bucket, a) + Placed(t, bucket, b)) + (Placed(t, bucket, c) + Placed(t, bucket, d))
  {}

  function AppKept(t: Target): seq<Place> {
    [Rooted(AppRoot, "*")] + Prefixes(AppPrefixes(t)) + [Key(t.names.statusKey)]
  }

  lemma AppKeptDistinct(t: Target)
    requires NamesApart(t)
    ensures Distinct(Placed(t, AppArn(t), AppKept(t)))
  {
    AppNames(t);
    var key := Key(t.names.statusKey);
    KindsDistinct([Rooted(AppRoot, "*")], AppPrefixes(t), [], [key]);
    assert [Rooted(AppRoot, "*")] + Prefixes(AppPrefixes(t)) + [] + [key] == AppKept(t);
    PlacedDistinct(t, AppArn(t), AppKept(t));
  }

  lemma KeptJoin(t: Target, bucket: string, first: Place, names: seq<string>, n: nat, last: Place)
    requires n <= |names|
    ensures Placed(t, bucket, [first] + Prefixes(names) + [last])
            == Placed(t, bucket, [first]) + Placed(t, bucket, Prefixes(names[..n]))
               + Placed(t, bucket, Prefixes(names[n..])) + Placed(t, bucket, [last])
  {
    assert names == names[..n] + names[n..];
  }

  lemma AppKeptPlaced(t: Target)
    requires NamesApart(t)
    ensures AppSpecification(t).protected == Placed(t, AppArn(t), AppKept(t))
  {
    AppNames(t);
    ImmutablePlaced(t, AppRoot);
    KeptJoin(t, AppArn(t), Rooted(AppRoot, "*"), AppPrefixes(t), 3, Key(t.names.statusKey));
  }

  lemma AppRestricts(t: Target)
    requires NamesApart(t)
    ensures Restricts(AppSpecification(t).restrictions, Placed(t, AppArn(t), AppRestricted(t)))
  {
    RootRestricts(t, AppRoot);
    AppNames(t);
    var arns := Placed(t, AppArn(t), Prefixes(AppPrefixes(t)[..3]) + [Key(t.names.statusKey)]);
    PlacesJoin(t, AppArn(t), Prefixes(AppPrefixes(t)[..3]), [Key(t.names.statusKey)]);
    var more := [Publishers(t, AppArtifacts(t)[0], t.app.plan), Publishers(t, AppArtifacts(t)[1], t.app.plan),
                 Publishers(t, AppArtifacts(t)[2], t.app.plan), Publishers(t, StatusArn(t), t.statusPublisherRole)];
    assert arns == AppArtifacts(t) + [StatusArn(t)];
    FourRestrict(t, more, arns);
    RestrictsJoin(RootRestrictions(t, AppRoot), Placed(t, AppArn(t), RootedAll(AppRoot, RootTails(t, AppRoot))),
                  more, arns);
    PlacesJoin(t, AppArn(t), RootedAll(AppRoot, RootTails(t, AppRoot)),
               Prefixes(AppPrefixes(t)[..3]) + [Key(t.names.statusKey)]);
  }

  function AppRestricted(t: Target): seq<Place> {
    RootedAll(AppRoot, RootTails(t, AppRoot)) + (Prefixes(AppPrefixes(t)[..3]) + [Key(t.names.statusKey)])
  }

  lemma FourRestrict(t: Target, rs: seq<Restriction>, arns: seq<string>)
    requires NamesApart(t) && |arns| == 4
    requires rs == [Publishers(t, arns[0], t.app.plan), Publishers(t, arns[1], t.app.plan),
                    Publishers(t, arns[2], t.app.plan), Publishers(t, arns[3], t.statusPublisherRole)]
    ensures Restricts(rs, arns)
  {
    var names := RoleNames(t);
    assert names[7] == t.app.plan && names[11] == t.statusPublisherRole;
    forall i | 0 <= i < 4 ensures rs[i].objectArns == [arns[i]] && Comparable(rs[i]) {
      PublishersComparable(t, arns[i], if i < 3 then t.app.plan else t.statusPublisherRole);
    }
  }

  lemma RootedDistinct(root: Root, tails: seq<string>)
    requires Distinct(tails)
    ensures Distinct(RootedAll(root, tails))
  {}

  lemma AppRestrictedDistinct(t: Target)
    requires NamesApart(t)
    ensures Distinct(Placed(t, AppArn(t), AppRestricted(t)))
  {
    AppNames(t);
    RootTailsDistinct(t, AppRoot);
    var rooted, key := RootedAll(AppRoot, RootTails(t, AppRoot)), Key(t.names.statusKey);
    RootedDistinct(AppRoot, RootTails(t, AppRoot));
    assert rooted + [] == rooted;
    KindsDistinct(rooted, AppPrefixes(t)[..3], [], [key]);
    assert rooted + Prefixes(AppPrefixes(t)[..3]) + [] + [key] == AppRestricted(t);
    PlacedDistinct(t, AppArn(t), AppRestricted(t));
  }

  lemma AppIsWellPosed(t: Target)
    requires NamesApart(t)
    ensures WellPosed(AppSpecification(t))
  {
    AppWrittenDistinct(t);
    AppWrittenPlaced(t);
    AppKeptDistinct(t);
    AppKeptPlaced(t);
    AppRestrictedDistinct(t);
    AppRestricts(t);
    WellPosedFrom(AppSpecification(t), Placed(t, AppArn(t), AppRestricted(t)));
  }

  // The Terraform bucket holds two roots.

  function BothRoots(a: seq<string>, b: seq<string>): seq<Place> {
    RootedAll(BootstrapRoot, a) + RootedAll(FoundationRoot, b)
  }

  lemma BothDistinct(a: seq<string>, b: seq<string>)
    requires Distinct(a) && Distinct(b)
    ensures Distinct(BothRoots(a, b))
  {
    RootedDistinct(BootstrapRoot, a);
    RootedDistinct(FoundationRoot, b);
    JoinDistinct(RootedAll(BootstrapRoot, a), RootedAll(FoundationRoot, b));
  }

  lemma TerraformRestricts(t: Target)
    requires NamesApart(t)
    ensures Restricts(TerraformSpecification(t).restrictions,
                      Placed(t, TerraformArn(t), BothRoots(RootTails(t, BootstrapRoot), RootTails(t, FoundationRoot))))
    ensures Distinct(Placed(t, TerraformArn(t), BothRoots(RootTails(t, BootstrapRoot), RootTails(t, FoundationRoot))))
  {
    RootRestricts(t, BootstrapRoot);
    RootRestricts(t, FoundationRoot);
    var a, b := RootTails(t, BootstrapRoot), RootTails(t, FoundationRoot);
    RestrictsJoin(RootRestrictions(t, BootstrapRoot), Placed(t, TerraformArn(t), RootedAll(BootstrapRoot, a)),
                  RootRestrictions(t, FoundationRoot), Placed(t, TerraformArn(t), RootedAll(FoundationRoot, b)));
    PlacesJoin(t, TerraformArn(t), RootedAll(BootstrapRoot, a), RootedAll(FoundationRoot, b));
    RootTailsDistinct(t, BootstrapRoot);
    RootTailsDistinct(t, FoundationRoot);
    BothDistinct(a, b);
    PlacedDistinct(t, TerraformArn(t), BothRoots(a, b));
  }

  function TerraformWritten(): seq<Place> {
    (ImmutablePlaces(BootstrapRoot) + ImmutablePlaces(FoundationRoot))
    + ([Rooted(BootstrapRoot, "*")] + [Rooted(FoundationRoot, "*")])
  }

  lemma TerraformWrittenDistinct(t: Target)
    ensures Distinct(Placed(t, TerraformArn(t), TerraformWritten()))
  {
    ImmutableDistinct(BootstrapRoot);
    ImmutableDistinct(FoundationRoot);
    TwoRootsDistinct(ImmutablePlaces(BootstrapRoot), Rooted(BootstrapRoot, "*"), ImmutablePlaces(FoundationRoot),
                     Rooted(FoundationRoot, "*"));
    PlacedDistinct(t, TerraformArn(t), TerraformWritten());
  }

  lemma TwoRootsDistinct(a: seq<Place>, x: Place, b: seq<Place>, y: Place)
    requires Distinct(a + [x]) && Distinct(b + [y])
    requires forall i :: 0 <= i < |a + [x]| ==> (a + [x])[i].Rooted? && (a + [x])[i].root == BootstrapRoot
    requires forall i :: 0 <= i < |b + [y]| ==> (b + [y])[i].Rooted? && (b + [y])[i].root == FoundationRoot
    ensures Distinct((a + b) + ([x] + [y]))
  {
    var whole, first, second := (a + b) + ([x] + [y]), a + [x], b + [y];
    forall i, j | 0 <= i < j < |whole| ensures whole[i] != whole[j] {
      var from := if i < |a| then i else if i < |a| + |b| then i - |a| else if i == |a| + |b| then |a| else |b|;
      var to := if j < |a| then j else if j < |a| + |b| then j - |a| else if j == |a| + |b| then |a| else |b|;
      assert whole[i] == if i < |a| || i == |a| + |b| then first[from] else second[from];
      assert whole[j] == if j < |a| || j == |a| + |b| then first[to] else second[to];
    }
  }

  lemma TerraformWrittenPlaced(t: Target)
    ensures TerraformSpecification(t).immutable + TerraformSpecification(t).pointers
            == Placed(t, TerraformArn(t), TerraformWritten())
  {
    ImmutablePlaced(t, BootstrapRoot);
    ImmutablePlaced(t, FoundationRoot);
    var bucket, x, y := TerraformArn(t), [Rooted(BootstrapRoot, "*")], [Rooted(FoundationRoot, "*")];
    FourJoin(t, bucket, ImmutablePlaces(BootstrapRoot), ImmutablePlaces(FoundationRoot), x, y);
    assert TerraformWritten() == ImmutablePlaces(BootstrapRoot) + ImmutablePlaces(FoundationRoot) + x + y;
    assert TerraformSpecification(t).pointers
           == [Under(RootPrefix(t, BootstrapRoot), "*")] + [Under(RootPrefix(t, FoundationRoot), "*")];
  }

  lemma TerraformKeptPlaced(t: Target, places: seq<Place>)
    requires places == [Rooted(BootstrapRoot, "*"), Rooted(FoundationRoot, "*"), Prefix(t.names.baselinePrefix),
                        Prefix(t.names.approvalPrefix)]
    ensures Placed(t, TerraformArn(t), places) == TerraformSpecification(t).protected
  {
    RootTailUnder(t, BootstrapRoot, "*");
    RootTailUnder(t, FoundationRoot, "*");
  }

  lemma TerraformKept(t: Target)
    requires NamesApart(t)
    ensures Distinct(TerraformSpecification(t).protected)
  {
    ImmutablePlaced(t, BootstrapRoot);
    ImmutablePlaced(t, FoundationRoot);
    assert AppPrefixes(t)[4] == t.names.approvalPrefix;
    var names := [t.names.baselinePrefix, t.names.approvalPrefix];
    var places := BothRoots(["*"], ["*"]) + Prefixes(names) + [] + [];
    assert BothRoots(["*"], ["*"]) + [] == BothRoots(["*"], ["*"]);
    KindsDistinct(BothRoots(["*"], ["*"]), names, [], []);
    PlacedDistinct(t, TerraformArn(t), places);
    var boot, found := Rooted(BootstrapRoot, "*"), Rooted(FoundationRoot, "*");
    assert places == [boot, found, Prefix(names[0]), Prefix(names[1])];
    TerraformKeptPlaced(t, places);
  }

  lemma TerraformIsWellPosed(t: Target)
    requires NamesApart(t)
    ensures WellPosed(TerraformSpecification(t))
  {
    TerraformWrittenDistinct(t);
    TerraformWrittenPlaced(t);
    TerraformKept(t);
    TerraformRestricts(t);
    WellPosedFrom(TerraformSpecification(t),
                  Placed(t, TerraformArn(t), BothRoots(RootTails(t, BootstrapRoot), RootTails(t, FoundationRoot))));
  }

  lemma BuiltIsOneOf(t: Target, spec: Specification)
    requires spec in BuildSpecifications(t)
    ensures spec == ReleaseSpecification(t) || spec == AppSpecification(t) || spec == TerraformSpecification(t)
  {}

  lemma OneOfThree(spec: Specification, a: Specification, b: Specification, c: Specification)
    requires WellPosed(a) && WellPosed(b) && WellPosed(c) && (spec == a || spec == b || spec == c)
    ensures WellPosed(spec)
  {}

  /** Every specification built for a target whose names are apart is well-posed. */
  lemma BuiltIsWellPosed(t: Target, spec: Specification)
    requires NamesApart(t) && spec in BuildSpecifications(t)
    ensures WellPosed(spec)
  {
    BuiltIsOneOf(t, spec);
    ReleaseIsWellPosed(t);
    AppIsWellPosed(t);
    TerraformIsWellPosed(t);
    OneOfThree(spec, ReleaseSpecification(t), AppSpecification(t), TerraformSpecification(t));
  }
}
