/**
 The audit specifications built for one deployment target, and the facts about
 them on which the guarantees over runs rest.
 */
module BucketInventory {
  import opened Patterns
  import opened BucketPolicy
  import opened BucketRequests
  import opened BucketRuns

  /** The names a target resolves to. */
  datatype Names = Names(
    releaseBucket: string, appBucket: string, terraformBucket: string,
    lambdaPrefix: string, frontendPrefix: string, signaturePrefix: string,
    acceptedPrefix: string, approvalPrefix: string, recoveryPrefix: string, statusKey: string, baselinePrefix: string,
    toolchainPointerKey: string, proverPointerKey: string, signingPrefix: string, networkingKey: string,
    toolchainCandidateRole: string, proverCandidateRole: string, toolchainPointerRole: string,
    proverPointerRole: string)

  datatype LaneRoles = LaneRoles(plan: string, apply: string, smoke: string)

  datatype Target = Target(
    partition: string, accountId: string, region: string, targetKey: string, names: Names,
    foundation: LaneRoles, app: LaneRoles, staticDeployRole: string, statusPublisherRole: string)

  datatype Root = BootstrapRoot | FoundationRoot | AppRoot

  function RootName(root: Root): string {
    match root
    case BootstrapRoot => "bootstrap"
    case FoundationRoot => "foundation"
    case AppRoot => "app"
  }

  function BucketArn(t: Target, bucket: string): string {
    "arn:" + t.partition + ":s3:::" + bucket
  }

  /** A pattern below a prefix. */
  function Under(prefix: string, tail: string): string {
    prefix + "/" + tail
  }

  function RoleArn(t: Target, role: string): string {
    "arn:" + t.partition + ":iam::" + t.accountId + ":role/" + role
  }

  function Administrator(t: Target): string {
    "aws-reserved/sso.amazonaws.com/" + t.region + "/AWSReservedSSO_AdministratorAccess_????????????????"
  }

  function Publishers(t: Target, arn: string, role: string): Restriction {
    Restriction([arn], ArnNotEquals, [RoleArn(t, role)])
  }

  /** Everything of one root lives under this prefix. */
  function RootPrefix(t: Target, root: Root): string {
    BucketArn(t, if root == AppRoot then t.names.appBucket else t.names.terraformBucket)
    + "/deployment/" + t.targetKey + "/" + RootName(root)
  }

  function RootImmutable(t: Target, root: Root): seq<string> {
    [Under(RootPrefix(t, root), "plan-packages/*"), Under(RootPrefix(t, root), "actions/*"),
     Under(RootPrefix(t, root), "approvals/*")]
  }

  function Roles(t: Target, root: Root): LaneRoles {
    match root
    case BootstrapRoot => LaneRoles(Administrator(t), Administrator(t), Administrator(t))
    case FoundationRoot => t.foundation
    case AppRoot => t.app
  }

  /** Which role writes which action record. */
  function ActionWriters(t: Target, root: Root): seq<(string, string)> {
    match root
    case BootstrapRoot => [("Local/Apply", Administrator(t))]
    case FoundationRoot =>
      [("DeployFoundation/ApplyReviewedFoundationPlan", t.foundation.apply),
       ("DeployFoundation/FoundationStateAbsenceOfAppRuntime", t.foundation.smoke)]
    case AppRoot =>
      [("DeployApplication/ApplyReviewedAppPlan", t.app.apply),
       ("DeployApplication/DeployStaticFrontend", t.staticDeployRole),
       ("DeployApplication/TargetRuntimeSmoke", t.app.smoke),
       ("DeployApplication/PublishCurrentStatus", t.statusPublisherRole)]
  }

  function ActionRestrictions(t: Target, root: Root, writers: seq<(string, string)>): seq<Restriction> {
    seq(|writers|, i requires 0 <= i < |writers| =>
      Publishers(t, Under(RootPrefix(t, root), "actions/*/" + writers[i].0 + ".json"), writers[i].1))
  }

  function RecordRestrictions(t: Target, root: Root): seq<Restriction> {
    [Publishers(t, Under(RootPrefix(t, root), "plan-packages/*"), Roles(t, root).plan),
     Publishers(t, Under(RootPrefix(t, root), "checkpoint.json"), Roles(t, root).smoke),
     Publishers(t, Under(RootPrefix(t, root), "mutation-owner.json"), Roles(t, root).apply)]
  }

  /** Approvals of the bootstrap root are written by the administrator; those of the others by anyone. */
  function ApprovalRestrictions(t: Target, root: Root): seq<Restriction> {
    if root == BootstrapRoot then [Publishers(t, Under(RootPrefix(t, root), "approvals/*"), Administrator(t))] else []
  }

  function RootRestrictions(t: Target, root: Root): seq<Restriction> {
    RecordRestrictions(t, root) + ActionRestrictions(t, root, ActionWriters(t, root)) + ApprovalRestrictions(t, root)
  }

  function ReleaseArn(t: Target): string {
    BucketArn(t, t.names.releaseBucket)
  }

  function ReleaseSpecification(t: Target): Specification {
    var bucket := ReleaseArn(t);
    Specification(
      Release, t.names.releaseBucket,
      [Under(bucket, "artifacts/toolchain/candidates/*"), Under(bucket, "artifacts/prover/candidates/*")],
      [Under(bucket, "promotions/toolchain/current.json"), Under(bucket, "promotions/prover/current.json")],
      [Under(bucket, "*")],
      [Under(bucket, "deployments/*"), Under(bucket, "rollbacks/*"), Under(bucket, "reissue/*"),
       Under(bucket, "candidates/*"),
       Under(bucket, t.names.toolchainPointerKey), Under(bucket, t.names.proverPointerKey),
       Under(bucket, t.names.signingPrefix + "/*"), Under(bucket, t.names.networkingKey),
       Under(bucket, "artifacts/toolchain/releases/*"), Under(bucket, "artifacts/prover/releases/*"),
       Under(bucket, "artifacts/toolchain/*/manifest.json"), Under(bucket, "artifacts/prover/*/manifest.json")],
      [Publishers(t, Under(bucket, "artifacts/toolchain/candidates/*"), t.names.toolchainCandidateRole),
       Publishers(t, Under(bucket, "artifacts/prover/candidates/*"), t.names.proverCandidateRole),
       Publishers(t, Under(bucket, "promotions/toolchain/current.json"), t.names.toolchainPointerRole),
       Publishers(t, Under(bucket, "promotions/prover/current.json"), t.names.proverPointerRole)])
  }

  function AppArn(t: Target): string {
    BucketArn(t, t.names.appBucket)
  }

  function AppArtifacts(t: Target): seq<string> {
    [Under(AppArn(t), t.names.lambdaPrefix + "/*"), Under(AppArn(t), t.names.frontendPrefix + "/*"),
     Under(AppArn(t), t.names.signaturePrefix + "/*")]
  }

  function OldApp(t: Target): seq<string> {
    [Under(AppArn(t), t.names.acceptedPrefix + "/*"), Under(AppArn(t), t.names.approvalPrefix + "/*"),
     Under(AppArn(t), t.names.recoveryPrefix + "/*")]
  }

  function StatusArn(t: Target): string {
    Under(AppArn(t), t.names.statusKey)
  }

  function AppSpecification(t: Target): Specification {
    Specification(
      AppRetained, t.names.appBucket,
      RootImmutable(t, AppRoot) + AppArtifacts(t),
      [Under(RootPrefix(t, AppRoot), "*"), StatusArn(t)],
      [Under(RootPrefix(t, AppRoot), "*")] + AppArtifacts(t) + OldApp(t) + [StatusArn(t)],
      OldApp(t),
      RootRestrictions(t, AppRoot)
      + [Publishers(t, AppArtifacts(t)[0], t.app.plan), Publishers(t, AppArtifacts(t)[1], t.app.plan),
         Publishers(t, AppArtifacts(t)[2], t.app.plan), Publishers(t, StatusArn(t), t.statusPublisherRole)])
  }

  function TerraformArn(t: Target): string {
    BucketArn(t, t.names.terraformBucket)
  }

  function OldTerraform(t: Target): seq<string> {
    [Under(TerraformArn(t), t.names.baselinePrefix + "/*"), Under(TerraformArn(t), t.names.approvalPrefix + "/*")]
  }

  function TerraformSpecification(t: Target): Specification {
    Specification(
      Terraform, t.names.terraformBucket,
      RootImmutable(t, BootstrapRoot) + RootImmutable(t, FoundationRoot),
      [Under(RootPrefix(t, BootstrapRoot), "*"), Under(RootPrefix(t, FoundationRoot), "*")],
      [Under(RootPrefix(t, BootstrapRoot), "*"), Under(RootPrefix(t, FoundationRoot), "*")] + OldTerraform(t),
      OldTerraform(t),
      RootRestrictions(t, BootstrapRoot) + RootRestrictions(t, FoundationRoot))
  }

  function BuildSpecifications(t: Target): seq<Specification> {
    [ReleaseSpecification(t), AppSpecification(t), TerraformSpecification(t)]
  }

  /** A pattern below a prefix lies inside the pattern of everything under that prefix. */
  lemma BelowPrefix(prefix: string, tail: string, resource: string)
    requires Glob(Under(prefix, tail), resource)
    ensures Glob(Under(prefix, "*"), resource)
  {
    StarWidens(prefix + "/", tail, resource);
  }

  /** Each immutable pattern of a root lies inside the root's own pattern. */
  lemma RootImmutableInside(t: Target, root: Root, resource: string)
    requires Within(RootImmutable(t, root), resource)
    ensures Glob(Under(RootPrefix(t, root), "*"), resource)
  {
    var prefix, patterns := RootPrefix(t, root), RootImmutable(t, root);
    if Glob(patterns[0], resource) {
      BelowPrefix(prefix, "plan-packages/*", resource);
    } else if Glob(patterns[1], resource) {
      BelowPrefix(prefix, "actions/*", resource);
    } else {
      BelowPrefix(prefix, "approvals/*", resource);
    }
  }

  lemma WithinMember(patterns: seq<string>, pattern: string, resource: string)
    requires pattern in patterns && Glob(pattern, resource)
    ensures Within(patterns, resource)
  {}

  lemma ReleaseProtectsItself(t: Target)
    ensures ProtectsItself(ReleaseSpecification(t))
  {
    var spec, bucket := ReleaseSpecification(t), ReleaseArn(t);
    forall resource | Within(spec.immutable, resource) || Within(spec.pointers, resource)
      ensures Within(spec.protected, resource)
    {
      if Glob(spec.immutable[0], resource) {
        BelowPrefix(bucket, "artifacts/toolchain/candidates/*", resource);
      } else if Glob(spec.immutable[1], resource) {
        BelowPrefix(bucket, "artifacts/prover/candidates/*", resource);
      } else if Glob(spec.pointers[0], resource) {
        BelowPrefix(bucket, "promotions/toolchain/current.json", resource);
      } else {
        BelowPrefix(bucket, "promotions/prover/current.json", resource);
      }
      WithinMember(spec.protected, Under(bucket, "*"), resource);
    }
  }

  lemma AppProtectsItself(t: Target)
    ensures ProtectsItself(AppSpecification(t))
  {
    var spec, own := AppSpecification(t), Under(RootPrefix(t, AppRoot), "*");
    assert spec.protected[0] == own;
    forall resource | Within(spec.immutable, resource) || Within(spec.pointers, resource)
      ensures Within(spec.protected, resource)
    {
      if Within(RootImmutable(t, AppRoot), resource) {
        RootImmutableInside(t, AppRoot, resource);
        WithinMember(spec.protected, own, resource);
      } else {
        var p :| p in spec.immutable + spec.pointers && Glob(p, resource);
        WithinMember(spec.protected, p, resource);
      }
    }
  }

  lemma TerraformProtectsItself(t: Target)
    ensures ProtectsItself(TerraformSpecification(t))
  {
    var spec := TerraformSpecification(t);
    forall resource | Within(spec.immutable, resource) || Within(spec.pointers, resource)
      ensures Within(spec.protected, resource)
    {
      if Within(RootImmutable(t, BootstrapRoot), resource) {
        RootImmutableInside(t, BootstrapRoot, resource);
        WithinMember(spec.protected, Under(RootPrefix(t, BootstrapRoot), "*"), resource);
      } else if Within(RootImmutable(t, FoundationRoot), resource) {
        RootImmutableInside(t, FoundationRoot, resource);
        WithinMember(spec.protected, Under(RootPrefix(t, FoundationRoot), "*"), resource);
      } else {
        var p :| p in spec.immutable + spec.pointers && Glob(p, resource);
        WithinMember(spec.protected, p, resource);
      }
    }
  }

  /** Every built specification protects its immutable objects and its pointers from deletion. */
  lemma BuiltProtectsItself(t: Target, spec: Specification)
    requires spec in BuildSpecifications(t)
    ensures ProtectsItself(spec)
  {
    ReleaseProtectsItself(t);
    AppProtectsItself(t);
    TerraformProtectsItself(t);
  }

  /** The names an audited bucket goes by in a run: its policy's statements under some reading. */
  ghost predicate Audited(w: Setting, t: Target, spec: Specification, bucketName: string, versioning: string,
                          policy: Json) {
    && spec in BuildSpecifications(t)
    && AuditObservation(spec, bucketName, versioning, policy).Accepted?
    && PolicyStatements(policy) == Some(w.statements)
  }

  lemma AuditedStatements(w: Setting, t: Target, spec: Specification, bucketName: string, versioning: string,
                          policy: Json)
    requires Audited(w, t, spec, bucketName, versioning, policy)
    ensures RequireStatements(w.statements, spec).Accepted? && ProtectsItself(spec)
  {
    BuiltProtectsItself(t, spec);
  }

  /**
   The guarantee of an accepted audit: over every run of requests, immutable
   objects stay as created, and pointers are created and replaced conditionally.
   */
  lemma AuditedRuns(w: Setting, t: Target, spec: Specification, bucketName: string, versioning: string, policy: Json,
                    requests: seq<Request>, stores: seq<Store>, resource: string, i: nat, j: nat)
    requires Audited(w, t, spec, bucketName, versioning, policy)
    requires Run(w, requests, stores) && i <= j < |stores|
    requires forall etag :: !w.tags.listed("*", etag)
    ensures Within(spec.immutable, resource) && resource in stores[i] ==>
              resource in stores[j] && stores[j][resource] == stores[i][resource]
    ensures Within(spec.pointers, resource) && i < |requests| ==>
              PointerKept(w.tags, requests[i], stores[i], stores[i + 1], resource)
  {
    AuditedStatements(w, t, spec, bucketName, versioning, policy);
    if Within(spec.immutable, resource) && resource in stores[i] {
      ImmutableForever(w, spec, requests, stores, resource, i, j);
    }
    if Within(spec.pointers, resource) && i < |requests| {
      PointerRuns(w, spec, requests, stores, i, resource);
    }
  }
}
