/** The names of the development target are apart, so its three audits can be met. */
module BucketDevelop {
  import opened Patterns
  import opened BucketPolicy
  import opened BucketInventory
  import opened BucketBuilt
  import opened BucketAccepted

  const PIPELINE := "sbs-"
  const SIMULATOR := "stark-ballot-sim-"
  const BRANCH := "/stark-dev/develop"
  const DEVELOP := "-stark-dev-develop"

  function DevelopNames(): Names {
    Names("stark-ballot-simulator" + DEVELOP + "-release-manifests",
          "sbs-app-pipeline-artifacts-stark-dev-develop-000000000000",
          "sbs-terraform-authority-stark-dev-develop-000000000000",
          "lambda-artifacts", "static-frontend-artifacts", "signature-gate-preflights" + BRANCH + "/app",
          "accepted-deployments" + BRANCH + "/app", "approval-evidence", "recovery-manifests" + BRANCH,
          "status/current.json", "accepted-baselines",
          "channels/develop/toolchain/accepted.json", "channels/develop/prover/accepted.json",
          "artifacts/foundation/image-signing", "channels/develop/foundation/app-networking.json",
          PIPELINE + "toolchain-candidate" + DEVELOP, PIPELINE + "prover-candidate" + DEVELOP,
          PIPELINE + "toolchain-pointer" + DEVELOP, PIPELINE + "prover-pointer" + DEVELOP)
  }

  function TerraformRole(step: string, root: string): string {
    SIMULATOR + step + DEVELOP + root
  }

  function DevelopRoles(root: string): LaneRoles {
    LaneRoles(TerraformRole("tf-plan", root), TerraformRole("tf-apply", root), TerraformRole("tf-smoke", root))
  }

  function DevelopTarget(): Target {
    Target("aws", "000000000000", "ap-northeast-1", "stark-dev/develop", DevelopNames(), DevelopRoles("-foundation"),
           DevelopRoles("-app"), TerraformRole("static-deploy", "-app"), PIPELINE + "app-status-publisher" + DEVELOP)
  }

  lemma StartsAlike(s: string, start: string)
    requires StartsWith(s, start) && start != ""
    ensures s[0] == start[0]
  {
    assert s[..|start|][0] == s[0];
  }

  lemma OtherInitial(name: string)
    requires name != "" && name[0] != 'd'
    ensures OutsideDeployment(name)
  {
    if StartsWith(name + "/", "deployment/") {
      StartsAlike(name + "/", "deployment/");
    }
  }

  predicate Begins(name: string, start: (char, char)) {
    |name| >= 2 && name[0] == start.0 && name[1] == start.1 && name[0] != 'd'
  }

  /** Names that differ in their first two characters. */
  lemma InitialsApart(names: seq<string>, starts: seq<(char, char)>)
    requires |names| == |starts| && Distinct(starts)
    requires forall i :: 0 <= i < |names| ==> Begins(names[i], starts[i])
    ensures Distinct(names) && forall i :: 0 <= i < |names| ==> OutsideDeployment(names[i])
  {
    forall i, j | 0 <= i < j < |names| ensures names[i] != names[j] {
      assert Begins(names[i], starts[i]) && Begins(names[j], starts[j]) && starts[i] != starts[j];
    }
    forall i | 0 <= i < |names| ensures OutsideDeployment(names[i]) {
      assert Begins(names[i], starts[i]);
      OtherInitial(names[i]);
    }
  }

  lemma PrefixesApart(t: Target)
    requires Begins(t.names.lambdaPrefix, ('l', 'a')) && Begins(t.names.frontendPrefix, ('s', 't'))
    requires Begins(t.names.signaturePrefix, ('s', 'i')) && Begins(t.names.acceptedPrefix, ('a', 'c'))
    requires Begins(t.names.approvalPrefix, ('a', 'p')) && Begins(t.names.recoveryPrefix, ('r', 'e'))
    ensures Distinct(AppPrefixes(t)) && forall i :: 0 <= i < |AppPrefixes(t)| ==> OutsideDeployment(AppPrefixes(t)[i])
  {
    var starts := [('l', 'a'), ('s', 't'), ('s', 'i'), ('a', 'c'), ('a', 'p'), ('r', 'e')];
    var names := AppPrefixes(t);
    assert Begins(names[0], starts[0]) && Begins(names[1], starts[1]) && Begins(names[2], starts[2]);
    assert Begins(names[3], starts[3]) && Begins(names[4], starts[4]) && Begins(names[5], starts[5]);
    InitialsApart(names, starts);
  }

  lemma ArtifactsBegin(names: Names)
    requires names == DevelopNames()
    ensures Begins(names.lambdaPrefix, ('l', 'a')) && Begins(names.frontendPrefix, ('s', 't'))
    ensures Begins(names.signaturePrefix, ('s', 'i'))
  {}

  lemma RecordsBegin(names: Names)
    requires names == DevelopNames()
    ensures Begins(names.acceptedPrefix, ('a', 'c')) && Begins(names.approvalPrefix, ('a', 'p'))
    ensures Begins(names.recoveryPrefix, ('r', 'e'))
  {}

  lemma DevelopPrefixes(t: Target)
    requires t.names == DevelopNames()
    ensures Distinct(AppPrefixes(t)) && forall i :: 0 <= i < |AppPrefixes(t)| ==> OutsideDeployment(AppPrefixes(t)[i])
  {
    ArtifactsBegin(t.names);
    RecordsBegin(t.names);
    PrefixesApart(t);
  }

  lemma DevelopOthers(names: Names)
    requires names == DevelopNames()
    ensures names.baselinePrefix != names.approvalPrefix
    ensures OutsideDeployment(names.baselinePrefix) && OutsideDeployment(names.statusKey)
  {
    assert names.baselinePrefix[1] == 'c' && names.approvalPrefix[1] == 'p';
    OtherInitial(names.baselinePrefix);
    OtherInitial(names.statusKey);
  }

  lemma PartsUnmarked()
    ensures !HasQuestionMark(PIPELINE) && !HasQuestionMark(SIMULATOR) && !HasQuestionMark(DEVELOP)
    ensures !HasQuestionMark("tf-plan") && !HasQuestionMark("tf-apply") && !HasQuestionMark("tf-smoke")
    ensures !HasQuestionMark("-foundation") && !HasQuestionMark("-app")
  {}

  lemma WorksUnmarked()
    ensures !HasQuestionMark("toolchain-candidate") && !HasQuestionMark("prover-candidate")
    ensures !HasQuestionMark("toolchain-pointer") && !HasQuestionMark("prover-pointer")
    ensures !HasQuestionMark("static-deploy") && !HasQuestionMark("app-status-publisher")
  {}

  lemma DevelopPlain(t: Target)
    requires t == DevelopTarget()
    ensures Plain(t.names.statusKey) && !HasQuestionMark(t.partition) && !HasQuestionMark(t.accountId)
  {}

  lemma RoleUnmarked(a: string, b: string, c: string, d: string)
    requires !HasQuestionMark(a) && !HasQuestionMark(b) && !HasQuestionMark(c) && !HasQuestionMark(d)
    ensures !HasQuestionMark(a + b + c) && !HasQuestionMark(a + b + c + d)
  {}

  lemma LaneUnmarked(roles: LaneRoles, root: string)
    requires roles == DevelopRoles(root) && !HasQuestionMark(root)
    ensures NoQuestionMarks([roles.plan, roles.apply, roles.smoke])
  {
    PartsUnmarked();
    RoleUnmarked(SIMULATOR, "tf-plan", DEVELOP, root);
    RoleUnmarked(SIMULATOR, "tf-apply", DEVELOP, root);
    RoleUnmarked(SIMULATOR, "tf-smoke", DEVELOP, root);
  }

  lemma PublishersUnmarked(t: Target)
    requires t == DevelopTarget()
    ensures NoQuestionMarks([t.names.toolchainCandidateRole, t.names.proverCandidateRole])
    ensures NoQuestionMarks([t.names.toolchainPointerRole, t.names.proverPointerRole])
    ensures NoQuestionMarks([t.staticDeployRole, t.statusPublisherRole])
  {
    PartsUnmarked();
    WorksUnmarked();
    RoleUnmarked(PIPELINE, "toolchain-candidate", DEVELOP, "");
    RoleUnmarked(PIPELINE, "prover-candidate", DEVELOP, "");
    RoleUnmarked(PIPELINE, "toolchain-pointer", DEVELOP, "");
    RoleUnmarked(PIPELINE, "prover-pointer", DEVELOP, "");
    RoleUnmarked(SIMULATOR, "static-deploy", DEVELOP, "-app");
    RoleUnmarked(PIPELINE, "app-status-publisher", DEVELOP, "");
  }

  lemma RolesUnmarked(t: Target)
    requires NoQuestionMarks([t.names.toolchainCandidateRole, t.names.proverCandidateRole])
    requires NoQuestionMarks([t.names.toolchainPointerRole, t.names.proverPointerRole])
    requires NoQuestionMarks([t.foundation.plan, t.foundation.apply, t.foundation.smoke])
    requires NoQuestionMarks([t.app.plan, t.app.apply, t.app.smoke])
    requires NoQuestionMarks([t.staticDeployRole, t.statusPublisherRole])
    ensures NoQuestionMarks(RoleNames(t))
  {
    var n, f, a := t.names, t.foundation, t.app;
    assert RoleNames(t) == [n.toolchainCandidateRole, n.proverCandidateRole]
                           + [n.toolchainPointerRole, n.proverPointerRole]
                           + [f.plan, f.apply, f.smoke] + [a.plan, a.apply, a.smoke]
                           + [t.staticDeployRole, t.statusPublisherRole];
  }

  /** The development target satisfies what the results about accepted audits ask of a target. */
  lemma DevelopNamesApart()
    ensures NamesApart(DevelopTarget())
  {
    var t := DevelopTarget();
    DevelopPrefixes(t);
    DevelopOthers(t.names);
    DevelopPlain(t);
    PartsUnmarked();
    LaneUnmarked(t.foundation, "-foundation");
    LaneUnmarked(t.app, "-app");
    PublishersUnmarked(t);
    RolesUnmarked(t);
  }

  lemma PlainJoined(a: string, b: string, c: string)
    requires Plain(a) && Plain(b) && Plain(c)
    ensures Plain(a + b + c)
  {}

  lemma PlainParts()
    ensures Plain(PIPELINE) && Plain(DEVELOP) && Plain("toolchain-pointer")
    ensures Plain("stark-ballot-simulator") && Plain("-release-manifests")
  {}

  lemma PlainArnParts()
    ensures Plain("arn:") && Plain(":s3:::") && Plain(":iam::") && Plain(":role/") && Plain("aws")
    ensures Plain("000000000000")
  {}

  /** Nor does any name have a wildcard, so that the star put on its toolchain pointer gets through. */
  lemma DevelopNamesPlain()
    ensures PlainNames(DevelopTarget())
  {
    var t := DevelopTarget();
    PlainParts();
    PlainArnParts();
    PlainJoined("stark-ballot-simulator", DEVELOP, "-release-manifests");
    PlainJoined(PIPELINE, "toolchain-pointer", DEVELOP);
  }
}
