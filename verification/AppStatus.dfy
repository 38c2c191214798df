/** The public deployment status: what is admitted, and how a checkpoint is projected onto it. */
module AppStatus {
  import opened Timestamps

  datatype Target = Target(key: nat, repositoryUrl: string)

  /** What a successful App checkpoint says; its acceptance time is whatever was stored. */
  datatype Checkpoint = Checkpoint(
    target: nat, execution: nat, sourceSha: string, acceptedAt: string, deploymentId: string,
    imageDigest: string, imageId: string, methodVersion: int, changed: bool)

  datatype Status = Status(
    deploymentId: string, shortSha: string, commitUrl: string, imageDigestPrefix: string, imageId: string,
    methodVersion: int, changed: bool, acceptedAt: string, updatedAt: string, staleAfter: string)

  const MAX_SAFE_INTEGER := 0x1F_FFFF_FFFF_FFFF

  predicate IsHex(s: string) {
    forall c :: c in s ==> '0' <= c <= '9' || 'a' <= c <= 'f'
  }

  /** A fixed prefix and then exactly so many lower-case hexadecimal digits. */
  predicate Tagged(s: string, prefix: string, digits: nat) {
    |s| == |prefix| + digits && s[..|prefix|] == prefix && IsHex(s[|prefix|..])
  }

  function CommitPrefix(target: Target): string {
    target.repositoryUrl + "/commit/"
  }

  predicate AdmitsSource(s: Status, target: Target) {
    var prefix := CommitPrefix(target);
    && Tagged(s.shortSha, "", 12)
    && prefix <= s.commitUrl && Tagged(s.commitUrl[|prefix|..], "", 40)
    && s.shortSha == s.commitUrl[|prefix|..][..12]
  }

  predicate AdmitsShape(s: Status, target: Target) {
    && Tagged(s.deploymentId, "dep_", 32) && AdmitsSource(s, target)
    && Tagged(s.imageDigestPrefix, "sha256:", 12) && Tagged(s.imageId, "0x", 64)
    && 1 <= s.methodVersion <= MAX_SAFE_INTEGER
  }

  predicate AdmitsTimes(s: Status) {
    && Canonical(s.acceptedAt) && s.updatedAt == s.acceptedAt
    && Canonical(s.staleAfter) && DeriveStaleAfter(s.acceptedAt) == Some(s.staleAfter)
  }

  predicate Admits(s: Status, target: Target) {
    AdmitsShape(s, target) && AdmitsTimes(s)
  }

  function Slice(s: string, n: nat): string {
    if |s| <= n then s else s[..n]
  }

  function StatusOf(c: Checkpoint, target: Target, staleAfter: string): Status {
    Status(c.deploymentId, Slice(c.sourceSha, 12), CommitPrefix(target) + c.sourceSha,
           Slice(c.imageDigest, 19), c.imageId, c.methodVersion, c.changed,
           c.acceptedAt, c.acceptedAt, staleAfter)
  }

  function Project(c: Checkpoint, target: Target): Option<Status> {
    if c.target != target.key || !Canonical(c.acceptedAt) then None
    else
      match DeriveStaleAfter(c.acceptedAt)
      case None => None
      case Some(staleAfter) =>
        var s := StatusOf(c, target, staleAfter);
        if Admits(s, target) then Some(s) else None
  }

  /** The commit link and the short digest of a source fit together exactly when the source is a full commit id. */
  lemma SourceIsCommit(sourceSha: string, s: Status, target: Target)
    requires s.shortSha == Slice(sourceSha, 12) && s.commitUrl == CommitPrefix(target) + sourceSha
    ensures AdmitsSource(s, target) <==> Tagged(sourceSha, "", 40)
  {
    var prefix := CommitPrefix(target);
    assert s.commitUrl[|prefix|..] == sourceSha;
    if Tagged(sourceSha, "", 40) {
      assert sourceSha[0..] == sourceSha && sourceSha[..12][0..] == sourceSha[..12];
      assert forall c :: c in sourceSha[..12] ==> c in sourceSha;
    }
  }

  predicate ShowableShape(c: Checkpoint) {
    && Tagged(c.sourceSha, "", 40) && Tagged(c.deploymentId, "dep_", 32)
    && Tagged(Slice(c.imageDigest, 19), "sha256:", 12) && Tagged(c.imageId, "0x", 64)
    && 1 <= c.methodVersion <= MAX_SAFE_INTEGER
  }

  lemma ShapeIsKept(c: Checkpoint, target: Target, staleAfter: string)
    ensures AdmitsShape(StatusOf(c, target, staleAfter), target) <==> ShowableShape(c)
  {
    SourceIsCommit(c.sourceSha, StatusOf(c, target, staleAfter), target);
  }

  lemma TimesAreKept(c: Checkpoint, target: Target)
    requires Canonical(c.acceptedAt) && DeriveStaleAfter(c.acceptedAt).Some?
    ensures AdmitsTimes(StatusOf(c, target, DeriveStaleAfter(c.acceptedAt).value))
  {
    StaleAfterThirtyDays(c.acceptedAt);
  }

  /** A checkpoint can be shown exactly if it is in shape, accepted at a canonical time, and expires before year
      10000. */
  lemma ProjectionSucceeds(c: Checkpoint, target: Target)
    ensures Project(c, target).Some? <==>
      && c.target == target.key && Canonical(c.acceptedAt) && DeriveStaleAfter(c.acceptedAt).Some?
      && ShowableShape(c)
  {
    if c.target == target.key && Canonical(c.acceptedAt) && DeriveStaleAfter(c.acceptedAt).Some? {
      TimesAreKept(c, target);
      ShapeIsKept(c, target, DeriveStaleAfter(c.acceptedAt).value);
    }
  }

  /** A projection carries the checkpoint's acceptance time, and expires thirty days later. */
  lemma ProjectionTimes(c: Checkpoint, target: Target)
    requires Project(c, target).Some?
    ensures var s := Project(c, target).value;
      && Canonical(s.acceptedAt) && s.acceptedAt == c.acceptedAt && s.updatedAt == c.acceptedAt
      && Canonical(s.staleAfter) && TimeOf(s.staleAfter) == TimeOf(s.acceptedAt) + TTL
  {
    StaleAfterThirtyDays(c.acceptedAt);
  }
}
