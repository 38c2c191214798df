/**
 Whole runs of requests against a bucket whose policy the audit accepted.
 Conditional headers follow sections 13.1.1 and 13.1.2 of RFC 9110.
 */
module BucketRuns {
  import opened BucketPolicy
  import opened BucketRequests

  /** One stored version of an object. */
  datatype Version = Version(id: nat, etag: string, body: string)

  type Store = map<string, Version>

  /** Does a list of entity tags in a header name this tag?  `*` is not a list. */
  datatype Tags = Tags(listed: (string, string) -> bool)

  /** `If-Match`: `*` wants any current version, a list wants the tag of the current one. */
  predicate IfMatchHolds(tags: Tags, header: string, current: Option<Version>) {
    current.Some? && (header == "*" || tags.listed(header, current.value.etag))
  }

  /** `If-None-Match`: `*` wants no current version, a list wants another tag. */
  predicate IfNoneMatchHolds(tags: Tags, header: string, current: Option<Version>) {
    current.None? || (header != "*" && !tags.listed(header, current.value.etag))
  }

  function Current(store: Store, resource: string): Option<Version> {
    if resource in store then Some(store[resource]) else None
  }

  predicate PreconditionsHold(tags: Tags, req: Request, store: Store) {
    (req.ifMatch.Some? ==> IfMatchHolds(tags, req.ifMatch.value, Current(store, req.resource)))
    && (req.ifNoneMatch.Some? ==> IfNoneMatchHolds(tags, req.ifNoneMatch.value, Current(store, req.resource)))
  }

  /** Every object but the given one is as before. */
  ghost predicate OthersKept(before: Store, after: Store, resource: string) {
    forall r :: r != resource ==> Current(after, r) == Current(before, r)
  }

  /**
   What a request that reaches the bucket may do: nothing, or its effect.  A put
   takes effect only when its conditional headers hold; deleting a version may
   uncover any earlier one.
   */
  ghost predicate Effect(tags: Tags, req: Request, before: Store, after: Store) {
    || after == before
    || (req.action == PutObject && PreconditionsHold(tags, req, before)
        && req.resource in after && OthersKept(before, after, req.resource))
    || (IsDelete(req) && OthersKept(before, after, req.resource))
  }

  datatype Setting = Setting(reading: Reading, tags: Tags, statements: seq<Statement>)

  /** A run: `stores[i + 1]` results from `requests[i]`, which has no effect when it is denied. */
  ghost predicate Run(w: Setting, requests: seq<Request>, stores: seq<Store>) {
    && |stores| == |requests| + 1
    && forall i :: 0 <= i < |requests| ==> Step(w, requests[i], stores[i], stores[i + 1])
  }

  ghost predicate Step(w: Setting, req: Request, before: Store, after: Store) {
    if Denied(w.reading, w.statements, req) then after == before else Effect(w.tags, req, before, after)
  }

  /** Patterns of `inner` only match objects that patterns of `outer` match. */
  ghost predicate InsidePatterns(inner: seq<string>, outer: seq<string>) {
    forall resource :: Within(inner, resource) ==> Within(outer, resource)
  }

  /** The specification protects what it calls immutable and what it calls a pointer from deletion. */
  ghost predicate ProtectsItself(spec: Specification) {
    InsidePatterns(spec.immutable, spec.protected) && InsidePatterns(spec.pointers, spec.protected)
  }

  /** What the statements deny, for every request: the meaning of an accepted policy for a run. */
  ghost predicate Guards(w: Setting, spec: Specification) {
    forall req :: !Denied(w.reading, w.statements, req) ==> Guarded(spec, req)
  }

  predicate Guarded(spec: Specification, req: Request) {
    && (IsDelete(req) ==> !Within(spec.protected, req.resource))
    && (req.action == PutObject && Within(spec.immutable, req.resource) ==> req.ifNoneMatch == Some("*"))
    && (req.action == PutObject && Within(spec.pointers, req.resource) ==>
          (req.ifMatch.Some? || req.ifNoneMatch == Some("*")) && (req.ifMatch.None? || req.ifNoneMatch.None?))
  }

  lemma AcceptedGuards(w: Setting, spec: Specification)
    requires RequireDeletionDeny(w.statements, spec).Accepted?
    requires RequireImmutableCreateOnlyDeny(w.statements, spec).Accepted?
    requires RequirePointerDenies(w.statements, spec).Accepted?
    ensures Guards(w, spec)
  {
    forall req | !Denied(w.reading, w.statements, req) ensures Guarded(spec, req) {
      GuardedRequest(w, spec, req);
    }
  }

  lemma GuardedRequest(w: Setting, spec: Specification, req: Request)
    requires RequireDeletionDeny(w.statements, spec).Accepted?
    requires RequireImmutableCreateOnlyDeny(w.statements, spec).Accepted?
    requires RequirePointerDenies(w.statements, spec).Accepted?
    requires !Denied(w.reading, w.statements, req)
    ensures Guarded(spec, req)
  {
    if IsDelete(req) && Within(spec.protected, req.resource) {
      DeletesDenied(w.reading, w.statements, spec, req);
    }
    if req.action == PutObject && Within(spec.immutable, req.resource) {
      ImmutablePutsCreate(w.reading, w.statements, spec, req);
    }
    if req.action == PutObject && Within(spec.pointers, req.resource) {
      PointerPutsAreGuarded(w.reading, w.statements, spec, req);
    }
  }

  /** One request leaves an existing immutable object alone. */
  lemma ImmutableStep(w: Setting, spec: Specification, req: Request, before: Store, after: Store, resource: string)
    requires Guards(w, spec) && ProtectsItself(spec) && Step(w, req, before, after)
    requires Within(spec.immutable, resource) && resource in before
    ensures Current(after, resource) == Current(before, resource)
  {
    assert !Denied(w.reading, w.statements, req) ==> Guarded(spec, req);
    assert Within(spec.protected, resource);
  }

  lemma {:induction false} ImmutableRun(w: Setting, spec: Specification, requests: seq<Request>, stores: seq<Store>,
                                        resource: string, i: nat, j: nat)
    requires Guards(w, spec) && ProtectsItself(spec) && Run(w, requests, stores) && i <= j < |stores|
    requires Within(spec.immutable, resource) && resource in stores[i]
    ensures Current(stores[j], resource) == Current(stores[i], resource)
    decreases j
  {
    if i < j {
      ImmutableRun(w, spec, requests, stores, resource, i, j - 1);
      assert Step(w, requests[j - 1], stores[j - 1], stores[j - 1 + 1]);
      ImmutableStep(w, spec, requests[j - 1], stores[j - 1], stores[j], resource);
    }
  }

  /**
   In every run under an accepted policy, an object under an immutable prefix
   never changes or disappears once it exists.
   */
  lemma ImmutableForever(w: Setting, spec: Specification, requests: seq<Request>, stores: seq<Store>,
                         resource: string, i: nat, j: nat)
    requires RequireStatements(w.statements, spec).Accepted? && ProtectsItself(spec)
    requires Run(w, requests, stores) && i <= j < |stores|
    requires Within(spec.immutable, resource) && resource in stores[i]
    ensures resource in stores[j] && stores[j][resource] == stores[i][resource]
  {
    AcceptedGuards(w, spec);
    ImmutableRun(w, spec, requests, stores, resource, i, j);
  }

  /** The request replaced the current version of the object by another one. */
  predicate Replaces(before: Store, after: Store, resource: string) {
    resource in before && resource in after && after[resource] != before[resource]
  }

  /** A pointer stays, and is created and replaced only as `PointerRuns` says. */
  ghost predicate PointerKept(tags: Tags, req: Request, before: Store, after: Store, resource: string) {
    && (resource in before ==> resource in after)
    && (resource !in before && resource in after ==>
          req.action == PutObject && req.resource == resource && req.ifNoneMatch == Some("*") && req.ifMatch.None?)
    && (Replaces(before, after, resource) ==>
          && req.action == PutObject && req.resource == resource
          && req.ifMatch.Some? && req.ifNoneMatch.None?
          && (tags.listed(req.ifMatch.value, before[resource].etag) <==> req.ifMatch != Some("*")))
  }

  lemma PointerStep(w: Setting, spec: Specification, req: Request, before: Store, after: Store, resource: string)
    requires Guards(w, spec) && ProtectsItself(spec) && Step(w, req, before, after)
    requires Within(spec.pointers, resource)
    requires forall etag :: !w.tags.listed("*", etag)
    ensures PointerKept(w.tags, req, before, after, resource)
  {
    assert !Denied(w.reading, w.statements, req) ==> Guarded(spec, req);
    assert Within(spec.protected, resource);
    assert req.resource != resource ==> Current(after, resource) == Current(before, resource);
  }

  /**
   In every run under an accepted policy, a pointer never disappears, it is
   created only by a put that says `If-None-Match: *`, and it is replaced only by
   a put that says `If-Match` and no `If-None-Match`.  That put names the tag of
   the version it replaces exactly when its `If-Match` is not `*`.
   */
  lemma PointerRuns(w: Setting, spec: Specification, requests: seq<Request>, stores: seq<Store>, i: nat,
                    resource: string)
    requires RequireStatements(w.statements, spec).Accepted? && ProtectsItself(spec)
    requires Run(w, requests, stores) && i < |requests| && Within(spec.pointers, resource)
    requires forall etag :: !w.tags.listed("*", etag)
    ensures PointerKept(w.tags, requests[i], stores[i], stores[i + 1], resource)
  {
    AcceptedGuards(w, spec);
    PointerStep(w, spec, requests[i], stores[i], stores[i + 1], resource);
  }

  /**
   `If-Match: *` passes the conditions of both pointer denies, and a put that says so and
   that nothing else denies replaces whatever version there is, without naming it.
   */
  lemma StarReplacesUnnamed(w: Setting, resource: string, principal: Option<string>, before: Store, version: Version)
    requires resource in before && version != before[resource] && !w.tags.listed("*", before[resource].etag)
    requires !Denied(w.reading, w.statements, Request(PutObject, resource, None, Some("*"), principal, map[]))
    ensures var req := Request(PutObject, resource, None, Some("*"), principal, map[]);
      var after := before[resource := version];
      && !ConditionHolds(w.reading, POINTER_CONDITION, req) && !ConditionHolds(w.reading, AMBIGUOUS_CONDITION, req)
      && Step(w, req, before, after) && Replaces(before, after, resource)
      && !w.tags.listed(req.ifMatch.value, before[resource].etag)
  {
    RequiredConditions(w.reading, Request(PutObject, resource, None, Some("*"), principal, map[]));
  }
}
