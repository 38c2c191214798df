/**
 Normalizing a Step Functions event into a state update.  The event's payload is
 copied, changed in place by each step, and finally projected onto the fields that an
 update of its status may carry.

 Texts are opaque, except for the four status words, the empty text, a few error codes,
 and for whether they can serve as an identifier; what instant a text names and what the
 store of proof bundles answers are parameters.
 */
module FinalizationEvents {

  datatype Option<+T> = None | Some(value: T)

  datatype EventStatus = RUNNING | SUCCEEDED | FAILED | TIMED_OUT

  datatype Field =
    | SessionId | FinalizationId | StatusField | QueuedAtMs | StepFunctionsArn
    | StartedAtMs | CompletedAtMs | FailedAtMs | TimeoutAtMs | ErrorField | BundleMetadata | FinalizationResult
    | StartedAtIso | CompletedAtIso | FailedAtIso | TimeoutAtIso | ExecutionArn | Payload | ProverResult
    | ExecutionStoppedAt | StoppedAt | BundleS3Key | S3BundleKey | S3UploadedAtMs
    | Code | ErrorName | Message | Category
    | OtherField(name: nat)

  datatype Text = Word(status: EventStatus) | Identifier(token: nat) | OtherText(token: nat)

  const EMPTY_TEXT := OtherText(0)
  const BUNDLE_KEY_MISSING := OtherText(1)
  const BUNDLE_RESTORE_FAILED := OtherText(2)
  const PROVER_TASK_FAILED := OtherText(3)

  /** A JSON value; a number is a real, and arrays count as objects. */
  datatype Json = Null | Truth(b: bool) | Number(x: real) | TextValue(t: Text) | Object(fields: map<Field, Json>)

  type Record = map<Field, Json>

  function Lookup(r: Record, f: Field): Option<Json> {
    if f in r then Some(r[f]) else None
  }

  function GetNumber(r: Record, f: Field): Option<real> {
    match Lookup(r, f) case Some(Number(x)) => Some(x) case _ => None
  }

  function GetText(r: Record, f: Field): Option<Text> {
    match Lookup(r, f) case Some(TextValue(t)) => Some(t) case _ => None
  }

  function GetObject(r: Record, f: Field): Option<Record> {
    match Lookup(r, f) case Some(Object(fields)) => Some(fields) case _ => None
  }

  function OrElse<T>(a: Option<T>, b: Option<T>): Option<T> {
    if a.Some? then a else b
  }

  /** A text that counts as true: any but the empty one. */
  function NonEmpty(t: Option<Text>): Option<Text> {
    if t == Some(EMPTY_TEXT) then None else t
  }

  /** Numbers below 10^10 are taken for seconds, others for milliseconds. */
  function EpochMillis(x: real): int {
    if x < 10_000_000_000.0 then (x * 1000.0).Floor else x.Floor
  }

  function MillisOfText(t: Option<Text>, dates: map<Text, int>): Option<real> {
    if t.Some? && t.value in dates then Some(dates[t.value] as real) else None
  }

  function MillisOf(r: Record, f: Field, dates: map<Text, int>): Option<real> {
    match GetNumber(r, f)
    case Some(x) => Some(EpochMillis(x) as real)
    case None => MillisOfText(GetText(r, f), dates)
  }

  /** The fields that an update of each status may carry besides the common ones. */
  function OwnFields(status: EventStatus): set<Field> {
    match status
    case RUNNING => {StartedAtMs}
    case SUCCEEDED => {StartedAtMs, CompletedAtMs, BundleMetadata, FinalizationResult}
    case FAILED => {StartedAtMs, FailedAtMs, ErrorField}
    case TIMED_OUT => {StartedAtMs, TimeoutAtMs}
  }

  const COMMON := {SessionId, FinalizationId, StatusField, QueuedAtMs, StepFunctionsArn}

  function Restrict(r: Record, keys: set<Field>): Record {
    map f | f in r && f in keys :: r[f]
  }

  function Project(r: Record): Record {
    match GetText(r, StatusField)
    case Some(Word(status)) => Restrict(r, COMMON + OwnFields(status))
    case _ => Restrict(r, COMMON)
  }

  lemma ProjectKeeps(r: Record, status: EventStatus)
    requires GetText(r, StatusField) == Some(Word(status))
    ensures Project(r).Keys <= COMMON + OwnFields(status)
    ensures forall f :: f in COMMON + OwnFields(status) ==> Lookup(Project(r), f) == Lookup(r, f)
    ensures GetText(Project(r), StatusField) == Some(Word(status))
  {
  }

  /** The event bears a payload and one of the four statuses. */
  predicate IsDirect(raw: Record) {
    GetObject(raw, Payload).Some? && GetText(raw, StatusField).Some? && GetText(raw, StatusField).value.Word?
  }

  function StatusOf(raw: Record): EventStatus
    requires IsDirect(raw)
  {
    GetText(raw, StatusField).value.status
  }

  function PayloadOf(raw: Record): Record
    requires IsDirect(raw)
  {
    GetObject(raw, Payload).value
  }

  /** When the event says the execution ended: its own field, its ISO text, or what was there already. */
  function TerminalTime(raw: Record, present: Option<Json>, field: Field, iso: Field, dates: map<Text, int>)
    : Option<Json>
  {
    match OrElse(GetNumber(raw, field), MillisOfText(GetText(raw, iso), dates))
    case Some(x) => Some(Number(x))
    case None => present
  }

  /** The prover's own result, wherever it is reported. */
  function ProverTime(raw: Record, payload: Record, f: Field, dates: map<Text, int>): Option<real> {
    var result := if ProverResult in raw && raw[ProverResult] != Null then Lookup(raw, ProverResult)
                  else Lookup(payload, ProverResult);
    match result
    case Some(Object(fields)) => MillisOf(fields, f, dates)
    case _ => None
  }

  /** When the event says the execution completed: four sources in turn. */
  function CompletionTime(raw: Record, payload: Record, dates: map<Text, int>): Option<real> {
    OrElse(GetNumber(raw, CompletedAtMs),
    OrElse(MillisOfText(GetText(raw, CompletedAtIso), dates),
    OrElse(ProverTime(raw, payload, ExecutionStoppedAt, dates), ProverTime(raw, payload, StoppedAt, dates))))
  }

  /** The completion time that a success carries on: that of the event, or what was there already. */
  function SuccessTime(raw: Record, payload: Record, dates: map<Text, int>): Option<Json> {
    match CompletionTime(raw, payload, dates)
    case Some(x) => Some(Number(x))
    case None => Lookup(payload, CompletedAtMs)
  }

  /** The time of a failure that a success turns into: its completion, or a failure time that was there already. */
  function FailureTime(payload: Record, completedAt: Option<Json>): Option<Json> {
    match completedAt
    case Some(Number(_)) => completedAt
    case _ => Lookup(payload, FailedAtMs)
  }

  /** An event carried on, or an error; a transient one asks for the event to be delivered again. */
  datatype Normalized = Update(fields: Record) | Threw(transient: bool)

  /** What an attempt to fetch a proof bundle comes to: its result, a definitive failure, or a transient one. */
  datatype Restoration = Restored(result: Json) | Broken | Unavailable

  /** The bundle key of every session and finalization whose names are safe, and what fetching from a key comes to. */
  datatype Bundles = Bundles(keys: map<(Text, Text), Text>, held: map<Text, Restoration>)

  /** What a success without a result of its own finds. */
  datatype Bundle = KeyRefused | NoKey | NoTime(key: Text) | Fetched(key: Text, restoration: Restoration)

  /** The key that the payload names, its own or the metadata's. */
  function NamedKey(payload: Record): Option<Text> {
    OrElse(NonEmpty(GetText(payload, BundleS3Key)),
           match GetObject(payload, BundleMetadata)
           case Some(m) => NonEmpty(GetText(m, S3BundleKey))
           case None => None)
  }

  /** A named key has to be the one of its session and finalization; without a completion time nothing is fetched. */
  function BundleOf(payload: Record, completedAt: Option<Json>, bundles: Bundles): Bundle {
    var session, id := NonEmpty(GetText(payload, SessionId)), NonEmpty(GetText(payload, FinalizationId));
    if session.None? || id.None? then NoKey
    else if (session.value, id.value) !in bundles.keys then KeyRefused
    else
      match NamedKey(payload)
      case None => NoKey
      case Some(key) =>
        if key != bundles.keys[(session.value, id.value)] then KeyRefused
        else if !IsTime(completedAt) then NoTime(key)
        else Fetched(key, if key in bundles.held then bundles.held[key] else Broken)
  }

  predicate IsTime(t: Option<Json>) {
    t.Some? && t.value.Number?
  }

  /** The code of a reported error. */
  function CodeOf(reported: Record): Option<Text> {
    NonEmpty(OrElse(GetText(reported, Code), GetText(reported, ErrorName)))
  }

  /** An error of this code and a message, possibly with a category for a failed prover, and with nothing else. */
  predicate IsErrorOf(error: Json, code: Text) {
    && error.Object? && {Code, Message} <= error.fields.Keys <= {Code, Message, Category}
    && error.fields[Code] == TextValue(code) && (Category in error.fields ==> code == PROVER_TASK_FAILED)
  }

  /** The event reports a failed prover task; looking for what the task left can throw. */
  predicate ReportsProver(raw: Record) {
    match GetObject(raw, ErrorField)
    case Some(error) => CodeOf(error) == Some(PROVER_TASK_FAILED)
    case None => false
  }

  /** Where the event reports an error, its code is all that is kept; without a code nothing is. */
  ghost predicate ErrorSays(raw: Record, error: Option<Json>) {
    GetObject(raw, ErrorField).Some? ==>
      match CodeOf(GetObject(raw, ErrorField).value)
      case Some(code) => error.Some? && IsErrorOf(error.value, code)
      case None => error.None?
  }

  /** The identity and queue time of the payload, under this status. */
  ghost predicate KeepsIdentity(u: Record, raw: Record, status: EventStatus)
    requires IsDirect(raw)
  {
    && Lookup(u, StatusField) == Some(TextValue(Word(status)))
    && Lookup(u, SessionId) == Lookup(PayloadOf(raw), SessionId)
    && Lookup(u, FinalizationId) == Lookup(PayloadOf(raw), FinalizationId)
    && Lookup(u, QueuedAtMs) == Lookup(PayloadOf(raw), QueuedAtMs)
  }

  /** An update of this status, with nothing but its fields. */
  ghost predicate IsUpdateOf(u: Record, raw: Record, status: EventStatus)
    requires IsDirect(raw)
  {
    KeepsIdentity(u, raw, status) && u.Keys <= COMMON + OwnFields(status)
  }

  lemma ProjectionIsUpdate(r: Record, raw: Record, status: EventStatus)
    requires IsDirect(raw) && KeepsIdentity(r, raw, status)
    ensures IsUpdateOf(Project(r), raw, status)
    ensures forall f :: f in OwnFields(status) ==> Lookup(Project(r), f) == Lookup(r, f)
  {
    ProjectKeeps(r, status);
  }

  function FailureOf(r: Record, completedAt: Option<real>, error: Json): Record {
    var failed := r[StatusField := TextValue(Word(FAILED))][ErrorField := error];
    if completedAt.Some? then failed[FailedAtMs := Number(completedAt.value)] else failed
  }

  lemma FailureKeepsIdentity(r: Record, completedAt: Option<real>, error: Json, raw: Record)
    requires IsDirect(raw) && KeepsIdentity(r, raw, SUCCEEDED)
    ensures var u := Project(FailureOf(r, completedAt, error));
      && IsUpdateOf(u, raw, FAILED) && Lookup(u, ErrorField) == Some(error)
      && Lookup(u, FailedAtMs) == if completedAt.Some? then Some(Number(completedAt.value)) else Lookup(r, FailedAtMs)
  {
    ProjectionIsUpdate(FailureOf(r, completedAt, error), raw, FAILED);
  }

  /** The payload of a success whose bundle was restored. */
  function SuccessOf(r: Record, completedAt: real, result: Json, key: Text, uploaded: Json): Record {
    var metadata := match GetObject(r, BundleMetadata) case Some(m) => m case None => map[];
    r[CompletedAtMs := Number(completedAt)][FinalizationResult := result]
      [BundleMetadata := Object(metadata[S3BundleKey := TextValue(key)][S3UploadedAtMs := uploaded])]
  }

  lemma SuccessKeepsIdentity(r: Record, completedAt: real, result: Json, key: Text, uploaded: Json, raw: Record)
    requires IsDirect(raw) && KeepsIdentity(r, raw, SUCCEEDED)
    ensures var u := Project(SuccessOf(r, completedAt, result, key, uploaded));
      && IsUpdateOf(u, raw, SUCCEEDED) && Lookup(u, CompletedAtMs) == Some(Number(completedAt))
      && Lookup(u, FinalizationResult) == Some(result) && GetObject(u, BundleMetadata).Some?
      && GetText(GetObject(u, BundleMetadata).value, S3BundleKey) == Some(key)
      && Lookup(GetObject(u, BundleMetadata).value, S3UploadedAtMs) == Some(uploaded)
  {
    ProjectionIsUpdate(SuccessOf(r, completedAt, result, key, uploaded), raw, SUCCEEDED);
  }

  /** The payload under normalization, changed in place. */
  class DirectPayload {
    var fields: Record

    constructor (raw: Record)
      requires IsDirect(raw)
      ensures Lookup(fields, StatusField) == Some(TextValue(Word(StatusOf(raw))))
      ensures forall f :: f != StatusField ==> Lookup(fields, f) == Lookup(PayloadOf(raw), f)
    {
      fields := PayloadOf(raw)[StatusField := TextValue(Word(StatusOf(raw)))];
    }

    ghost predicate Follows(raw: Record, status: EventStatus)
      requires IsDirect(raw)
      reads this
    {
      KeepsIdentity(fields, raw, status)
    }

    method ApplyExecutionArn(raw: Record)
      modifies this
      ensures forall f :: f != StepFunctionsArn ==> Lookup(fields, f) == Lookup(old(fields), f)
      ensures Lookup(fields, StepFunctionsArn) ==
        if GetText(raw, ExecutionArn).Some? then Lookup(raw, ExecutionArn) else Lookup(old(fields), StepFunctionsArn)
    {
      if GetText(raw, ExecutionArn).Some? {
        fields := fields[StepFunctionsArn := raw[ExecutionArn]];
      }
    }

    method ApplyDirectStartedAt(raw: Record) returns (startedAt: Option<real>)
      modifies this
      ensures startedAt == OrElse(GetNumber(raw, StartedAtMs), GetNumber(old(fields), StartedAtMs))
      ensures forall f :: f != StartedAtMs ==> Lookup(fields, f) == Lookup(old(fields), f)
      ensures Lookup(fields, StartedAtMs) ==
        if startedAt.Some? then Some(Number(startedAt.value)) else Lookup(old(fields), StartedAtMs)
    {
      startedAt := OrElse(GetNumber(raw, StartedAtMs), GetNumber(fields, StartedAtMs));
      if startedAt.Some? {
        fields := fields[StartedAtMs := Number(startedAt.value)];
      }
    }

    method DropError()
      modifies this
      ensures ErrorField !in fields
      ensures forall f :: f != ErrorField ==> Lookup(fields, f) == Lookup(old(fields), f)
    {
      fields := fields - {ErrorField};
    }

    method ApplyTerminalTimestamp(raw: Record, field: Field, iso: Field, dates: map<Text, int>)
      modifies this
      ensures Lookup(fields, field) == TerminalTime(raw, Lookup(old(fields), field), field, iso, dates)
      ensures forall f :: f != field ==> Lookup(fields, f) == Lookup(old(fields), f)
    {
      var timestamp := OrElse(GetNumber(raw, field), MillisOfText(GetText(raw, iso), dates));
      if timestamp.Some? {
        fields := fields[field := Number(timestamp.value)];
      }
    }

    /** Only the failure's code survives, with a category where the prover task left one. */
    method NormalizeFailedEventError(raw: Record) returns (threw: bool)
      modifies this
      ensures forall f :: f != ErrorField ==> Lookup(fields, f) == Lookup(old(fields), f)
      ensures !threw ==> ErrorSays(raw, Lookup(fields, ErrorField))
      ensures GetObject(raw, ErrorField).None? ==> fields == old(fields)
      ensures threw ==> ReportsProver(raw)
    {
      threw := false;
      if GetObject(raw, ErrorField).Some? {
        var error := GetObject(raw, ErrorField).value;
        var code := CodeOf(error);
        if code.Some? {
          var message: Json, category: Option<Json> := *, None;
          if code.value == PROVER_TASK_FAILED
             && NonEmpty(GetText(fields, SessionId)).Some? && NonEmpty(GetText(fields, FinalizationId)).Some? {
            threw, category := *, *;
            if threw {
              return;
            }
          }
          var kept := map[Code := TextValue(code.value), Message := message];
          fields := fields[ErrorField := Object(if category.Some? then kept[Category := category.value] else kept)];
        } else {
          fields := fields - {ErrorField};
        }
      }
    }

    /** Without a bundle key or with a broken bundle a success fails; where it cannot be had now, this throws. */
    method RestoreSucceededEventBundle(raw: Record, dates: map<Text, int>, bundles: Bundles) returns (r: Normalized)
      requires IsDirect(raw) && Follows(raw, SUCCEEDED)
      ensures IsOutcomeOf(r, BundleOf(fields, Lookup(fields, CompletedAtMs), bundles),
                          raw, fields, Lookup(fields, CompletedAtMs), dates)
    {
      var completedAt := GetNumber(fields, CompletedAtMs);
      var message: Json := *;
      match BundleOf(fields, Lookup(fields, CompletedAtMs), bundles) {
        case KeyRefused => r := Threw(false);
        case NoKey =>
          var error := Object(map[Code := TextValue(BUNDLE_KEY_MISSING), Message := message]);
          FailureKeepsIdentity(fields, completedAt, error, raw);
          r := Update(Project(FailureOf(fields, completedAt, error)));
        case NoTime(_) =>
          ProjectionIsUpdate(fields, raw, SUCCEEDED);
          r := Update(Project(fields));
        case Fetched(_, Unavailable) => r := Threw(true);
        case Fetched(_, Broken) =>
          var error := Object(map[Code := TextValue(BUNDLE_RESTORE_FAILED), Message := message]);
          FailureKeepsIdentity(fields, completedAt, error, raw);
          r := Update(Project(FailureOf(fields, completedAt, error)));
        case Fetched(key, Restored(result)) =>
          var uploaded := Number(OrElse(MillisOf(fields, S3UploadedAtMs, dates), completedAt).value);
          SuccessKeepsIdentity(fields, completedAt.value, result, key, uploaded, raw);
          r := Update(Project(SuccessOf(fields, completedAt.value, result, key, uploaded)));
      }
    }

    /** A success carries on the event's completion time, or turns into a failure at that time. */
    method NormalizeSucceededEvent(raw: Record, dates: map<Text, int>, bundles: Bundles) returns (r: Normalized)
      requires IsDirect(raw) && Follows(raw, SUCCEEDED)
      modifies this
      ensures IsNormalizedSuccess(r, raw, old(fields), dates, bundles)
    {
      ghost var payload := fields;
      var completedAt := CompletionTime(raw, fields, dates);
      if completedAt.Some? {
        fields := fields[CompletedAtMs := Number(completedAt.value)];
      }
      if GetObject(fields, FinalizationResult).None? {
        SameOutcome(fields, payload, SuccessTime(raw, payload, dates), raw, dates, bundles);
        r := RestoreSucceededEventBundle(raw, dates, bundles);
      } else {
        ProjectionIsUpdate(fields, raw, SUCCEEDED);
        r := Update(Project(fields));
      }
    }
  }

  /** The failure with this code that a success turns into, at the time of its completion. */
  ghost predicate IsFailureOf(u: Record, code: Text, raw: Record, payload: Record, completedAt: Option<Json>)
    requires IsDirect(raw)
  {
    && IsUpdateOf(u, raw, FAILED) && ErrorField in u && IsErrorOf(u[ErrorField], code)
    && Lookup(u, FailedAtMs) == FailureTime(payload, completedAt)
  }

  /** The success restored from this bundle. */
  ghost predicate IsRestored(u: Record, key: Text, result: Json, raw: Record, payload: Record,
                             completedAt: Option<Json>, dates: map<Text, int>)
    requires IsDirect(raw) && IsTime(completedAt)
  {
    && IsUpdateOf(u, raw, SUCCEEDED) && Lookup(u, CompletedAtMs) == completedAt
    && Lookup(u, FinalizationResult) == Some(result) && GetObject(u, BundleMetadata).Some?
    && GetText(GetObject(u, BundleMetadata).value, S3BundleKey) == Some(key)
    && GetNumber(GetObject(u, BundleMetadata).value, S3UploadedAtMs)
       == OrElse(MillisOf(payload, S3UploadedAtMs, dates), Some(completedAt.value.x))
  }

  /** What becomes of a success without a result, by what was found of its bundle. */
  ghost predicate IsOutcomeOf(r: Normalized, bundle: Bundle, raw: Record, payload: Record,
                              completedAt: Option<Json>, dates: map<Text, int>)
    requires IsDirect(raw)
  {
    match bundle
    case KeyRefused => r == Threw(false)
    case NoKey => r.Update? && IsFailureOf(r.fields, BUNDLE_KEY_MISSING, raw, payload, completedAt)
    case NoTime(_) =>
      r.Update? && IsUpdateOf(r.fields, raw, SUCCEEDED) && Lookup(r.fields, CompletedAtMs) == completedAt
      && !IsTime(completedAt)
    case Fetched(_, Unavailable) => r == Threw(true)
    case Fetched(_, Broken) => r.Update? && IsFailureOf(r.fields, BUNDLE_RESTORE_FAILED, raw, payload, completedAt)
    case Fetched(key, Restored(result)) =>
      r.Update? && IsTime(completedAt) && IsRestored(r.fields, key, result, raw, payload, completedAt, dates)
  }

  /** A success with a result is carried on at its completion time; without one its bundle decides. */
  ghost predicate IsNormalizedSuccess(r: Normalized, raw: Record, payload: Record, dates: map<Text, int>,
                                      bundles: Bundles)
    requires IsDirect(raw)
  {
    var completedAt := SuccessTime(raw, payload, dates);
    if GetObject(payload, FinalizationResult).Some? then
      r.Update? && IsUpdateOf(r.fields, raw, SUCCEEDED) && Lookup(r.fields, CompletedAtMs) == completedAt
      && Lookup(r.fields, FinalizationResult) == Lookup(payload, FinalizationResult)
    else IsOutcomeOf(r, BundleOf(payload, completedAt, bundles), raw, payload, completedAt, dates)
  }

  /** What a bundle decides does not depend on the fields that the normalization sets. */
  lemma SameOutcome(a: Record, b: Record, completedAt: Option<Json>, raw: Record, dates: map<Text, int>,
                    bundles: Bundles)
    requires IsDirect(raw)
    requires forall f :: f in {SessionId, FinalizationId, BundleS3Key, BundleMetadata, FailedAtMs, S3UploadedAtMs} ==>
      Lookup(a, f) == Lookup(b, f)
    ensures BundleOf(a, completedAt, bundles) == BundleOf(b, completedAt, bundles)
    ensures forall r, bundle ::
      IsOutcomeOf(r, bundle, raw, a, completedAt, dates) ==> IsOutcomeOf(r, bundle, raw, b, completedAt, dates)
  {
    assert Lookup(a, FailedAtMs) == Lookup(b, FailedAtMs) && Lookup(a, S3UploadedAtMs) == Lookup(b, S3UploadedAtMs);
  }

  /** When the event says the execution started: its own field, the payload's, its ISO text, or what was there. */
  function StartTime(raw: Record, payload: Record, dates: map<Text, int>): Option<Json> {
    match OrElse(OrElse(GetNumber(raw, StartedAtMs), GetNumber(payload, StartedAtMs)),
                 MillisOfText(GetText(raw, StartedAtIso), dates))
    case Some(x) => Some(Number(x))
    case None => Lookup(payload, StartedAtMs)
  }

  ghost predicate IsNormalizedStart(r: Normalized, raw: Record, dates: map<Text, int>)
    requires IsDirect(raw)
  {
    r.Update? && IsUpdateOf(r.fields, raw, RUNNING)
    && Lookup(r.fields, StartedAtMs) == StartTime(raw, PayloadOf(raw), dates)
  }

  ghost predicate IsNormalizedTimeout(r: Normalized, raw: Record, dates: map<Text, int>)
    requires IsDirect(raw)
  {
    r.Update? && IsUpdateOf(r.fields, raw, TIMED_OUT)
    && Lookup(r.fields, TimeoutAtMs) == TerminalTime(raw, Lookup(PayloadOf(raw), TimeoutAtMs), TimeoutAtMs,
                                                     TimeoutAtIso, dates)
  }

  /** A failure keeps the code of its error and its time; only looking into a failed prover task can throw. */
  ghost predicate IsNormalizedFailure(r: Normalized, raw: Record, dates: map<Text, int>)
    requires IsDirect(raw)
  {
    match r
    case Threw(transient) => !transient && ReportsProver(raw)
    case Update(u) =>
      IsUpdateOf(u, raw, FAILED) && ErrorSays(raw, Lookup(u, ErrorField))
      && Lookup(u, FailedAtMs) == TerminalTime(raw, Lookup(PayloadOf(raw), FailedAtMs), FailedAtMs, FailedAtIso, dates)
  }

  method NormalizeRunningEvent(direct: DirectPayload, raw: Record, startedAt: Option<real>, dates: map<Text, int>)
    returns (r: Normalized)
    requires IsDirect(raw) && direct.Follows(raw, RUNNING)
    requires startedAt == OrElse(GetNumber(raw, StartedAtMs), GetNumber(PayloadOf(raw), StartedAtMs))
    requires startedAt.None? ==> Lookup(direct.fields, StartedAtMs) == Lookup(PayloadOf(raw), StartedAtMs)
    modifies direct
    ensures IsNormalizedStart(r, raw, dates)
  {
    var resolved := OrElse(startedAt, MillisOfText(GetText(raw, StartedAtIso), dates));
    if resolved.Some? {
      direct.fields := direct.fields[StartedAtMs := Number(resolved.value)];
    }
    ProjectionIsUpdate(direct.fields, raw, RUNNING);
    r := Update(Project(direct.fields));
  }

  method NormalizeTimedOutEvent(direct: DirectPayload, raw: Record, dates: map<Text, int>) returns (r: Normalized)
    requires IsDirect(raw) && direct.Follows(raw, TIMED_OUT)
    requires Lookup(direct.fields, TimeoutAtMs) == Lookup(PayloadOf(raw), TimeoutAtMs)
    modifies direct
    ensures IsNormalizedTimeout(r, raw, dates)
  {
    direct.DropError();
    direct.ApplyTerminalTimestamp(raw, TimeoutAtMs, TimeoutAtIso, dates);
    ProjectionIsUpdate(direct.fields, raw, TIMED_OUT);
    r := Update(Project(direct.fields));
  }

  method NormalizeFailedEvent(direct: DirectPayload, raw: Record, dates: map<Text, int>) returns (r: Normalized)
    requires IsDirect(raw) && direct.Follows(raw, FAILED)
    requires Lookup(direct.fields, FailedAtMs) == Lookup(PayloadOf(raw), FailedAtMs)
    modifies direct
    ensures IsNormalizedFailure(r, raw, dates)
  {
    var threw := direct.NormalizeFailedEventError(raw);
    if threw {
      return Threw(false);
    }
    direct.ApplyTerminalTimestamp(raw, FailedAtMs, FailedAtIso, dates);
    FailureIsNormalized(direct.fields, raw, dates);
    r := Update(Project(direct.fields));
  }

  lemma FailureIsNormalized(r: Record, raw: Record, dates: map<Text, int>)
    requires IsDirect(raw) && KeepsIdentity(r, raw, FAILED) && ErrorSays(raw, Lookup(r, ErrorField))
    requires Lookup(r, FailedAtMs)
      == TerminalTime(raw, Lookup(PayloadOf(raw), FailedAtMs), FailedAtMs, FailedAtIso, dates)
    ensures IsNormalizedFailure(Update(Project(r)), raw, dates)
  {
    ProjectionIsUpdate(r, raw, FAILED);
  }

  /** The copy of the payload with the event's own execution and start time. */
  method BeginDirect(raw: Record) returns (direct: DirectPayload, startedAt: Option<real>)
    requires IsDirect(raw)
    ensures fresh(direct) && direct.Follows(raw, StatusOf(raw))
    ensures startedAt == OrElse(GetNumber(raw, StartedAtMs), GetNumber(PayloadOf(raw), StartedAtMs))
    ensures forall f :: f != StatusField && f != StepFunctionsArn && f != StartedAtMs ==>
      Lookup(direct.fields, f) == Lookup(PayloadOf(raw), f)
    ensures startedAt.None? ==> Lookup(direct.fields, StartedAtMs) == Lookup(PayloadOf(raw), StartedAtMs)
  {
    direct := new DirectPayload(raw);
    direct.ApplyExecutionArn(raw);
    startedAt := direct.ApplyDirectStartedAt(raw);
  }

  /** What becomes of a direct event, by its status. */
  ghost predicate IsNormalized(r: Normalized, raw: Record, dates: map<Text, int>, bundles: Bundles)
    requires IsDirect(raw)
  {
    match StatusOf(raw)
    case RUNNING => IsNormalizedStart(r, raw, dates)
    case TIMED_OUT => IsNormalizedTimeout(r, raw, dates)
    case FAILED => IsNormalizedFailure(r, raw, dates)
    case SUCCEEDED => IsNormalizedSuccess(r, raw, PayloadOf(raw), dates, bundles)
  }

  /**
   A direct event becomes an update of its own status with nothing but that status's
   fields, or, for a success whose bundle is missing or broken, an update to failure, or
   it throws; it asks for redelivery exactly where a success needs a bundle that cannot
   be had now.  Events of any other form are passed on as they are.
   */
  method NormalizeDirectEvent(raw: Record, dates: map<Text, int>, bundles: Bundles) returns (r: Normalized)
    ensures !IsDirect(raw) ==> r == Update(raw)
    ensures IsDirect(raw) ==> IsNormalized(r, raw, dates, bundles)
    ensures r == Threw(true) <==> AwaitsBundle(raw, dates, bundles)
  {
    if !IsDirect(raw) {
      return Update(raw);
    }
    var direct, startedAt := BeginDirect(raw);
    match StatusOf(raw) {
      case RUNNING => r := NormalizeRunningEvent(direct, raw, startedAt, dates);
      case TIMED_OUT => r := NormalizeTimedOutEvent(direct, raw, dates);
      case FAILED => r := NormalizeFailedEvent(direct, raw, dates);
      case SUCCEEDED =>
        SameSuccess(raw, direct.fields, PayloadOf(raw), dates, bundles);
        r := direct.NormalizeSucceededEvent(raw, dates, bundles);
    }
    OnlyBundlesAreAwaited(r, raw, dates, bundles);
  }

  lemma OnlyBundlesAreAwaited(r: Normalized, raw: Record, dates: map<Text, int>, bundles: Bundles)
    requires IsDirect(raw) && IsNormalized(r, raw, dates, bundles)
    ensures r == Threw(true) <==> AwaitsBundle(raw, dates, bundles)
  {
  }

  /** A success without a result of its own needs this bundle. */
  function BundleFor(raw: Record, dates: map<Text, int>, bundles: Bundles): Option<Bundle>
    requires IsDirect(raw)
  {
    if StatusOf(raw) == SUCCEEDED && GetObject(PayloadOf(raw), FinalizationResult).None?
    then Some(BundleOf(PayloadOf(raw), SuccessTime(raw, PayloadOf(raw), dates), bundles))
    else None
  }

  predicate AwaitsBundle(raw: Record, dates: map<Text, int>, bundles: Bundles) {
    IsDirect(raw)
    && match BundleFor(raw, dates, bundles) case Some(Fetched(_, Unavailable)) => true case _ => false
  }

  /** What a success becomes does not depend on the fields that are set before. */
  lemma SameSuccess(raw: Record, a: Record, b: Record, dates: map<Text, int>, bundles: Bundles)
    requires IsDirect(raw)
    requires forall f :: f != StatusField && f != StepFunctionsArn && f != StartedAtMs ==> Lookup(a, f) == Lookup(b, f)
    ensures forall r :: IsNormalizedSuccess(r, raw, a, dates, bundles) ==>
              IsNormalizedSuccess(r, raw, b, dates, bundles)
  {
    assert Lookup(a, ProverResult) == Lookup(b, ProverResult) && Lookup(a, CompletedAtMs) == Lookup(b, CompletedAtMs);
    assert SuccessTime(raw, a, dates) == SuccessTime(raw, b, dates);
    assert Lookup(a, FinalizationResult) == Lookup(b, FinalizationResult);
    SameOutcome(a, b, SuccessTime(raw, a, dates), raw, dates, bundles);
  }
}
