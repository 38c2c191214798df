/**
 The verification worker on one batch of queue records.  Other workers, the
 finalization writer and new finalizations change the store between any two of its
 steps, and every call to the store or to the verifier can throw.
 */
module VerificationWorker {
  import opened Decimals

  datatype Option<+T> = None | Some(value: T)

  /** One piece of work: a session and one of its finalizations. */
  datatype Key = Key(session: nat, finalization: nat)

  datatype Status = Success | DevMode | Failed
  datatype Result = Running | Completed(status: Status)

  /**
   The current finalization of each session, the finalizations that succeeded, and the
   results.  `issued` are those that ever were current; no id is issued twice in a session.
   */
  datatype State = State(current: map<nat, nat>, succeeded: set<Key>, results: map<Key, Result>, issued: set<Key>)

  predicate Terminal(s: State, k: Key) {
    k in s.results && s.results[k].Completed?
  }

  predicate Superseded(s: State, k: Key) {
    k.session in s.current && s.current[k.session] != k.finalization
  }

  /** Nothing is left to do: the result is terminal, or the finalization has been replaced for good. */
  predicate Settled(s: State, k: Key) {
    Terminal(s, k) || (k in s.issued && Superseded(s, k))
  }

  ghost predicate ValidState(s: State) {
    && (forall session :: session in s.current ==> Key(session, s.current[session]) in s.issued)
    && (forall k :: k in s.issued ==> k.session in s.current)
    && s.succeeded <= s.issued
    && (forall k :: Terminal(s, k) ==> k in s.succeeded)
  }

  /** What no step of anyone undoes. */
  ghost predicate Keeps(s: State, t: State) {
    && ValidState(t) && s.issued <= t.issued
    && (forall k :: Settled(s, k) ==> Settled(t, k))
    && (forall k :: Terminal(s, k) ==> Terminal(t, k) && t.results[k] == s.results[k])
  }

  lemma KeepsIsTransitive(s: State, t: State, u: State)
    requires Keeps(s, t) && Keeps(t, u)
    ensures Keeps(s, u)
  {
  }

  datatype Step =
    | Replace(session: nat, id: nat)
    | Succeed(key: Key)
    | Complete(key: Key, status: Status)
    | MarkRunning(key: Key)
    | Rollback(key: Key)

  /** Results are written for a finalization that succeeded, current or not. */
  predicate Writable(s: State, k: Key) {
    k in s.succeeded
  }

  /** Terminal results are never overwritten, restarted or rolled back. */
  predicate Enabled(s: State, a: Step) {
    match a
    case Replace(session, id) => Key(session, id) !in s.issued
    case Succeed(key) => key in s.issued
    case Complete(key, _) => Writable(s, key) && !Terminal(s, key)
    case MarkRunning(key) => Writable(s, key) && !Terminal(s, key)
    case Rollback(key) => Writable(s, key) && !Terminal(s, key)
  }

  function Apply(s: State, a: Step): State
    requires Enabled(s, a)
  {
    match a
    case Replace(session, id) =>
      s.(current := s.current[session := id], issued := s.issued + {Key(session, id)})
    case Succeed(key) => s.(succeeded := s.succeeded + {key})
    case Complete(key, status) => s.(results := s.results[key := Completed(status)])
    case MarkRunning(key) => s.(results := s.results[key := Running])
    case Rollback(key) => s.(results := s.results - {key})
  }

  lemma StepKeeps(s: State, a: Step)
    requires ValidState(s) && Enabled(s, a)
    ensures Keeps(s, Apply(s, a))
  {
  }

  /** What is to be completed: a verdict, a refusal of the options, or the failure after the last delivery. */
  datatype Completion = Verdict(status: Status) | OptionsRefused | RetriesExhausted

  function StatusOf(c: Completion): Status {
    match c
    case Verdict(status) => status
    case _ => Failed
  }

  /** One call to complete a result, and whether it threw. */
  datatype Attempt = Attempt(key: Key, completion: Completion, threw: bool)

  /** The shared store, with the log of the completions that this worker attempted. */
  class Store {
    var state: State
    ghost var attempts: seq<Attempt>

    constructor ()
      ensures ValidState(state) && attempts == []
    {
      state, attempts := State(map[], {}, map[], {}), [];
    }

    /** Any steps of anyone else. */
    method Others()
      requires ValidState(state)
      modifies this`state
      ensures Keeps(old(state), state)
    {
      var n: int := *;
      var i := 0;
      while i < n
        invariant Keeps(old(state), state)
      {
        var a: Step := *;
        i := i + 1;
        if Enabled(state, a) {
          StepKeeps(state, a);
          KeepsIsTransitive(old(state), state, Apply(state, a));
          state := Apply(state, a);
        }
      }
    }

    /** Completion needs a succeeded finalization, and retains a result that is already terminal. */
    /** The conditional write itself: a result that is terminal stays, any other becomes the given one. */
    method RetainOrComplete(k: Key, status: Status)
      requires ValidState(state) && Writable(state, k)
      modifies this`state
      ensures Keeps(old(state), state)
      ensures state == old(state).(results := state.results) && k in state.results
      ensures state.results ==
              if Terminal(old(state), k) then old(state).results else old(state).results[k := Completed(status)]
    {
      if Enabled(state, Complete(k, status)) {
        StepKeeps(state, Complete(k, status));
        state := Apply(state, Complete(k, status));
      }
    }

    method CompleteVerificationResult(k: Key, c: Completion) returns (threw: bool)
      requires ValidState(state)
      modifies this
      ensures Keeps(old(state), state)
      ensures !threw ==> Terminal(state, k)
      ensures attempts == old(attempts) + [Attempt(k, c, threw)]
    {
      Others();
      threw := *;
      if !Writable(state, k) {
        threw := true;
      }
      attempts := attempts + [Attempt(k, c, threw)];
      if !threw {
        label writing:
        RetainOrComplete(k, StatusOf(c));
        KeepsIsTransitive(old(state), old@writing(state), state);
      }
    }

    method RecordDeliveryMetadata() returns (threw: bool)
      requires ValidState(state)
      modifies this`state
      ensures Keeps(old(state), state)
    {
      Others();
      threw := *;
    }
  }

  /** A record's body is the work it parses to, if it does. */
  datatype Record =
    | NotARecord
    | Record(messageId: Option<string>, body: Option<Key>, receiveCount: Option<string>)

  const MAX_RECEIVE_COUNT := 3

  function DigitsOf(s: string): (d: string)
    ensures AllDigits(d) && d <= s
  {
    if s == [] || !IsDigit(s[0]) then []
    else
      var rest := DigitsOf(s[1..]);
      [s[0]] + rest
  }

  function SkipSpaces(s: string): string {
    if s != [] && s[0] in " \t\n\r" then SkipSpaces(s[1..]) else s
  }

  /** `Number.parseInt` to the base ten: as many digits as there are, after spaces and a sign. */
  function ParseInt(s: string): Option<int> {
    var t := SkipSpaces(s);
    var signed := t != [] && (t[0] == '-' || t[0] == '+');
    var digits := DigitsOf(if signed then t[1..] else t);
    if digits == [] then None
    else
      var n: int := Number(digits);
      Some(if signed && t[0] == '-' then -n else n)
  }

  /** Missing, unreadable and impossible counts are taken for a first delivery. */
  function ReceiveCount(r: Record): (n: nat)
    requires r.Record?
    ensures n >= 1
  {
    match r.receiveCount
    case None => 1
    case Some(text) =>
      match ParseInt(text)
      case Some(n) => if n > 0 then n else 1
      case None => 1
  }

  lemma {:induction false} DecimalIsDigits(n: nat)
    ensures AllDigits(Decimal(n)) && Number(Decimal(n)) == n
  {
    if n >= 10 {
      DecimalIsDigits(n / 10);
      assert Decimal(n)[..|Decimal(n)| - 1] == Decimal(n / 10);
    } else {
      assert Decimal(n)[..0] == [];
    }
  }

  lemma {:induction false} DigitsOfDigits(s: string)
    requires AllDigits(s)
    ensures DigitsOf(s) == s
  {
    if s != [] {
      DigitsOfDigits(s[1..]);
    }
  }

  /** A count that the queue printed in decimals is read back, and zero counts as one. */
  lemma PrintedCountReadsBack(r: Record, n: nat)
    requires r.Record? && r.receiveCount == Some(Decimal(n))
    ensures ReceiveCount(r) == if n == 0 then 1 else n
  {
    var text := Decimal(n);
    DecimalIsDigits(n);
    DigitsOfDigits(text);
    assert IsDigit(text[0]);
    assert SkipSpaces(text) == text;
  }

  datatype Disposition = Process | StaleFinalization | DuplicateTerminal

  /** Two reads of the store, with others' steps between them; `None` when one throws. */
  method ResolveDisposition(store: Store, k: Key) returns (d: Option<Disposition>)
    requires ValidState(store.state)
    modifies store`state
    ensures Keeps(old(store.state), store.state)
    ensures d.Some? && d.value != Process && k in old(store.state).issued ==> Settled(store.state, k)
    ensures d == Some(Process) ==> !Terminal(old(store.state), k)
  {
    var threw: bool := *;
    store.Others();
    if threw {
      return None;
    }
    if k.session !in store.state.current {
      return Some(Process);
    }
    if Superseded(store.state, k) {
      return Some(StaleFinalization);
    }
    label between:
    store.Others();
    KeepsIsTransitive(old(store.state), old@between(store.state), store.state);
    threw := *;
    if threw {
      return None;
    }
    d := Some(if Terminal(store.state, k) then DuplicateTerminal else Process);
  }

  /** The verifier stage: an infrastructure error, options refused without a run, or a verdict. */
  datatype Verification = Threw | Refused | Verified(status: Status)

  /** One invocation of the verifier stage and what it came to. */
  datatype Run = Run(key: Key, verification: Verification)

  /** The verifier, with the log of its invocations. */
  class Verifier {
    ghost var runs: seq<Run>

    constructor ()
      ensures runs == []
    {
      runs := [];
    }

    method RunVerification(k: Key) returns (v: Verification)
      modifies this
      ensures runs == old(runs) + [Run(k, v)]
    {
      v := *;
      runs := runs + [Run(k, v)];
    }
  }

  /** What is stored of an answer of the verifier. */
  function CompletionOf(v: Verification): Completion
    requires !v.Threw?
  {
    if v.Refused? then OptionsRefused else Verdict(v.status)
  }

  method PersistVerificationResponse(store: Store, k: Key, v: Verification) returns (threw: bool)
    requires ValidState(store.state) && !v.Threw?
    modifies store
    ensures Keeps(old(store.state), store.state)
    ensures !threw ==> Terminal(store.state, k)
    ensures store.attempts == old(store.attempts) + [Attempt(k, CompletionOf(v), threw)]
            || (threw && v.Verified? && store.attempts == old(store.attempts))
  {
    if v.Refused? {
      threw := store.CompleteVerificationResult(k, OptionsRefused);
      return;
    }
    threw := store.RecordDeliveryMetadata();
    if !threw {
      label recorded:
      threw := store.CompleteVerificationResult(k, Verdict(v.status));
      KeepsIsTransitive(old(store.state), old@recorded(store.state), store.state);
    }
  }

  /** What the logs gained by the work on one key: at most one run, and at most its own answer stored. */
  ghost predicate OneRun(k: Key, runs: seq<Run>, runs': seq<Run>, attempts: seq<Attempt>, attempts': seq<Attempt>,
                         threw: bool)
  {
    || (runs' == runs && attempts' == attempts)
    || (exists v :: runs' == runs + [Run(k, v)] && StoredAnswer(k, v, attempts, attempts', threw))
  }

  ghost predicate StoredAnswer(k: Key, v: Verification, attempts: seq<Attempt>, attempts': seq<Attempt>, threw: bool) {
    if v.Threw? then threw && attempts' == attempts
    else
      attempts' == attempts + [Attempt(k, CompletionOf(v), threw)]
      || (threw && v.Verified? && attempts' == attempts)
  }

  /** Work on a key that no record of this batch has touched. */
  method ProcessFresh(store: Store, verifier: Verifier, k: Key) returns (threw: bool)
    requires ValidState(store.state)
    modifies store, verifier
    ensures Keeps(old(store.state), store.state)
    ensures !threw && k in old(store.state).issued ==> Settled(store.state, k)
    ensures OneRun(k, old(verifier.runs), verifier.runs, old(store.attempts), store.attempts, threw)
    ensures Terminal(old(store.state), k) ==> verifier.runs == old(verifier.runs)
  {
    var d := ResolveDisposition(store, k);
    if d != Some(Process) {
      return d.None?;
    }
    label resolved:
    store.Others();
    KeepsIsTransitive(old(store.state), old@resolved(store.state), store.state);
    var v := verifier.RunVerification(k);
    if v.Threw? {
      assert StoredAnswer(k, v, old(store.attempts), store.attempts, true);
      return true;
    }
    label verified:
    threw := PersistVerificationResponse(store, k, v);
    KeepsIsTransitive(old(store.state), old@verified(store.state), store.state);
    assert StoredAnswer(k, v, old(store.attempts), store.attempts, threw);
  }

  predicate WorkFor(r: Record, k: Key) {
    r.Record? && r.body == Some(k)
  }

  /** The first record of its key, the only one that is worked on. */
  predicate FirstOf(batch: seq<Record>, i: nat, k: Key)
    requires i < |batch|
  {
    WorkFor(batch[i], k) && forall j :: 0 <= j < i ==> !WorkFor(batch[j], k)
  }

  /** One of the first `n` records with this key is returned as a failure. */
  ghost predicate Returned(batch: seq<Record>, n: nat, failures: seq<string>, k: Key)
    requires n <= |batch|
  {
    exists i :: 0 <= i < n && WorkFor(batch[i], k) && batch[i].messageId.Some? && batch[i].messageId.value in failures
  }

  /** One of the first `n` records with this key cannot be named in a failure. */
  ghost predicate Unnamed(batch: seq<Record>, n: nat, k: Key)
    requires n <= |batch|
  {
    exists i :: 0 <= i < n && WorkFor(batch[i], k) && (batch[i].messageId.None? || batch[i].messageId.value == "")
  }

  /** After a third delivery whose work threw, the failure was stored or storing it threw. */
  ghost predicate ExhaustionStored(s: State, batch: seq<Record>, i: nat, k: Key, attempts: seq<Attempt>)
    requires i < |batch|
  {
    FirstOf(batch, i, k) && ReceiveCount(batch[i]) >= MAX_RECEIVE_COUNT ==>
      Settled(s, k) || Attempt(k, RetriesExhausted, true) in attempts
  }

  /** The failure of exhausted retries is attempted for no other reason. */
  predicate OnlyAnswers(attempts: seq<Attempt>) {
    forall a :: a in attempts ==> a.completion != RetriesExhausted
  }

  /** A batch item's work, and the terminal failure once its deliveries are exhausted. */
  method WorkOn(store: Store, verifier: Verifier, r: Record, processed: set<Key>)
    returns (processed': set<Key>, failed: bool)
    requires ValidState(store.state) && r.Record? && r.body.Some?
    modifies store, verifier
    ensures Keeps(old(store.state), store.state)
    ensures processed' == processed + {r.body.value}
    ensures old(store.attempts) <= store.attempts
    ensures r.body.value in processed ==>
              !failed && verifier.runs == old(verifier.runs) && store.attempts == old(store.attempts)
    ensures r.body.value !in processed && r.body.value in old(store.state).issued ==>
              failed || Settled(store.state, r.body.value)
    ensures verifier.runs == old(verifier.runs)
      || exists v :: verifier.runs == old(verifier.runs) + [Run(r.body.value, v)]
    ensures Terminal(old(store.state), r.body.value) ==> verifier.runs == old(verifier.runs)
    ensures var gained := store.attempts[|old(store.attempts)|..];
      if failed && ReceiveCount(r) >= MAX_RECEIVE_COUNT then
        && |gained| > 0 && OnlyAnswers(gained[..|gained| - 1])
        && gained[|gained| - 1].key == r.body.value && gained[|gained| - 1].completion == RetriesExhausted
        && (gained[|gained| - 1].threw || Terminal(store.state, r.body.value))
      else OnlyAnswers(gained)
  {
    var k := r.body.value;
    processed', failed := processed + {k}, false;
    if k in processed {
      return;
    }
    failed := ProcessFresh(store, verifier, k);
    if failed && ReceiveCount(r) >= MAX_RECEIVE_COUNT {
      label failing:
      ghost var before := store.attempts;
      var threw := store.CompleteVerificationResult(k, RetriesExhausted);
      KeepsIsTransitive(old(store.state), old@failing(store.state), store.state);
      assert store.attempts[|old(store.attempts)|..]
             == before[|old(store.attempts)|..] + [Attempt(k, RetriesExhausted, threw)];
    }
  }

  ghost predicate Seen(batch: seq<Record>, n: nat, k: Key)
    requires n <= |batch|
  {
    exists i :: 0 <= i < n && WorkFor(batch[i], k)
  }

  /** An issued key is settled, or one of its records comes back, or cannot be named. */
  ghost predicate Covered(start: State, s: State, batch: seq<Record>, n: nat, failures: seq<string>, k: Key)
    requires n <= |batch|
  {
    k in start.issued ==> Settled(s, k) || Returned(batch, n, failures, k) || Unnamed(batch, n, k)
  }

  ghost predicate Exhausted(start: State, s: State, batch: seq<Record>, i: nat, k: Key, attempts: seq<Attempt>)
    requires i < |batch|
  {
    k in start.issued ==> ExhaustionStored(s, batch, i, k, attempts)
  }

  /** The failure of exhausted retries is attempted only for the first record of a key that came for the third time. */
  ghost predicate Warranted(batch: seq<Record>, n: nat, a: Attempt)
    requires n <= |batch|
  {
    a.completion == RetriesExhausted ==>
      exists i :: 0 <= i < n && FirstOf(batch, i, a.key) && ReceiveCount(batch[i]) >= MAX_RECEIVE_COUNT
  }

  function NameOf(r: Record): string
    requires r.Record?
  {
    if r.messageId.Some? then r.messageId.value else ""
  }

  /** A record is one, and if its body does not parse it is named in the failures. */
  predicate Admitted(r: Record, failures: seq<string>) {
    r.Record? && (r.body.None? ==> NameOf(r) != "" && NameOf(r) in failures)
  }

  /** Only records of the batch are named. */
  predicate NamesOnly(batch: seq<Record>, failures: seq<string>) {
    forall name :: name in failures ==> exists r :: r in batch && r.Record? && NameOf(r) == name
  }

  /** What holds of the keys of the first `n` records; `attempts` are the completions attempted for them. */
  ghost predicate Progress(start: State, s: State, batch: seq<Record>, n: nat, processed: set<Key>,
                           failures: seq<string>, attempts: seq<Attempt>)
    requires n <= |batch|
  {
    && Keeps(start, s)
    && (forall k :: k in processed <==> Seen(batch, n, k))
    && (forall k :: k in processed ==> Covered(start, s, batch, n, failures, k))
    && (forall i, k :: 0 <= i < n ==> Exhausted(start, s, batch, i, k, attempts))
    && (forall a :: a in attempts ==> Warranted(batch, n, a))
    && (forall i :: 0 <= i < n ==> Admitted(batch[i], failures)) && NamesOnly(batch, failures)
  }

  lemma CoveredStays(start: State, s: State, t: State, batch: seq<Record>, n: nat,
                     failures: seq<string>, more: seq<string>, k: Key)
    requires n < |batch| && Keeps(s, t) && Covered(start, s, batch, n, failures, k)
    ensures Covered(start, t, batch, n + 1, failures + more, k)
  {
    if k in start.issued && !Settled(s, k) {
      if Returned(batch, n, failures, k) {
        var i :| 0 <= i < n && WorkFor(batch[i], k) && batch[i].messageId.Some? && batch[i].messageId.value in failures;
        assert batch[i].messageId.value in failures + more;
        assert Returned(batch, n + 1, failures + more, k);
      } else {
        var i :| 0 <= i < n && WorkFor(batch[i], k) && (batch[i].messageId.None? || batch[i].messageId.value == "");
        assert Unnamed(batch, n + 1, k);
      }
    }
  }

  /** One more record keeps the progress, if its own key is covered by it. */
  lemma RecordAdvances(start: State, s: State, t: State, batch: seq<Record>, n: nat, processed: set<Key>, p: set<Key>,
                       failures: seq<string>, more: seq<string>, attempts: seq<Attempt>, gained: seq<Attempt>)
    requires n < |batch| && Progress(start, s, batch, n, processed, failures, attempts) && Keeps(s, t)
    requires forall k :: k in p <==> k in processed || WorkFor(batch[n], k)
    requires forall k :: k in p && k !in processed ==> Covered(start, t, batch, n + 1, failures + more, k)
    requires forall k :: k !in processed ==> Exhausted(start, t, batch, n, k, attempts + gained)
    requires forall a :: a in gained ==> Warranted(batch, n + 1, a)
    requires Admitted(batch[n], failures + more) && forall name :: name in more ==> name == NameOf(batch[n])
    ensures Progress(start, t, batch, n + 1, p, failures + more, attempts + gained)
  {
    KeepsIsTransitive(start, s, t);
    forall k ensures k in p <==> Seen(batch, n + 1, k) {
      assert k in processed <==> Seen(batch, n, k);
    }
    forall k | k in p ensures Covered(start, t, batch, n + 1, failures + more, k) {
      if k in processed {
        CoveredStays(start, s, t, batch, n, failures, more, k);
      }
    }
    forall i, k | 0 <= i < n + 1 ensures Exhausted(start, t, batch, i, k, attempts + gained) {
      if i < n {
        assert Exhausted(start, s, batch, i, k, attempts);
      } else if k in processed {
        assert Seen(batch, n, k) && !FirstOf(batch, n, k);
      }
    }
    forall a | a in attempts + gained ensures Warranted(batch, n + 1, a) {
      assert a in attempts ==> Warranted(batch, n, a);
    }
  }

  /** Either an exception, which returns the whole batch, or the records to be delivered again. */
  datatype Response = Exception | Failures(itemIdentifiers: seq<string>)

  /** The log gained no run, or one for the record's key, which no earlier record had and which was not terminal. */
  ghost predicate RunsOnce(s: State, r: Record, processed: set<Key>, runs: seq<Run>, runs': seq<Run>) {
    || runs' == runs
    || (r.Record? && r.body.Some? && r.body.value !in processed && !Terminal(s, r.body.value)
        && exists v :: runs' == runs + [Run(r.body.value, v)])
  }

  /** One record: whether it ends the batch, and what it adds to the failures. */
  method HandleRecord(store: Store, verifier: Verifier, batch: seq<Record>, n: nat, processed: set<Key>,
                      ghost start: State, ghost failures: seq<string>, ghost attempts: seq<Attempt>)
    returns (exception: bool, processed': set<Key>, more: seq<string>)
    requires n < |batch| && Progress(start, store.state, batch, n, processed, failures, attempts)
    modifies store, verifier
    ensures Keeps(old(store.state), store.state) && old(store.attempts) <= store.attempts
    ensures !exception ==>
              Progress(start, store.state, batch, n + 1, processed', failures + more,
                       attempts + store.attempts[|old(store.attempts)|..])
    ensures processed <= processed'
    ensures !exception && batch[n].Record? && batch[n].body.Some? ==> batch[n].body.value in processed'
    ensures RunsOnce(old(store.state), batch[n], processed, old(verifier.runs), verifier.runs)
    ensures exception ==> verifier.runs == old(verifier.runs)
  {
    var r := batch[n];
    exception, processed', more := false, processed, [];
    if r.NotARecord? {
      exception := true;
      return;
    }
    var itemIdentifier := NameOf(r);
    if r.body.None? {
      exception := itemIdentifier == "";
      more := [itemIdentifier];
    } else {
      var failed;
      processed', failed := WorkOn(store, verifier, r, processed);
      more := if failed && itemIdentifier != "" then [itemIdentifier] else [];
    }
    if exception {
      return;
    }
    RecordAdvances(start, old(store.state), store.state, batch, n, processed, processed', failures, more, attempts,
                   store.attempts[|old(store.attempts)|..]);
  }

  /** The verifier ran at most once for each key of the batch, and only where no result was terminal before. */
  ghost predicate RanOnce(start: State, processed: set<Key>, gained: seq<Run>) {
    && (forall i :: 0 <= i < |gained| ==> gained[i].key in processed && !Terminal(start, gained[i].key))
    && (forall i, j :: 0 <= i < j < |gained| ==> gained[i].key != gained[j].key)
  }

  lemma RunsStayOnce(start: State, s: State, r: Record, processed: set<Key>, seen: set<Key>, before: seq<Run>,
                     runs: seq<Run>, runs': seq<Run>)
    requires before <= runs && Keeps(start, s) && RunsOnce(s, r, processed, runs, runs')
    requires RanOnce(start, processed, runs[|before|..]) && processed <= seen
    requires runs' != runs ==> r.Record? && r.body.Some? && r.body.value in seen
    ensures before <= runs' && RanOnce(start, seen, runs'[|before|..])
  {
    if runs' != runs {
      var v :| runs' == runs + [Run(r.body.value, v)];
      assert runs'[|before|..] == runs[|before|..] + [Run(r.body.value, v)];
    }
  }

  /**
   The batch handler.  When it answers, every key of the batch that was issued is
   settled, or one of its records is delivered again, or its record bore no message id;
   third deliveries end terminal unless the store throws, and only they do so; and no
   verifier ran for a key that was terminal before, nor twice for any.
   */
  method HandleSqsEvent(store: Store, verifier: Verifier, batch: seq<Record>) returns (response: Response)
    requires ValidState(store.state)
    modifies store, verifier
    ensures Keeps(old(store.state), store.state)
    ensures old(store.attempts) <= store.attempts && old(verifier.runs) <= verifier.runs
    ensures response.Failures? ==> forall k :: Seen(batch, |batch|, k) ==>
              Covered(old(store.state), store.state, batch, |batch|, response.itemIdentifiers, k)
    ensures response.Failures? ==> NamesOnly(batch, response.itemIdentifiers)
    ensures response.Failures? ==> forall r :: r in batch ==> Admitted(r, response.itemIdentifiers)
    ensures response.Failures? ==> forall i, k :: 0 <= i < |batch| ==>
              Exhausted(old(store.state), store.state, batch, i, k, store.attempts[|old(store.attempts)|..])
    ensures response.Failures? ==> forall a :: a in store.attempts[|old(store.attempts)|..] ==>
              Warranted(batch, |batch|, a)
    ensures forall i :: |old(verifier.runs)| <= i < |verifier.runs| ==>
              !Terminal(old(store.state), verifier.runs[i].key)
    ensures forall i, j :: |old(verifier.runs)| <= i < j < |verifier.runs| ==>
              verifier.runs[i].key != verifier.runs[j].key
  {
    var failures: seq<string> := [];
    var processed: set<Key> := {};
    for n := 0 to |batch|
      invariant old(store.attempts) <= store.attempts && old(verifier.runs) <= verifier.runs
      invariant Progress(old(store.state), store.state, batch, n, processed, failures,
                         store.attempts[|old(store.attempts)|..])
      invariant RanOnce(old(store.state), processed, verifier.runs[|old(verifier.runs)|..])
    {
      label next:
      ghost var attempts, runs := store.attempts[|old(store.attempts)|..], verifier.runs;
      var exception, more, seen;
      exception, seen, more := HandleRecord(store, verifier, batch, n, processed, old(store.state), failures, attempts);
      KeepsIsTransitive(old(store.state), old@next(store.state), store.state);
      assert store.attempts[|old(store.attempts)|..]
             == attempts + store.attempts[|old@next(store.attempts)|..];
      RunsStayOnce(old(store.state), old@next(store.state), batch[n], processed, seen, old(verifier.runs), runs,
                   verifier.runs);
      if exception {
        return Exception;
      }
      failures, processed := failures + more, seen;
    }
    response := Failures(failures);
  }
}
