/**
 The proof dispatcher among everything that shares its store, its queue and its
 workflow engine.  Every atomic effect is one action; a run is any interleaving of
 actions, so messages are delivered late, repeatedly and to several invocations at
 once, and records change between any two reads of one invocation.
 */
module DispatchMachine {

  type Session = nat
  type Id = nat
  type Ticket = nat
  type InvocationId = nat

  datatype Option<+T> = None | Some(value: T)

  datatype Status = Pending | Running | Ended
  datatype Record = Record(id: Id, status: Status)

  /** A queue message: work for one finalization, or a body that does not parse. */
  datatype Message = Work(session: Session, id: Id, input: nat) | Malformed

  /** A workflow execution, found under the name of its finalization. */
  datatype Execution = Execution(input: nat, open: bool)

  /** What an invocation does next for the record at `next`. */
  datatype Phase = Reading | Starting | Rereading | Describing
  datatype Invocation = Invocation(batch: seq<Ticket>, next: nat, phase: Phase)

  /**
   `used` are the finalization ids ever stored, with their session; `sent` is every
   message ever sent and `unacked` those not yet deleted from the queue; `created`
   logs the executions in the order of their creation.
   */
  datatype State = State(
    records: map<Session, Record>, used: map<Id, Session>,
    sent: map<Ticket, Message>, unacked: set<Ticket>,
    executions: map<Id, Execution>, created: seq<Id>,
    invocations: map<InvocationId, Invocation>)

  const EMPTY := State(map[], map[], map[], {}, map[], [], map[])

  datatype Action =
    // the application and the finalization writer
    | Queue(session: Session, id: Id)
    | Requeue(session: Session)
    | Admit(session: Session)
    | End(session: Session)
    | Remove(session: Session)
    | Send(ticket: Ticket, message: Message)
    | Close(id: Id)
    // the queue
    | Receive(inv: InvocationId, batch: seq<Ticket>)
    // the steps of one dispatcher invocation
    | Read(inv: InvocationId)
    | Start(inv: InvocationId)
    | Reread(inv: InvocationId)
    | Describe(inv: InvocationId)
    | Fail(inv: InvocationId)
    | Acknowledge(inv: InvocationId)

  predicate Dispatchable(s: State, session: Session, id: Id) {
    session in s.records && s.records[session] == Record(id, Pending)
  }

  /** The invocation is about to take this step for a work message. */
  predicate At(s: State, inv: InvocationId, phase: Phase) {
    inv in s.invocations
    && var i := s.invocations[inv];
       i.phase == phase && i.next < |i.batch| && i.batch[i.next] in s.sent && s.sent[i.batch[i.next]].Work?
  }

  function Current(s: State, inv: InvocationId): (m: Message)
    requires inv in s.invocations && s.invocations[inv].next < |s.invocations[inv].batch|
    requires s.invocations[inv].batch[s.invocations[inv].next] in s.sent
  {
    s.sent[s.invocations[inv].batch[s.invocations[inv].next]]
  }

  /**
   A fresh finalization is stored as pending before its message is sent; an ended
   state is sticky, a running one may be queued again under its own id, and it
   became running by an event of its own execution.
   */
  predicate Enabled(s: State, a: Action) {
    match a
    case Queue(_, id) => id !in s.used
    case Requeue(session) => session in s.records && s.records[session].status == Running
    case Admit(session) =>
      session in s.records && s.records[session].status != Ended && s.records[session].id in s.executions
    case End(session) => session in s.records
    case Remove(session) => session in s.records
    case Send(ticket, message) =>
      ticket !in s.sent && (message.Work? ==> message.id in s.used && s.used[message.id] == message.session)
    case Close(id) => id in s.executions
    case Receive(inv, batch) => inv !in s.invocations && forall t :: t in batch ==> t in s.sent
    case Read(inv) => At(s, inv, Reading)
    case Start(inv) => At(s, inv, Starting)
    case Reread(inv) => At(s, inv, Rereading)
    case Describe(inv) => At(s, inv, Describing)
    case Fail(inv) => inv in s.invocations
    case Acknowledge(inv) => inv in s.invocations && s.invocations[inv].next == |s.invocations[inv].batch|
  }

  function SetRecord(s: State, session: Session, r: Record): State {
    s.(records := s.records[session := r])
  }

  function Goto(s: State, inv: InvocationId, phase: Phase): State
    requires inv in s.invocations
  {
    s.(invocations := s.invocations[inv := s.invocations[inv].(phase := phase)])
  }

  /** The record is done with; on to the next one of the batch. */
  function Advance(s: State, inv: InvocationId): State
    requires inv in s.invocations
  {
    s.(invocations := s.invocations[inv := s.invocations[inv].(next := s.invocations[inv].next + 1, phase := Reading)])
  }

  /** A thrown error ends the invocation; nothing of its batch is deleted. */
  function Drop(s: State, inv: InvocationId): State {
    s.(invocations := s.invocations - {inv})
  }

  /**
   A new name starts an execution.  Starting again with the same input while the
   execution is open succeeds without a second one; any other reuse of a name is
   answered by ExecutionAlreadyExists.
   */
  function StartExecution(s: State, inv: InvocationId): State
    requires At(s, inv, Starting)
  {
    var m := Current(s, inv);
    if m.id !in s.executions then
      Advance(s.(executions := s.executions[m.id := Execution(m.input, true)], created := s.created + [m.id]), inv)
    else if s.executions[m.id] == Execution(m.input, true) then Advance(s, inv)
    else Goto(s, inv, Rereading)
  }

  function Apply(s: State, a: Action): State
    requires Enabled(s, a)
  {
    match a
    case Queue(session, id) => SetRecord(s, session, Record(id, Pending)).(used := s.used[id := session])
    case Requeue(session) => SetRecord(s, session, s.records[session].(status := Pending))
    case Admit(session) => SetRecord(s, session, s.records[session].(status := Running))
    case End(session) => SetRecord(s, session, s.records[session].(status := Ended))
    case Remove(session) => s.(records := s.records - {session})
    case Send(ticket, message) => s.(sent := s.sent[ticket := message], unacked := s.unacked + {ticket})
    case Close(id) => s.(executions := s.executions[id := s.executions[id].(open := false)])
    case Receive(inv, batch) => s.(invocations := s.invocations[inv := Invocation(batch, 0, Reading)])
    case Read(inv) =>
      if Dispatchable(s, Current(s, inv).session, Current(s, inv).id) then Goto(s, inv, Starting) else Advance(s, inv)
    case Start(inv) => StartExecution(s, inv)
    case Reread(inv) =>
      if Dispatchable(s, Current(s, inv).session, Current(s, inv).id) then Goto(s, inv, Describing) else Advance(s, inv)
    case Describe(inv) =>
      var id := Current(s, inv).id;
      if id in s.executions && s.executions[id].open then Advance(s, inv) else Drop(s, inv)
    case Fail(inv) => Drop(s, inv)
    case Acknowledge(inv) => Drop(s, inv).(unacked := s.unacked - set t | t in s.invocations[inv].batch)
  }

  /** A run: every action was possible when it happened. */
  predicate IsRun(s: State, actions: seq<Action>)
    decreases |actions|
  {
    actions == [] || (Enabled(s, actions[0]) && IsRun(Apply(s, actions[0]), actions[1..]))
  }

  function After(s: State, actions: seq<Action>): State
    requires IsRun(s, actions)
    decreases |actions|
  {
    if actions == [] then s else After(Apply(s, actions[0]), actions[1..])
  }

  /** No one needs this message any more: its execution exists, or its finalization is not waiting for one. */
  predicate Settled(s: State, m: Message) {
    m.Work? && (m.id in s.executions || !Dispatchable(s, m.session, m.id))
  }

  ghost predicate RecordOk(s: State, session: Session) {
    session in s.records ==>
      && s.records[session].id in s.used && s.used[s.records[session].id] == session
      && (s.records[session].status == Running ==> s.records[session].id in s.executions)
  }

  ghost predicate TicketOk(s: State, t: Ticket) {
    t in s.sent ==>
      && (s.sent[t].Work? ==> s.sent[t].id in s.used && s.used[s.sent[t].id] == s.sent[t].session)
      && (t !in s.unacked ==> Settled(s, s.sent[t]))
  }

  ghost predicate InvocationOk(s: State, inv: InvocationId) {
    inv in s.invocations ==>
      var i := s.invocations[inv];
      && i.next <= |i.batch|
      && (forall t :: t in i.batch ==> t in s.sent)
      && (forall k :: 0 <= k < i.next ==> Settled(s, s.sent[i.batch[k]]))
  }

  /** The execution got its input from a message of the finalization it is named after. */
  ghost predicate FromMessage(s: State, id: Id) {
    id in s.executions && id in s.used
    && exists t :: t in s.sent && s.sent[t] == Work(s.used[id], id, s.executions[id].input)
  }

  /** What every action keeps. */
  ghost predicate Inv(s: State) {
    && (forall session :: RecordOk(s, session))
    && (forall t :: TicketOk(s, t))
    && s.unacked <= s.sent.Keys
    && (forall inv :: InvocationOk(s, inv))
    && (forall id :: id in s.executions ==> FromMessage(s, id))
    && (forall id :: id in s.created <==> id in s.executions)
    && (forall j, k :: 0 <= j < k < |s.created| ==> s.created[j] != s.created[k])
  }

  /** A settled message stays settled: nothing brings a finalization back without its execution. */
  lemma SettledStays(s: State, a: Action, m: Message)
    requires Inv(s) && Enabled(s, a) && Settled(s, m) && m.id in s.used
    ensures Settled(Apply(s, a), m)
  {
    assert RecordOk(s, m.session);
    if a.Requeue? {
      assert RecordOk(s, a.session);
    }
  }

  /** One step moves an invocation past at most one message, and then that one is settled. */
  lemma PassedIsSettled(s: State, a: Action, inv: InvocationId)
    requires Enabled(s, a) && inv in s.invocations && inv in Apply(s, a).invocations
    ensures var i, j := s.invocations[inv], Apply(s, a).invocations[inv];
      && j.batch == i.batch
      && (j.next == i.next
          || (j.next == i.next + 1 <= |i.batch| && i.batch[i.next] in s.sent
              && Settled(Apply(s, a), s.sent[i.batch[i.next]])))
  {
  }

  lemma InvocationStays(s: State, a: Action, inv: InvocationId)
    requires Inv(s) && Enabled(s, a)
    ensures InvocationOk(Apply(s, a), inv)
  {
    var n := Apply(s, a);
    if inv in s.invocations && inv in n.invocations {
      assert InvocationOk(s, inv);
      PassedIsSettled(s, a, inv);
      var i, j := s.invocations[inv], n.invocations[inv];
      forall k | 0 <= k < j.next ensures Settled(n, n.sent[i.batch[k]]) {
        assert i.batch[k] in s.sent && n.sent[i.batch[k]] == s.sent[i.batch[k]];
        if k < i.next {
          assert TicketOk(s, i.batch[k]);
          SettledStays(s, a, s.sent[i.batch[k]]);
        }
      }
    }
  }

  lemma TicketStays(s: State, a: Action, t: Ticket)
    requires Inv(s) && Enabled(s, a)
    ensures TicketOk(Apply(s, a), t)
  {
    var n := Apply(s, a);
    if t in s.sent {
      assert TicketOk(s, t);
      if t !in s.unacked {
        SettledStays(s, a, s.sent[t]);
      } else if t !in n.unacked {
        var batch := s.invocations[a.inv].batch;
        assert InvocationOk(s, a.inv);
        var k :| 0 <= k < |batch| && batch[k] == t;
        assert Settled(s, s.sent[batch[k]]);
      }
    }
  }

  lemma ExecutionsStay(s: State, a: Action)
    requires Inv(s) && Enabled(s, a)
    ensures forall id :: id in Apply(s, a).executions ==> FromMessage(Apply(s, a), id)
  {
    var n := Apply(s, a);
    forall id | id in n.executions ensures FromMessage(n, id) {
      if id in s.executions {
        assert FromMessage(s, id);
        var t :| t in s.sent && s.sent[t] == Work(s.used[id], id, s.executions[id].input);
        assert n.sent[t] == s.sent[t];
      } else {
        var i := s.invocations[a.inv];
        assert TicketOk(s, i.batch[i.next]);
        assert n.sent[i.batch[i.next]] == Work(n.used[id], id, n.executions[id].input);
      }
    }
  }

  lemma RecordStays(s: State, a: Action, session: Session)
    requires Inv(s) && Enabled(s, a)
    ensures RecordOk(Apply(s, a), session)
  {
    assert RecordOk(s, session);
  }

  lemma NamesStay(s: State, a: Action)
    requires Inv(s) && Enabled(s, a)
    ensures var n := Apply(s, a);
      && n.unacked <= n.sent.Keys
      && (forall id :: id in n.created <==> id in n.executions)
      && (forall j, k :: 0 <= j < k < |n.created| ==> n.created[j] != n.created[k])
  {
    var n := Apply(s, a);
    if !a.Start? {
      assert n.created == s.created && n.executions.Keys == s.executions.Keys;
    }
  }

  lemma InvStays(s: State, a: Action)
    requires Inv(s) && Enabled(s, a)
    ensures Inv(Apply(s, a))
  {
    var n := Apply(s, a);
    forall session ensures RecordOk(n, session) {
      RecordStays(s, a, session);
    }
    NamesStay(s, a);
    forall t ensures TicketOk(n, t) {
      TicketStays(s, a, t);
    }
    forall inv ensures InvocationOk(n, inv) {
      InvocationStays(s, a, inv);
    }
    ExecutionsStay(s, a);
  }

  lemma {:induction false} InvAlways(s: State, actions: seq<Action>)
    requires Inv(s) && IsRun(s, actions)
    ensures Inv(After(s, actions))
    decreases |actions|
  {
    if actions != [] {
      InvStays(s, actions[0]);
      InvAlways(Apply(s, actions[0]), actions[1..]);
    }
  }

  /** Work for a finalization that waits for it is still in the queue, or its execution was started. */
  ghost predicate NotLost(s: State, session: Session, id: Id) {
    id in s.executions || exists t :: t in s.unacked && t in s.sent && s.sent[t].Work? && s.sent[t].id == id
  }

  /** In every reachable state, no enqueued finalization that is current and pending has lost its work. */
  lemma NoLostWork(actions: seq<Action>, session: Session, id: Id, t: Ticket)
    requires IsRun(EMPTY, actions)
    requires var s := After(EMPTY, actions);
      Dispatchable(s, session, id) && t in s.sent && s.sent[t].Work? && s.sent[t].id == id
    ensures NotLost(After(EMPTY, actions), session, id)
  {
    var s := After(EMPTY, actions);
    InvAlways(EMPTY, actions);
    assert RecordOk(s, session) && TicketOk(s, t);
  }

  /** No finalization ever gets two executions, and each runs on an input that was sent for it. */
  lemma OneExecutionEach(actions: seq<Action>)
    requires IsRun(EMPTY, actions)
    ensures var s := After(EMPTY, actions);
      && (forall j, k :: 0 <= j < k < |s.created| ==> s.created[j] != s.created[k])
      && (forall id :: id in s.executions ==> FromMessage(s, id))
  {
    InvAlways(EMPTY, actions);
  }

  /** A batch is only deleted when each of its messages parsed and was settled; one bad body keeps all of it. */
  lemma OnlySettledBatchesAreDeleted(actions: seq<Action>, inv: InvocationId, t: Ticket)
    requires IsRun(EMPTY, actions) && Enabled(After(EMPTY, actions), Acknowledge(inv))
    requires t in After(EMPTY, actions).invocations[inv].batch
    ensures t in After(EMPTY, actions).sent && Settled(After(EMPTY, actions), After(EMPTY, actions).sent[t])
  {
    InvAlways(EMPTY, actions);
    var i := After(EMPTY, actions).invocations[inv];
    assert InvocationOk(After(EMPTY, actions), inv);
    var k :| 0 <= k < |i.batch| && i.batch[k] == t;
  }
}
