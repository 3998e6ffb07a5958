/**
 Operator actions (app/token_payments/api/operator_actions.py): the executors for cancelling an order and
 for retrying and replaying outbox messages, the audit log they keep, and the keys they derive.
 Texts are stripped on entry, as every use of them does; one of the wrong type behaves as a blank one, except
 that an identity or a reason of a type that is not JSON-safe cannot be put into the details of a result. The
 order handler, the two ports and the audit repository may answer anything, or raise.
 */
module OperatorActions {
  import opened Wrappers
  import opened TextTools

  datatype Action = CancelOrder | RetryOutboxMessage | ReplayMessage

  datatype Status = Accepted | Duplicate | Rejected

  datatype Kind = Event | Command

  /** Who asks; `NotClaims` is an object that is not an `OperatorClaims`. */
  datatype Actor = Claims(user: Option<string>, scopes: seq<string>) | NotClaims

  datatype AuditRecord = AuditRecord(actor: Actor, action: Action, target: string, key: string, requestId: string,
                                     outcome: Status, reason: string)

  datatype Cause = Handled | Refused | Forbidden | Invalid

  datatype Reply = Reply(status: Status, action: Action, target: string, key: string, auditId: Option<string>,
    cause: Cause)

  datatype Outcome = Returned(reply: Reply) | Raised

  // ----- what the collaborators answer -----

  datatype HandlerAnswer =
    Cancelled | AlreadyCancelled | DuplicateIgnored | RejectedWith(message: string) | HandlerRaises

  datatype PortAnswer = Recorded | Retryable | DuplicateByPort | RejectedByPort | PortRaises

  /** `record` keeps the record and returns an id or nothing, or it raises. */
  datatype Recorder = Keeps(id: Option<string>) | RecordRaises

  // ----- what is asked of them -----

  datatype CancelCommand = CancelCommand(orderId: string, commandId: string, reason: string, causation: string)

  datatype PortRequest = PortRequest(kind: Kind, identity: string, reason: string, actor: Actor, requestId: string,
    key: string)

  /** The arguments of `cancel_order`; of the order id, its normal form if it is a UUID. */
  datatype CancelInput = CancelInput(actor: Actor, orderId: Option<string>, reason: string, requestId: string,
                                     awareTime: bool, key: Option<string>, goodEventId: bool, safeParameters: bool)

  /** An argument that should be a text. */
  datatype RawText = Text(s: string) | NotText(jsonSafe: bool)

  /** The arguments of `retry_outbox_message` and `replay_message`; of the kind, its `str`. */
  datatype RawOutbox = RawOutbox(actor: Actor, kind: string, identity: RawText, reason: RawText, requestId: string,
                                 awareTime: bool, key: Option<string>, safeParameters: bool)

  /** The same with stripped texts, blank for other types; `safeDetails` says that the given identity and reason
      can be put into the details of a result. */
  datatype OutboxInput = OutboxInput(actor: Actor, kind: string, identity: string, reason: string, requestId: string,
                                     awareTime: bool, key: Option<string>, safeParameters: bool, safeDetails: bool)

  /** Everything the executors act on. */
  datatype State = State(audit: seq<AuditRecord>, cancels: seq<CancelCommand>, retries: seq<PortRequest>,
    replays: seq<PortRequest>)

  // ----- texts, kinds, keys and permissions -----

  predicate Blank(s: string) {
    s == ""
  }

  function NameOf(action: Action): string {
    match action
    case CancelOrder => "cancelOrder"
    case RetryOutboxMessage => "retryOutboxMessage"
    case ReplayMessage => "replayMessage"
  }

  function KindName(kind: Kind): string {
    if kind.Event? then "EVENT" else "COMMAND"
  }

  function KindOf(text: string): Option<Kind> {
    if text == "EVENT" then Some(Event)
    else if text == "COMMAND" then Some(Command)
    else None
  }

  function OrElse(s: string, other: string): string {
    if s == "" then other else s
  }

  predicate GoodKey(key: Option<string>) {
    key.None? || !Blank(key.value)
  }

  function DerivedCancelKey(orderId: string, requestId: string): string {
    "operator:cancelOrder:" + (orderId + ":" + requestId)
  }

  function DerivedOutboxKey(action: Action, kind: string, identity: string, requestId: string): string {
    "operator:" + (NameOf(action) + ":" + (kind + ":" + (identity + ":" + requestId)))
  }

  function KeyOr(key: Option<string>, derived: string): string {
    if key.Some? then key.value else derived
  }

  /** `can_execute_action`. */
  predicate Permitted(actor: Actor, action: Action) {
    && actor.Claims? && "operator:action" in actor.scopes
    && (action == RetryOutboxMessage ==> "outbox:retry" in actor.scopes)
  }

  // ----- the effect of a call -----

  /** What keeping a record does, and the id that comes of it. */
  function Kept(s: State, attached: bool, record: AuditRecord, recorder: Recorder)
    : (State, Result<Option<string>, ()>)
  {
    if !attached then (s, Ok(None))
    else if Blank(record.reason) || recorder.RecordRaises? then (s, Err(()))
    else
      var kept := s.(audit := s.audit + [record]);
      if recorder.id.None? then (kept, Ok(None))
      else if Blank(recorder.id.value) then (kept, Err(()))
      else (kept, Ok(Some(recorder.id.value)))
  }

  /** Keep a record and return the reply that agrees with it; neither takes a blank summary, and the reply
      only safe details. */
  function Concluded(s: State, attached: bool, record: AuditRecord, recorder: Recorder, safe: bool,
                     cause: Cause): (State, Outcome) {
    var kept := Kept(s, attached, record, recorder);
    if kept.1.Err? || Blank(record.reason) || !safe then (kept.0, Raised)
    else (kept.0, Returned(Reply(record.outcome, record.action, record.target, record.key, kept.1.value, cause)))
  }

  predicate ValidCancel(a: CancelInput) {
    a.actor.Claims? && a.awareTime && a.orderId.Some? && GoodKey(a.key) && !Blank(a.requestId) && !Blank(a.reason)
    && a.safeParameters && a.goodEventId
  }

  function CancelKey(a: CancelInput): string
    requires ValidCancel(a)
  {
    KeyOr(a.key, DerivedCancelKey(a.orderId.value, a.requestId))
  }

  function CommandOf(a: CancelInput): CancelCommand
    requires ValidCancel(a)
  {
    CancelCommand(a.orderId.value, KeyOr(a.key, a.orderId.value + ":CancelOrderCommand"), a.reason, a.requestId)
  }

  function CancelRecord(a: CancelInput, outcome: Status, reason: string): AuditRecord
    requires ValidCancel(a)
  {
    AuditRecord(a.actor, CancelOrder, a.orderId.value, CancelKey(a), a.requestId, outcome, reason)
  }

  function CancelSummary(answer: HandlerAnswer, orderId: string): string {
    match answer
    case Cancelled => "CANCELLED for order " + orderId + "."
    case AlreadyCancelled => "ALREADY_CANCELLED for order " + orderId + "."
    case DuplicateIgnored => "DUPLICATE_IGNORED for order " + orderId + "."
    case RejectedWith(message) => message
    case HandlerRaises => ""
  }

  /** `_operator_permission_summary`. */
  function PermissionSummary(action: Action): string {
    (if action == RetryOutboxMessage then "operator:action and outbox:retry permissions are"
      else "operator:action permission is")
    + " required to execute " + NameOf(action)
  }

  function CancelEffect(s: State, attached: bool, a: CancelInput, answer: HandlerAnswer, recorder: Recorder)
    : (State, Outcome)
  {
    if !ValidCancel(a) then (s, Raised)
    else if !Permitted(a.actor, CancelOrder) then
      Concluded(s, attached, CancelRecord(a, Rejected, PermissionSummary(CancelOrder)), recorder, true, Forbidden)
    else
      var called := s.(cancels := s.cancels + [CommandOf(a)]);
      var summary := CancelSummary(answer, a.orderId.value);
      match answer
      case HandlerRaises => (called, Raised)
      case RejectedWith(_) => Concluded(called, attached, CancelRecord(a, Rejected, summary), recorder, true, Refused)
      case DuplicateIgnored => Concluded(called, attached, CancelRecord(a, Duplicate, summary), recorder, true, Handled)
      case _ => Concluded(called, attached, CancelRecord(a, Accepted, summary), recorder, true, Handled)
  }

  /** The three texts that `_validate_outbox_action_input` looks at. */
  predicate ValidFields(a: OutboxInput) {
    KindOf(a.kind).Some? && !Blank(a.identity) && !Blank(a.reason)
  }

  predicate ValidOutbox(a: OutboxInput) {
    a.awareTime && ValidFields(a) && a.actor.Claims? && a.safeParameters && !Blank(a.requestId) && GoodKey(a.key)
  }

  function RequestOf(action: Action, a: OutboxInput): PortRequest
    requires ValidOutbox(a)
  {
    PortRequest(KindOf(a.kind).value, a.identity, a.reason, a.actor, a.requestId,
                KeyOr(a.key, DerivedOutboxKey(action, KindName(KindOf(a.kind).value), a.identity, a.requestId)))
  }

  function OutboxRecord(action: Action, r: PortRequest, outcome: Status): AuditRecord {
    AuditRecord(r.actor, action, r.identity, r.key, r.requestId, outcome, r.reason)
  }

  function KindProblem(kind: string): string {
    if Blank(kind) then "messageKind must be a non-empty string" else "'" + kind + "' is not a valid OutboxMessageKind"
  }

  function InvalidSummary(a: OutboxInput): string {
    "Invalid operator outbox action request: "
    + (if KindOf(a.kind).None? then KindProblem(a.kind)
       else (if Blank(a.identity) then "messageIdentity" else "reason") + " must be a non-empty string")
    + "."
  }

  /** The record of a call with invalid texts: stand-ins for those that are missing. */
  function InvalidRecord(action: Action, a: OutboxInput): AuditRecord {
    var target := OrElse(a.identity, "<empty>");
    var requestId := OrElse(a.requestId, "<missing-request-id>");
    var key := if a.key.Some? && !Blank(a.key.value) then a.key.value
               else DerivedOutboxKey(action, OrElse(a.kind, "<invalid-kind>"), target, requestId);
    AuditRecord(a.actor, action, target, key, requestId, Rejected, OrElse(a.reason, InvalidSummary(a)))
  }

  function StatusOf(answer: PortAnswer): Status {
    match answer
    case DuplicateByPort => Duplicate
    case RejectedByPort => Rejected
    case _ => Accepted
  }

  function Called(s: State, action: Action, r: PortRequest): State {
    if action == RetryOutboxMessage then s.(retries := s.retries + [r]) else s.(replays := s.replays + [r])
  }

  /** The effect of a call whose arguments made a request. */
  function Requested(s: State, attached: bool, action: Action, r: PortRequest, answer: PortAnswer,
                     recorder: Recorder): (State, Outcome) {
    if !Permitted(r.actor, action)
        then Concluded(s, attached, OutboxRecord(action, r, Rejected), recorder, true, Forbidden)
    else if answer.PortRaises? then (Called(s, action, r), Raised)
    else Concluded(Called(s, action, r), attached, OutboxRecord(action, r, StatusOf(answer)), recorder, true, Handled)
  }

  function OutboxEffect(s: State, attached: bool, action: Action, a: OutboxInput, answer: PortAnswer,
                        recorder: Recorder): (State, Outcome) {
    if !a.awareTime then (s, Raised)
    else if !ValidFields(a) then
      if a.actor.Claims? then Concluded(s, attached, InvalidRecord(action, a), recorder, a.safeDetails, Invalid)
          else (s, Raised)
    else if !ValidOutbox(a) then (s, Raised)
    else Requested(s, attached, action, RequestOf(action, a), answer, recorder)
  }

  // ----- texts as given -----

  function Trim(s: string): string {
    Strip(s, IsSpace)
  }

  function TrimKey(key: Option<string>): Option<string> {
    if key.Some? then Some(Trim(key.value)) else None
  }

  function TrimCancel(a: CancelInput): CancelInput {
    a.(reason := Trim(a.reason), requestId := Trim(a.requestId), key := TrimKey(a.key))
  }

  function TrimRaw(t: RawText): string {
    if t.Text? then Trim(t.s) else ""
  }

  predicate IsSafe(t: RawText) {
    t.Text? || t.jsonSafe
  }

  function TrimOutbox(a: RawOutbox): OutboxInput {
    OutboxInput(a.actor, Trim(a.kind), TrimRaw(a.identity), TrimRaw(a.reason), Trim(a.requestId),
                a.awareTime, TrimKey(a.key), a.safeParameters, IsSafe(a.identity) && IsSafe(a.reason))
  }

  function TrimAnswer(answer: HandlerAnswer): HandlerAnswer {
    if answer.RejectedWith? then RejectedWith(Trim(answer.message)) else answer
  }

  function TrimRecorder(recorder: Recorder): Recorder {
    if recorder.Keeps? then Keeps(TrimKey(recorder.id)) else recorder
  }

  // ----- the executors -----

  /** The audit repository, the order handler and the two ports, with what they have been given so far. */
  class Services {
    const attached: bool
    var audit: seq<AuditRecord>
    var cancels: seq<CancelCommand>
    var retries: seq<PortRequest>
    var replays: seq<PortRequest>

    constructor (attached: bool)
      ensures this.attached == attached && Now() == State([], [], [], [])
    {
      this.attached := attached;
      audit, cancels, retries, replays := [], [], [], [];
    }

    function Now(): State
      reads this
    {
      State(audit, cancels, retries, replays)
    }

    /** `_record_audit`, and the checks of the record and of the id that the repository returns. */
    method RecordAudit(record: AuditRecord, recorder: Recorder) returns (r: Result<Option<string>, ()>)
      modifies this`audit
      ensures Now() == Kept(old(Now()), attached, record, recorder).0
      ensures r == Kept(old(Now()), attached, record, recorder).1
    {
      if !attached {
        return Ok(None);
      }
      if Blank(record.reason) || recorder.RecordRaises? {
        return Err(());
      }
      audit := audit + [record];
      if recorder.id.None? {
        return Ok(None);
      }
      if Blank(recorder.id.value) {
        return Err(());
      }
      return Ok(Some(recorder.id.value));
    }

    /** A record is kept, then the result is built; both need a summary that is not blank. */
    method Conclude(record: AuditRecord, recorder: Recorder, safe: bool, cause: Cause) returns (outcome: Outcome)
      modifies this`audit
      ensures Now() == Concluded(old(Now()), attached, record, recorder, safe, cause).0
      ensures outcome == Concluded(old(Now()), attached, record, recorder, safe, cause).1
    {
      var id := RecordAudit(record, recorder);
      if id.Err? || Blank(record.reason) || !safe {
        return Raised;
      }
      return Returned(Reply(record.outcome, record.action, record.target, record.key, id.value, cause));
    }

    /** `OperatorCancelOrderActionExecutor.cancel_order`. */
    method CancelOrder(a: CancelInput, answer: HandlerAnswer, recorder: Recorder) returns (outcome: Outcome)
      modifies this
      ensures (Now(), outcome) == CancelEffect(old(Now()), attached, TrimCancel(a), TrimAnswer(answer),
          TrimRecorder(recorder))
    {
      outcome := CheckCancel(TrimCancel(a), TrimAnswer(answer), TrimRecorder(recorder));
    }

    /** `OperatorOutboxActionExecutor.retry_outbox_message`. */
    method RetryOutboxMessage(a: RawOutbox, answer: PortAnswer, recorder: Recorder) returns (outcome: Outcome)
      modifies this
      ensures (Now(), outcome) == OutboxEffect(old(Now()), attached, Action.RetryOutboxMessage, TrimOutbox(a),
          answer, TrimRecorder(recorder))
    {
      outcome := CheckOutbox(Action.RetryOutboxMessage, TrimOutbox(a), answer, TrimRecorder(recorder));
    }

    /** `OperatorOutboxActionExecutor.replay_message`. */
    method ReplayMessage(a: RawOutbox, answer: PortAnswer, recorder: Recorder) returns (outcome: Outcome)
      modifies this
      ensures (Now(), outcome) == OutboxEffect(old(Now()), attached, Action.ReplayMessage, TrimOutbox(a), answer,
          TrimRecorder(recorder))
    {
      outcome := CheckOutbox(Action.ReplayMessage, TrimOutbox(a), answer, TrimRecorder(recorder));
    }

    /** The checks that the command classes make before anything happens. */
    method CheckCancel(a: CancelInput, answer: HandlerAnswer, recorder: Recorder) returns (outcome: Outcome)
      modifies this
      ensures Now() == CancelEffect(old(Now()), attached, a, answer, recorder).0
      ensures outcome == CancelEffect(old(Now()), attached, a, answer, recorder).1
    {
      if !a.actor.Claims? || !a.awareTime || a.orderId.None? {
        return Raised;
      }
      if !GoodKey(a.key) || Blank(a.requestId) || Blank(a.reason) || !a.safeParameters || !a.goodEventId {
        return Raised;
      }
      outcome := ExecuteCancel(a, answer, recorder);
    }

    /** `OperatorCancelOrderActionExecutor._execute`. */
    method ExecuteCancel(a: CancelInput, answer: HandlerAnswer, recorder: Recorder) returns (outcome: Outcome)
      requires ValidCancel(a)
      modifies this
      ensures Now() == CancelEffect(old(Now()), attached, a, answer, recorder).0
      ensures outcome == CancelEffect(old(Now()), attached, a, answer, recorder).1
    {
      if !Permitted(a.actor, Action.CancelOrder) {
        outcome := Conclude(CancelRecord(a, Rejected, PermissionSummary(Action.CancelOrder)), recorder, true,
          Forbidden);
        return;
      }
      cancels := cancels + [CommandOf(a)];
      if answer.HandlerRaises? {
        return Raised;
      }
      var summary := CancelSummary(answer, a.orderId.value);
      if answer.RejectedWith? {
        outcome := Conclude(CancelRecord(a, Rejected, summary), recorder, true, Refused);
        return;
      }
      var status := if answer.DuplicateIgnored? then Duplicate else Accepted;
      outcome := Conclude(CancelRecord(a, status, summary), recorder, true, Handled);
    }

    /** The checks of a retry or a replay: some fail with a record, the others with an exception. */
    method CheckOutbox(action: Action, a: OutboxInput, answer: PortAnswer, recorder: Recorder)
      returns (outcome: Outcome)
      modifies this
      ensures Now() == OutboxEffect(old(Now()), attached, action, a, answer, recorder).0
      ensures outcome == OutboxEffect(old(Now()), attached, action, a, answer, recorder).1
    {
      if !a.awareTime {
        return Raised;
      }
      if !ValidFields(a) {
        if !a.actor.Claims? {
          return Raised;
        }
        outcome := Conclude(InvalidRecord(action, a), recorder, a.safeDetails, Invalid);
        return;
      }
      if !a.safeParameters || !GoodKey(a.key) || Blank(a.requestId) || !a.actor.Claims? {
        return Raised;
      }
      outcome := ExecuteOutbox(action, RequestOf(action, a), answer, recorder);
    }

    method ExecuteOutbox(action: Action, r: PortRequest, answer: PortAnswer, recorder: Recorder)
      returns (outcome: Outcome)
      modifies this
      ensures Now() == Requested(old(Now()), attached, action, r, answer, recorder).0
      ensures outcome == Requested(old(Now()), attached, action, r, answer, recorder).1
    {
      if !Permitted(r.actor, action) {
        outcome := Conclude(OutboxRecord(action, r, Rejected), recorder, true, Forbidden);
        return;
      }
      if action == Action.RetryOutboxMessage {
        retries := retries + [r];
      } else {
        replays := replays + [r];
      }
      if answer.PortRaises? {
        return Raised;
      }
      outcome := Conclude(OutboxRecord(action, r, StatusOf(answer)), recorder, true, Handled);
    }
  }

  // ----- one call -----

  /** A call, with what the collaborators answer to it. */
  datatype Call =
    | Cancel(cancel: CancelInput, handler: HandlerAnswer, recorder: Recorder)
    | Retry(outbox: OutboxInput, port: PortAnswer, recorder: Recorder)
    | Replay(outbox: OutboxInput, port: PortAnswer, recorder: Recorder)

  function ActionOf(c: Call): Action {
    match c
    case Cancel(_, _, _) => CancelOrder
    case Retry(_, _, _) => RetryOutboxMessage
    case Replay(_, _, _) => ReplayMessage
  }

  function ActorOf(c: Call): Actor {
    if c.Cancel? then c.cancel.actor else c.outbox.actor
  }

  function Effect(s: State, attached: bool, c: Call): (State, Outcome) {
    match c
    case Cancel(a, answer, recorder) => CancelEffect(s, attached, a, answer, recorder)
    case Retry(a, answer, recorder) => OutboxEffect(s, attached, RetryOutboxMessage, a, answer, recorder)
    case Replay(a, answer, recorder) => OutboxEffect(s, attached, ReplayMessage, a, answer, recorder)
  }

  predicate IsValid(c: Call) {
    if c.Cancel? then ValidCancel(c.cancel) else ValidOutbox(c.outbox)
  }

  /** The calls that may reach the handler or a port: valid ones of an actor with the scopes. */
  predicate MayReach(c: Call) {
    IsValid(c) && Permitted(ActorOf(c), ActionOf(c))
  }

  /** The record says what the reply says. */
  predicate Agrees(record: AuditRecord, reply: Reply) {
    && record.outcome == reply.status && record.key == reply.key
    && record.action == reply.action && record.target == reply.target
  }

  predicate SameCalls(s: State, t: State) {
    s.cancels == t.cancels && s.retries == t.retries && s.replays == t.replays
  }

  predicate HasBlankId(recorder: Recorder) {
    recorder.Keeps? && recorder.id.Some? && Blank(recorder.id.value)
  }

  /** The call has texts that are missing, and the identity or reason in their place is not JSON-safe. */
  predicate HasUnsafeDetails(c: Call) {
    !c.Cancel? && !ValidFields(c.outbox) && !c.outbox.safeDetails
  }

  /** How the log changes from `s` to `t` in a call by `actor` with this outcome. */
  ghost predicate Logs(s: State, t: State, attached: bool, outcome: Outcome, action: Action, actor: Actor,
                       recorder: Recorder, safe: bool) {
    var n := |s.audit|;
    && |t.audit| >= n && t.audit[..n] == s.audit
    && (!attached ==> t.audit == s.audit)
    && (attached && outcome.Returned? ==> |t.audit| == n + 1 && Agrees(t.audit[n], outcome.reply)
                                          && t.audit[n].action == action && t.audit[n].actor == actor)
    && (outcome.Raised? && t.audit != s.audit ==>
        |t.audit| == n + 1 && recorder.Keeps? && (HasBlankId(recorder) || !safe))
  }

  lemma ConcludedLogs(s: State, attached: bool, record: AuditRecord, recorder: Recorder, safe: bool, cause: Cause)
    ensures var (t, outcome) := Concluded(s, attached, record, recorder, safe, cause);
      && Logs(s, t, attached, outcome, record.action, record.actor, recorder, safe) && SameCalls(s, t)
      && (outcome.Returned? ==> outcome.reply.status == record.outcome && outcome.reply.cause == cause)
  {
  }

  lemma RequestedLogs(s: State, attached: bool, action: Action, r: PortRequest, answer: PortAnswer, recorder: Recorder)
    ensures var (t, outcome) := Requested(s, attached, action, r, answer, recorder);
      && Logs(s, t, attached, outcome, action, r.actor, recorder, true)
      && SameCalls(t, if Permitted(r.actor, action) then Called(s, action, r) else s)
  {
    if !Permitted(r.actor, action) {
      ConcludedLogs(s, attached, OutboxRecord(action, r, Rejected), recorder, true, Forbidden);
    } else if !answer.PortRaises? {
      ConcludedLogs(Called(s, action, r), attached, OutboxRecord(action, r, StatusOf(answer)), recorder, true, Handled);
    }
  }

  lemma OutboxLogs(s: State, attached: bool, action: Action, a: OutboxInput, answer: PortAnswer, recorder: Recorder)
    ensures var (t, outcome) := OutboxEffect(s, attached, action, a, answer, recorder);
      && Logs(s, t, attached, outcome, action, a.actor, recorder, ValidFields(a) || a.safeDetails)
      && SameCalls(t, if ValidOutbox(a) && Permitted(a.actor, action) then Called(s, action, RequestOf(action, a))
          else s)
  {
    if ValidOutbox(a) {
      RequestedLogs(s, attached, action, RequestOf(action, a), answer, recorder);
    } else if a.awareTime && !ValidFields(a) && a.actor.Claims? {
      ConcludedLogs(s, attached, InvalidRecord(action, a), recorder, a.safeDetails, Invalid);
    }
  }

  lemma CancelLogs(s: State, attached: bool, a: CancelInput, answer: HandlerAnswer, recorder: Recorder)
    ensures var (t, outcome) := CancelEffect(s, attached, a, answer, recorder);
      && Logs(s, t, attached, outcome, CancelOrder, a.actor, recorder, true)
      && SameCalls(t, if ValidCancel(a) && Permitted(a.actor, CancelOrder)
          then s.(cancels := s.cancels + [CommandOf(a)]) else s)
  {
    if ValidCancel(a) {
      if !Permitted(a.actor, CancelOrder) {
        ConcludedLogs(s, attached, CancelRecord(a, Rejected, PermissionSummary(CancelOrder)), recorder, true,
          Forbidden);
      } else {
        var called := s.(cancels := s.cancels + [CommandOf(a)]);
        var summary := CancelSummary(answer, a.orderId.value);
        ConcludedLogs(called, attached, CancelRecord(a, Rejected, summary), recorder, true, Refused);
        ConcludedLogs(called, attached, CancelRecord(a, Duplicate, summary), recorder, true, Handled);
        ConcludedLogs(called, attached, CancelRecord(a, Accepted, summary), recorder, true, Handled);
      }
    }
  }

  /** What a call asks of the handler, of the retry port and of the replay port: all of it is one request of
      the right one, for the calls that may reach it, and nothing for the others. */
  function CancelsOf(c: Call): seq<CancelCommand> {
    if c.Cancel? && MayReach(c) then [CommandOf(c.cancel)] else []
  }

  function RetriesOf(c: Call): seq<PortRequest> {
    if c.Retry? && MayReach(c) then [RequestOf(RetryOutboxMessage, c.outbox)] else []
  }

  function ReplaysOf(c: Call): seq<PortRequest> {
    if c.Replay? && MayReach(c) then [RequestOf(ReplayMessage, c.outbox)] else []
  }

  lemma EffectOfCall(s: State, attached: bool, c: Call)
    ensures var (t, outcome) := Effect(s, attached, c);
      && Logs(s, t, attached, outcome, ActionOf(c), ActorOf(c), c.recorder, !HasUnsafeDetails(c))
      && t.cancels == s.cancels + CancelsOf(c) && t.retries == s.retries + RetriesOf(c)
          && t.replays == s.replays + ReplaysOf(c)
  {
    match c
    case Cancel(a, answer, recorder) => CancelLogs(s, attached, a, answer, recorder);
    case Retry(a, answer, recorder) => OutboxLogs(s, attached, RetryOutboxMessage, a, answer, recorder);
    case Replay(a, answer, recorder) => OutboxLogs(s, attached, ReplayMessage, a, answer, recorder);
  }

  /** The actor of the call holds the scopes that its action needs. */
  predicate HoldsScopes(c: Call) {
    var actor := ActorOf(c);
    && actor.Claims? && "operator:action" in actor.scopes
    && match c
       case Retry(_, _, _) => "outbox:retry" in actor.scopes
       case _ => true
  }

  lemma HoldsIff(c: Call)
    ensures HoldsScopes(c) <==> Permitted(ActorOf(c), ActionOf(c))
  {
  }

  lemma OutboxForbidden(s: State, attached: bool, action: Action, a: OutboxInput, answer: PortAnswer,
                        recorder: Recorder)
    requires OutboxEffect(s, attached, action, a, answer, recorder).1.Returned?
    ensures OutboxEffect(s, attached, action, a, answer, recorder).1.reply.cause.Forbidden? <==>
      ValidOutbox(a) && !Permitted(a.actor, action)
  {
  }

  /** The scopes decide: a valid call makes one request of its own collaborator if its actor holds "operator:action",
      and for a retry "outbox:retry" too, and none otherwise; an invalid one never does. A valid call without
      the scopes, if it returns, is rejected as forbidden, and no other call is. */
  lemma ScopesDecide(s: State, attached: bool, c: Call)
    ensures var (t, outcome) := Effect(s, attached, c); var asks := if IsValid(c) && HoldsScopes(c) then 1 else 0;
      && |t.cancels| == |s.cancels| + (if c.Cancel? then asks else 0)
      && |t.retries| == |s.retries| + (if c.Retry? then asks else 0)
      && |t.replays| == |s.replays| + (if c.Replay? then asks else 0)
      && (outcome.Returned? && IsValid(c) && !HoldsScopes(c) ==>
            outcome.reply.status.Rejected? && outcome.reply.cause.Forbidden?)
      && (outcome.Returned? && outcome.reply.cause.Forbidden? ==> IsValid(c) && !HoldsScopes(c))
  {
    EffectOfCall(s, attached, c);
    HoldsIff(c);
    if Effect(s, attached, c).1.Returned? {
      StatusIff(s, attached, c);
      match c
      case Cancel(_, _, _) =>
      case Retry(a, answer, recorder) => OutboxForbidden(s, attached, RetryOutboxMessage, a, answer, recorder);
      case Replay(a, answer, recorder) => OutboxForbidden(s, attached, ReplayMessage, a, answer, recorder);
    }
  }

  /** The collaborator was asked and did not refuse. */
  predicate Agreed(c: Call, duplicate: bool) {
    match c
    case Cancel(_, answer, _) => if duplicate then answer.DuplicateIgnored?
        else answer.Cancelled? || answer.AlreadyCancelled?
    case Retry(_, answer, _) => if duplicate then answer.DuplicateByPort? else answer.Recorded? || answer.Retryable?
    case Replay(_, answer, _) => if duplicate then answer.DuplicateByPort? else answer.Recorded? || answer.Retryable?
  }

  /** A reply says accepted or duplicate exactly when the call reached its collaborator and that said so. */
  lemma StatusIff(s: State, attached: bool, c: Call)
    requires Effect(s, attached, c).1.Returned?
    ensures var status := Effect(s, attached, c).1.reply.status;
      && (status.Accepted? <==> MayReach(c) && Agreed(c, false))
      && (status.Duplicate? <==> MayReach(c) && Agreed(c, true))
  {
    match c
    case Cancel(a, answer, recorder) =>
    case Retry(a, answer, recorder) => OutboxStatus(s, attached, RetryOutboxMessage, a, answer, recorder);
    case Replay(a, answer, recorder) => OutboxStatus(s, attached, ReplayMessage, a, answer, recorder);
  }

  lemma OutboxStatus(s: State, attached: bool, action: Action, a: OutboxInput, answer: PortAnswer, recorder: Recorder)
    requires OutboxEffect(s, attached, action, a, answer, recorder).1.Returned?
    ensures var status := OutboxEffect(s, attached, action, a, answer, recorder).1.reply.status;
      if ValidOutbox(a) && Permitted(a.actor, action) then status == StatusOf(answer) && !answer.PortRaises?
          else status == Rejected
  {
  }

  // ----- sequences of calls -----

  function Run(s: State, attached: bool, calls: seq<Call>): (State, seq<Outcome>) {
    if calls == [] then (s, [])
    else
      var before := Run(s, attached, calls[..|calls| - 1]);
      var (t, outcome) := Effect(before.0, attached, calls[|calls| - 1]);
      (t, before.1 + [outcome])
  }

  function AllCancels(calls: seq<Call>): seq<CancelCommand> {
    if calls == [] then [] else AllCancels(calls[..|calls| - 1]) + CancelsOf(calls[|calls| - 1])
  }

  function AllRetries(calls: seq<Call>): seq<PortRequest> {
    if calls == [] then [] else AllRetries(calls[..|calls| - 1]) + RetriesOf(calls[|calls| - 1])
  }

  function AllReplays(calls: seq<Call>): seq<PortRequest> {
    if calls == [] then [] else AllReplays(calls[..|calls| - 1]) + ReplaysOf(calls[|calls| - 1])
  }

  /** From `s` to `t` the handler and the ports were asked just these. */
  ghost predicate Asked(s: State, t: State, cancels: seq<CancelCommand>, retries: seq<PortRequest>,
                        replays: seq<PortRequest>) {
    t.cancels == s.cancels + cancels && t.retries == s.retries + retries && t.replays == s.replays + replays
  }

  lemma AskedTwice(s: State, mid: State, t: State, c: seq<CancelCommand>, r: seq<PortRequest>, p: seq<PortRequest>,
                   c': seq<CancelCommand>, r': seq<PortRequest>, p': seq<PortRequest>)
    requires Asked(s, mid, c, r, p) && Asked(mid, t, c', r', p')
    ensures Asked(s, t, c + c', r + r', p + p')
  {
  }

  lemma CallAsks(s: State, attached: bool, c: Call)
    ensures Asked(s, Effect(s, attached, c).0, CancelsOf(c), RetriesOf(c), ReplaysOf(c))
  {
    EffectOfCall(s, attached, c);
  }

  /** Over any sequence of calls, the handler and the ports are asked once for each valid call whose actor has
      the scopes, in order, and never for any other. */
  lemma {:induction false} RunReaches(s: State, attached: bool, calls: seq<Call>)
    ensures Asked(s, Run(s, attached, calls).0, AllCancels(calls), AllRetries(calls), AllReplays(calls))
  {
    if calls != [] {
      var first, c := calls[..|calls| - 1], calls[|calls| - 1];
      var mid, t := Run(s, attached, first).0, Run(s, attached, calls).0;
      RunReaches(s, attached, first);
      CallAsks(mid, attached, c);
      AskedTwice(s, mid, t, AllCancels(first), AllRetries(first), AllReplays(first), CancelsOf(c), RetriesOf(c),
        ReplaysOf(c));
    }
  }

  lemma RunLast(s: State, attached: bool, calls: seq<Call>, c: Call)
    ensures var (before, outcomes) := Run(s, attached, calls); var (t, outcome) := Effect(before, attached, c);
      Run(s, attached, calls + [c]) == (t, outcomes + [outcome])
  {
    assert (calls + [c])[..|calls|] == calls;
  }

  ghost predicate AllReturn(outcomes: seq<Outcome>) {
    forall i :: 0 <= i < |outcomes| ==> outcomes[i].Returned?
  }

  /** The log has gained one record a call, in order, with the actor and action of the call and the outcome,
      key and target of its reply. */
  ghost predicate IsAudited(before: seq<AuditRecord>, audit: seq<AuditRecord>, calls: seq<Call>,
                            outcomes: seq<Outcome>) {
    && |outcomes| == |calls| && |audit| == |before| + |calls| && audit[..|before|] == before
    && forall i :: 0 <= i < |calls| ==>
        outcomes[i].Returned? && IsRecordOf(audit[|before| + i], calls[i], outcomes[i].reply)
  }

  predicate IsRecordOf(record: AuditRecord, c: Call, reply: Reply) {
    Agrees(record, reply) && record.action == ActionOf(c) && record.actor == ActorOf(c)
  }

  lemma AuditedAppend(before: seq<AuditRecord>, audit: seq<AuditRecord>, calls: seq<Call>, outcomes: seq<Outcome>,
                      record: AuditRecord, c: Call, outcome: Outcome)
    requires IsAudited(before, audit, calls, outcomes) && outcome.Returned? && IsRecordOf(record, c, outcome.reply)
    ensures IsAudited(before, audit + [record], calls + [c], outcomes + [outcome])
  {
  }

  lemma CallAudits(s: State, c: Call) returns (record: AuditRecord)
    requires Effect(s, true, c).1.Returned?
    ensures Effect(s, true, c).0.audit == s.audit + [record] && IsRecordOf(record, c, Effect(s, true, c).1.reply)
  {
    var (t, outcome) := Effect(s, true, c);
    EffectOfCall(s, true, c);
    record := LoggedRecord(s, t, outcome, c);
  }

  lemma LoggedRecord(s: State, t: State, outcome: Outcome, c: Call) returns (record: AuditRecord)
    requires Logs(s, t, true, outcome, ActionOf(c), ActorOf(c), c.recorder, !HasUnsafeDetails(c)) && outcome.Returned?
    ensures t.audit == s.audit + [record] && IsRecordOf(record, c, outcome.reply)
  {
    record := t.audit[|s.audit|];
  }

  lemma AuditedRun(before: seq<AuditRecord>, s: State, calls: seq<Call>, outcomes: seq<Outcome>, c: Call, t: State,
                   outcome: Outcome)
    requires IsAudited(before, s.audit, calls, outcomes) && (t, outcome) == Effect(s, true, c) && outcome.Returned?
    ensures IsAudited(before, t.audit, calls + [c], outcomes + [outcome])
  {
    var record := CallAudits(s, c);
    AuditedAppend(before, s.audit, calls, outcomes, record, c, outcome);
  }

  lemma ReturnsSplit(outcomes: seq<Outcome>, outcome: Outcome)
    requires AllReturn(outcomes + [outcome])
    ensures AllReturn(outcomes) && outcome.Returned?
  {
    assert (outcomes + [outcome])[|outcomes|] == outcome;
    assert forall i :: 0 <= i < |outcomes| ==> (outcomes + [outcome])[i] == outcomes[i];
  }

  /** Over any sequence of calls that return, with a repository attached, the log gains exactly their records. */
  lemma {:induction false} RunAudits(s: State, calls: seq<Call>)
    requires AllReturn(Run(s, true, calls).1)
    ensures IsAudited(s.audit, Run(s, true, calls).0.audit, calls, Run(s, true, calls).1)
  {
    if calls != [] {
      var first, c := calls[..|calls| - 1], calls[|calls| - 1];
      var (before, outcomes) := Run(s, true, first);
      var (t, outcome) := Effect(before, true, c);
      RunLast(s, true, first, c);
      assert calls == first + [c];
      ReturnsSplit(outcomes, outcome);
      RunAudits(s, first);
      AuditedRun(s.audit, before, first, outcomes, c, t, outcome);
    }
  }

  // ----- lost replies -----

  /** The call gets as far as a record with a reason: a cancellation is valid, and if it may reach the handler,
      that does not raise and says why if it refuses; an outbox call has texts missing but was made with
      claims at an aware time, or it is valid, and if it may reach its port, that does not raise. */
  predicate GetsToRecord(c: Call) {
    match c
    case Cancel(a, answer, _) =>
      && ValidCancel(a)
      && (Permitted(a.actor, CancelOrder) ==> !answer.HandlerRaises? && answer != RejectedWith(""))
    case Retry(a, answer, _) => OutboxGetsToRecord(RetryOutboxMessage, a, answer)
    case Replay(a, answer, _) => OutboxGetsToRecord(ReplayMessage, a, answer)
  }

  predicate OutboxGetsToRecord(action: Action, a: OutboxInput, answer: PortAnswer) {
    || (a.awareTime && !ValidFields(a) && a.actor.Claims?)
    || (ValidOutbox(a) && (Permitted(a.actor, action) ==> !answer.PortRaises?))
  }

  /** A record was kept exactly when `recorded`, and a reply given exactly when `returned`. */
  predicate Ends(s: State, effect: (State, Outcome), recorded: bool, returned: bool) {
    (effect.0.audit != s.audit <==> recorded) && (effect.1.Returned? <==> returned)
  }

  /** The repository, if there is one, keeps the record and returns an id that is not blank, or none. */
  predicate Confirms(attached: bool, recorder: Recorder) {
    attached ==> recorder.Keeps? && !HasBlankId(recorder)
  }

  lemma ConcludedEnds(s: State, attached: bool, record: AuditRecord, recorder: Recorder, safe: bool, cause: Cause)
    ensures var reached := !Blank(record.reason);
      Ends(s, Concluded(s, attached, record, recorder, safe, cause), attached && recorder.Keeps? && reached,
           Confirms(attached, recorder) && reached && safe)
  {
  }

  lemma RequestedEnds(s: State, attached: bool, action: Action, r: PortRequest, answer: PortAnswer, recorder: Recorder)
    requires !Blank(r.reason)
    ensures var reached := Permitted(r.actor, action) ==> !answer.PortRaises?;
      Ends(s, Requested(s, attached, action, r, answer, recorder), attached && recorder.Keeps? && reached,
           Confirms(attached, recorder) && reached)
  {
    ConcludedEnds(s, attached, OutboxRecord(action, r, Rejected), recorder, true, Forbidden);
    ConcludedEnds(Called(s, action, r), attached, OutboxRecord(action, r, StatusOf(answer)), recorder, true, Handled);
  }

  lemma InvalidEnds(s: State, attached: bool, action: Action, a: OutboxInput, recorder: Recorder)
    ensures Ends(s, Concluded(s, attached, InvalidRecord(action, a), recorder, a.safeDetails, Invalid),
                 attached && recorder.Keeps?, Confirms(attached, recorder) && a.safeDetails)
  {
    ConcludedEnds(s, attached, InvalidRecord(action, a), recorder, a.safeDetails, Invalid);
  }

  lemma OutboxEnds(s: State, attached: bool, action: Action, a: OutboxInput, answer: PortAnswer, recorder: Recorder)
    ensures var reached := OutboxGetsToRecord(action, a, answer);
      Ends(s, OutboxEffect(s, attached, action, a, answer, recorder), attached && recorder.Keeps? && reached,
           Confirms(attached, recorder) && reached && (ValidFields(a) || a.safeDetails))
  {
    if ValidOutbox(a) {
      RequestedEnds(s, attached, action, RequestOf(action, a), answer, recorder);
    } else if a.awareTime && !ValidFields(a) && a.actor.Claims? {
      InvalidEnds(s, attached, action, a, recorder);
    }
  }

  lemma CancelEnds(s: State, attached: bool, a: CancelInput, answer: HandlerAnswer, recorder: Recorder)
    ensures var reached := GetsToRecord(Cancel(a, answer, recorder));
      Ends(s, CancelEffect(s, attached, a, answer, recorder), attached && recorder.Keeps? && reached,
           Confirms(attached, recorder) && reached)
  {
    if ValidCancel(a) {
      if !Permitted(a.actor, CancelOrder) {
        ConcludedEnds(s, attached, CancelRecord(a, Rejected, PermissionSummary(CancelOrder)), recorder, true,
          Forbidden);
      } else {
        var called := s.(cancels := s.cancels + [CommandOf(a)]);
        var summary := CancelSummary(answer, a.orderId.value);
        ConcludedEnds(called, attached, CancelRecord(a, Rejected, summary), recorder, true, Refused);
        ConcludedEnds(called, attached, CancelRecord(a, Duplicate, summary), recorder, true, Handled);
        ConcludedEnds(called, attached, CancelRecord(a, Accepted, summary), recorder, true, Handled);
      }
    }
  }

  /** When a call leaves a record, and when it returns. */
  lemma EndsIff(s: State, attached: bool, c: Call)
    ensures Ends(s, Effect(s, attached, c), attached && c.recorder.Keeps? && GetsToRecord(c),
                 Confirms(attached, c.recorder) && GetsToRecord(c) && !HasUnsafeDetails(c))
  {
    match c
    case Cancel(a, answer, recorder) => CancelEnds(s, attached, a, answer, recorder);
    case Retry(a, answer, recorder) => OutboxEnds(s, attached, RetryOutboxMessage, a, answer, recorder);
    case Replay(a, answer, recorder) => OutboxEnds(s, attached, ReplayMessage, a, answer, recorder);
  }

  /** A call leaves a record and raises nevertheless exactly when it gets as far as the record, and the repository
      keeps that but returns a blank id, or the call has texts missing and something that is not JSON-safe in
      their place. */
  lemma LostReplyIff(s: State, c: Call)
    ensures Effect(s, true, c).0.audit != s.audit && Effect(s, true, c).1.Raised? <==>
      c.recorder.Keeps? && GetsToRecord(c) && (HasBlankId(c.recorder) || HasUnsafeDetails(c))
  {
    EndsIff(s, true, c);
  }

  // ----- derived keys -----

  lemma SamePrefix(prefix: string, s: string, t: string)
    ensures prefix + s == prefix + t <==> s == t
  {
    assert (prefix + s)[|prefix|..] == s && (prefix + t)[|prefix|..] == t;
  }

  lemma PlainFirst(x: string, o: string, y: string, p: string)
    requires ':' !in x && ':' !in y
    ensures x + ":" + o == y + ":" + p <==> x == y && o == p
  {
    JoinedCollideIff(x, o, y, p, ':');
  }

  /** The derived key of a cancellation determines the order, whose id has no colon, and the request. */
  lemma CancelKeysSeparate(orderId: string, requestId: string, otherOrder: string, otherRequest: string)
    requires ':' !in orderId && ':' !in otherOrder
    ensures DerivedCancelKey(orderId, requestId) == DerivedCancelKey(otherOrder, otherRequest) <==>
      orderId == otherOrder && requestId == otherRequest
  {
    SamePrefix("operator:cancelOrder:", orderId + ":" + requestId, otherOrder + ":" + otherRequest);
    PlainFirst(orderId, requestId, otherOrder, otherRequest);
  }

  lemma PlainNames(action: Action, kind: Kind)
    ensures ':' !in NameOf(action) && ':' !in KindName(kind)
    ensures NameOf(action) == NameOf(RetryOutboxMessage) <==> action == RetryOutboxMessage
    ensures NameOf(action) == NameOf(ReplayMessage) <==> action == ReplayMessage
    ensures KindName(kind) == "EVENT" <==> kind.Event?
  {
    assert |NameOf(CancelOrder)| == 11 && |NameOf(RetryOutboxMessage)| == 18 && |NameOf(ReplayMessage)| == 13;
    assert |KindName(Event)| == 5 && |KindName(Command)| == 7;
  }

  /** Derived keys of outbox actions collide exactly when action and kind agree and message and request do too,
      or the one identity continues the other after a colon and the request ids make up for it. */
  lemma OutboxKeysCollideIff(action: Action, kind: Kind, identity: string, requestId: string,
                             otherAction: Action, otherKind: Kind, otherIdentity: string, otherRequest: string)
    requires action != CancelOrder && otherAction != CancelOrder
    ensures var key := DerivedOutboxKey(action, KindName(kind), identity, requestId);
      var otherKey := DerivedOutboxKey(otherAction, KindName(otherKind), otherIdentity, otherRequest);
      key == otherKey <==>
        && action == otherAction && kind == otherKind
        && ((identity == otherIdentity && requestId == otherRequest)
            || Shifted(identity, requestId, otherIdentity, otherRequest, ':')
            || Shifted(otherIdentity, otherRequest, identity, requestId, ':'))
  {
    PlainNames(action, kind);
    PlainNames(otherAction, otherKind);
    var tail, otherTail := identity + ":" + requestId, otherIdentity + ":" + otherRequest;
    JoinedCollideIff(identity, requestId, otherIdentity, otherRequest, ':');
    PlainFirst(KindName(kind), tail, KindName(otherKind), otherTail);
    PlainFirst(NameOf(action), KindName(kind) + ":" + tail, NameOf(otherAction), KindName(otherKind) + ":" + otherTail);
    SamePrefix("operator:", NameOf(action) + ":" + (KindName(kind) + ":" + tail), NameOf(otherAction) + ":"
      + (KindName(otherKind) + ":" + otherTail));
  }
}
