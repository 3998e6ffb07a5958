/**
 What operator actions ask, record and reply (app/token_payments/api/operator_actions.py), field by field, from the
 arguments and the answers alone.
 */
module OperatorRecords {
  import opened Wrappers
  import opened TextTools
  import opened OperatorActions

  // ----- which calls reach their collaborator -----

  /** All that a cancellation needs besides the scopes. */
  predicate IsCompleteCancel(a: CancelInput) {
    && a.actor.Claims? && a.orderId.Some? && a.reason != "" && a.requestId != "" && a.key != Some("")
    && a.awareTime && a.goodEventId && a.safeParameters
  }

  predicate HasTexts(a: OutboxInput) {
    a.kind in ["EVENT", "COMMAND"] && a.identity != "" && a.reason != ""
  }

  predicate IsCompleteOutbox(a: OutboxInput) {
    a.actor.Claims? && HasTexts(a) && a.requestId != "" && a.key != Some("") && a.awareTime && a.safeParameters
  }

  predicate IsComplete(c: Call) {
    match c
    case Cancel(a, _, _) => IsCompleteCancel(a)
    case Retry(a, _, _) => IsCompleteOutbox(a)
    case Replay(a, _, _) => IsCompleteOutbox(a)
  }

  lemma CompleteIff(c: Call)
    ensures IsComplete(c) <==> IsValid(c)
    ensures !c.Cancel? ==> (HasTexts(c.outbox) <==> ValidFields(c.outbox))
  {
  }

  // ----- what is asked -----

  /** `key`, or else these parts with colons between them. */
  function KeyOrJoined(key: Option<string>, parts: seq<string>): string {
    match key
    case Some(text) => text
    case None => Join(parts, ":")
  }

  lemma JoinFirst(first: string, rest: seq<string>)
    requires rest != []
    ensures Join([first] + rest, ":") == first + ":" + Join(rest, ":")
  {
    assert ([first] + rest)[1..] == rest;
  }

  lemma JoinThree(a: string, b: string, c: string)
    ensures Join([a, b, c], ":") == a + ":" + (b + ":" + c)
  {
    JoinFirst(b, [c]);
    JoinFirst(a, [b, c]);
    assert [a] + [b, c] == [a, b, c] && [b] + [c] == [b, c];
  }

  lemma JoinFour(a: string, b: string, c: string, d: string)
    ensures Join([a, b, c, d], ":") == a + ":" + (b + ":" + (c + ":" + d))
  {
    JoinThree(b, c, d);
    JoinFirst(a, [b, c, d]);
    assert [a] + [b, c, d] == [a, b, c, d];
  }

  lemma OutboxKeyIs(action: Action, kind: string, identity: string, requestId: string)
    requires action != CancelOrder
    ensures DerivedOutboxKey(action, kind, identity, requestId) ==
      Join([if action == RetryOutboxMessage then "operator:retryOutboxMessage" else "operator:replayMessage",
            kind, identity, requestId], ":")
  {
    var first := if action == RetryOutboxMessage then "operator:retryOutboxMessage" else "operator:replayMessage";
    JoinFour(first, kind, identity, requestId);
    assert "operator:" + NameOf(action) == first;
    var rest := kind + ":" + (identity + ":" + requestId);
    assert "operator:" + (NameOf(action) + ":" + rest) == "operator:" + NameOf(action) + ":" + rest;
  }

  lemma CancelKeyIs(orderId: string, requestId: string)
    ensures DerivedCancelKey(orderId, requestId) == Join(["operator:cancelOrder", orderId, requestId], ":")
  {
    JoinThree("operator:cancelOrder", orderId, requestId);
    assert "operator:cancelOrder:" == "operator:cancelOrder" + ":";
  }

  function CancelAsked(a: CancelInput): CancelCommand
    requires a.orderId.Some?
  {
    CancelCommand(a.orderId.value, KeyOrJoined(a.key, [a.orderId.value, "CancelOrderCommand"]), a.reason, a.requestId)
  }

  function PortAsked(name: string, a: OutboxInput): PortRequest {
    PortRequest(if a.kind == "EVENT" then Event else Command, a.identity, a.reason, a.actor, a.requestId,
                KeyOrJoined(a.key, [name, a.kind, a.identity, a.requestId]))
  }

  lemma PortAskedIs(action: Action, a: OutboxInput)
    requires action != CancelOrder && ValidOutbox(a)
    ensures RequestOf(action, a) ==
      PortAsked(if action == RetryOutboxMessage then "operator:retryOutboxMessage" else "operator:replayMessage", a)
  {
    OutboxKeyIs(action, a.kind, a.identity, a.requestId);
  }

  lemma CancelAskedIs(a: CancelInput)
    requires ValidCancel(a)
    ensures CommandOf(a) == CancelAsked(a)
  {
    JoinFirst(a.orderId.value, ["CancelOrderCommand"]);
    assert [a.orderId.value] + ["CancelOrderCommand"] == [a.orderId.value, "CancelOrderCommand"];
    assert a.orderId.value + ":CancelOrderCommand" == a.orderId.value + ":" + "CancelOrderCommand";
  }

  /** A complete call of an actor with the scopes asks its own collaborator once, in these words; no other asks. */
  lemma AskedIs(s: State, attached: bool, c: Call)
    ensures var t := Effect(s, attached, c).0; var asks := IsComplete(c) && HoldsScopes(c);
      && t.cancels == s.cancels + (if c.Cancel? && asks then [CancelAsked(c.cancel)] else [])
      && t.retries ==
           s.retries + (if c.Retry? && asks then [PortAsked("operator:retryOutboxMessage", c.outbox)] else [])
      && t.replays == s.replays + (if c.Replay? && asks then [PortAsked("operator:replayMessage", c.outbox)] else [])
  {
    EffectOfCall(s, attached, c);
    CompleteIff(c);
    if IsValid(c) {
      match c
      case Cancel(a, _, _) => CancelAskedIs(a);
      case Retry(a, _, _) => PortAskedIs(RetryOutboxMessage, a);
      case Replay(a, _, _) => PortAskedIs(ReplayMessage, a);
    }
  }

  // ----- what is recorded -----

  /** The record of a cancellation. */
  function CancelRecorded(a: CancelInput, answer: HandlerAnswer): AuditRecord
    requires a.orderId.Some?
  {
    var id := a.orderId.value;
    var (outcome, reason) :=
      if !HoldsScopes(Cancel(a, answer, RecordRaises)) then
        (Rejected, "operator:action permission is required to execute cancelOrder")
      else
        match answer
        case Cancelled => (Accepted, "CANCELLED for order " + id + ".")
        case AlreadyCancelled => (Accepted, "ALREADY_CANCELLED for order " + id + ".")
        case DuplicateIgnored => (Duplicate, "DUPLICATE_IGNORED for order " + id + ".")
        case RejectedWith(message) => (Rejected, message)
        case HandlerRaises => (Rejected, "");
    AuditRecord(a.actor, CancelOrder, id, KeyOrJoined(a.key, ["operator:cancelOrder", id, a.requestId]), a.requestId,
                outcome, reason)
  }

  /** The record of an outbox call with all texts. */
  function OutboxRecorded(action: Action, name: string, a: OutboxInput, answer: PortAnswer,
                          permitted: bool): AuditRecord {
    AuditRecord(a.actor, action, a.identity, KeyOrJoined(a.key, [name, a.kind, a.identity, a.requestId]), a.requestId,
                if !permitted then Rejected
                else match answer
                     case Recorded => Accepted
                     case Retryable => Accepted
                     case DuplicateByPort => Duplicate
                     case RejectedByPort => Rejected
                     case PortRaises => Rejected,
                a.reason)
  }

  function Or(text: string, other: string): string {
    if text != "" then text else other
  }

  /** The record of an outbox call with texts missing. */
  function InvalidRecorded(action: Action, name: string, a: OutboxInput): AuditRecord {
    var target, requestId := Or(a.identity, "<empty>"), Or(a.requestId, "<missing-request-id>");
    AuditRecord(a.actor, action, target,
                KeyOrJoined(if a.key == Some("") then None else a.key,
                            [name, Or(a.kind, "<invalid-kind>"), target, requestId]),
                requestId, Rejected, Or(a.reason, "Invalid operator outbox action request: " + Problem(a) + "."))
  }

  /** The first text that is missing or wrong. */
  function Problem(a: OutboxInput): string {
    if a.kind == "" then "messageKind must be a non-empty string"
    else if a.kind !in ["EVENT", "COMMAND"] then "'" + a.kind + "' is not a valid OutboxMessageKind"
    else if a.identity == "" then "messageIdentity must be a non-empty string"
    else "reason must be a non-empty string"
  }

  lemma ProblemIs(a: OutboxInput)
    requires KindOf(a.kind).Some?
    ensures (if Blank(a.identity) then "messageIdentity" else "reason") + " must be a non-empty string" == Problem(a)
  {
    assert "messageIdentity" + " must be a non-empty string" == "messageIdentity must be a non-empty string";
    assert "reason" + " must be a non-empty string" == "reason must be a non-empty string";
  }

  lemma SummaryIs(a: OutboxInput)
    ensures InvalidSummary(a) == "Invalid operator outbox action request: " + Problem(a) + "."
  {
    if KindOf(a.kind).Some? {
      ProblemIs(a);
    }
  }

  /** The log gets this record or none, and a reply agrees with the record, down to the id of the repository. */
  ghost predicate Records(s: State, effect: (State, Outcome), attached: bool, record: AuditRecord, recorder: Recorder) {
    && effect.0.audit == s.audit + (if effect.0.audit != s.audit then [record] else [])
    && (effect.1.Returned? ==>
          var reply := effect.1.reply;
          && reply.status == record.outcome && reply.action == record.action && reply.target == record.target
          && reply.key == record.key
          && reply.auditId == if attached && recorder.Keeps? then recorder.id else None)
  }

  lemma ConcludedRecords(s: State, attached: bool, record: AuditRecord, recorder: Recorder, safe: bool, cause: Cause)
    ensures Records(s, Concluded(s, attached, record, recorder, safe, cause), attached, record, recorder)
  {
  }

  lemma CancelRecords(s: State, attached: bool, a: CancelInput, answer: HandlerAnswer, recorder: Recorder)
    requires ValidCancel(a)
    ensures Records(s, CancelEffect(s, attached, a, answer, recorder), attached, CancelRecorded(a, answer), recorder)
  {
    CancelKeyIs(a.orderId.value, a.requestId);
    PermissionIs(CancelOrder);
    var called := s.(cancels := s.cancels + [CommandOf(a)]);
    var record := CancelRecorded(a, answer);
    ConcludedRecords(s, attached, record, recorder, true, Forbidden);
    ConcludedRecords(called, attached, record, recorder, true, Refused);
    ConcludedRecords(called, attached, record, recorder, true, Handled);
  }

  lemma PermissionIs(action: Action)
    ensures PermissionSummary(CancelOrder) == "operator:action permission is required to execute cancelOrder"
  {
  }

  // ----- texts as given -----

  /** Two texts that differ in the white space around them at most; or both are missing. */
  predicate SameStripped(a: Option<string>, b: Option<string>) {
    (a.Some? <==> b.Some?) && (a.Some? ==> Strip(a.value, IsSpace) == Strip(b.value, IsSpace))
  }

  function TextOf(t: RawText): Option<string> {
    match t
    case Text(s) => Some(s)
    case NotText(_) => None
  }

  /** A cancellation is taken the same with other white space around its texts, and its texts have none. */
  lemma CancelStripped(a: CancelInput, b: CancelInput)
    ensures TrimCancel(a) == TrimCancel(b) <==>
      && a.actor == b.actor && a.orderId == b.orderId && a.awareTime == b.awareTime
      && a.goodEventId == b.goodEventId && a.safeParameters == b.safeParameters
      && SameStripped(Some(a.reason), Some(b.reason)) && SameStripped(Some(a.requestId), Some(b.requestId))
      && SameStripped(a.key, b.key)
    ensures TrimCancel(a).reason == Strip(a.reason, IsSpace) && TrimCancel(a).requestId == Strip(a.requestId, IsSpace)
    ensures SameStripped(a.key, None) ==> TrimCancel(a).key == None
    ensures a.key.Some? ==> TrimCancel(a).key == Some(Strip(a.key.value, IsSpace))
  {
  }

  /** So is an outbox call; a text of another type is taken as blank, and is safe in details only if it is JSON-safe. */
  lemma OutboxStripped(a: RawOutbox)
    ensures var t := TrimOutbox(a);
      && t.actor == a.actor && t.awareTime == a.awareTime && t.safeParameters == a.safeParameters
      && t.kind == Strip(a.kind, IsSpace) && t.requestId == Strip(a.requestId, IsSpace)
      && (a.key.None? ==> t.key.None?) && (a.key.Some? ==> t.key == Some(Strip(a.key.value, IsSpace)))
      && t.identity == (match TextOf(a.identity) case Some(s) => Strip(s, IsSpace) case None => "")
      && t.reason == (match TextOf(a.reason) case Some(s) => Strip(s, IsSpace) case None => "")
      && (t.safeDetails <==> a.identity != NotText(false) && a.reason != NotText(false))
  {
  }

  /** The message of a refusal and the id of a repository are stripped; nothing else of an answer changes. */
  lemma AnswersStripped(answer: HandlerAnswer, recorder: Recorder)
    ensures TrimAnswer(answer) ==
      if answer.RejectedWith? then RejectedWith(Strip(answer.message, IsSpace)) else answer
    ensures recorder == RecordRaises || recorder == Keeps(None) ==> TrimRecorder(recorder) == recorder
    ensures recorder.Keeps? && recorder.id.Some? ==>
      TrimRecorder(recorder) == Keeps(Some(Strip(recorder.id.value, IsSpace)))
  {
  }

  lemma RequestRecords(s: State, attached: bool, action: Action, name: string, a: OutboxInput, answer: PortAnswer,
                       recorder: Recorder)
    requires action != CancelOrder && ValidOutbox(a)
    requires name == if action == RetryOutboxMessage then "operator:retryOutboxMessage" else "operator:replayMessage"
    ensures Records(s, OutboxEffect(s, attached, action, a, answer, recorder), attached,
                    OutboxRecorded(action, name, a, answer, Permitted(a.actor, action)), recorder)
  {
    PortAskedIs(action, a);
    var r := RequestOf(action, a);
    ConcludedRecords(s, attached, OutboxRecord(action, r, Rejected), recorder, true, Forbidden);
    var record := OutboxRecord(action, r, StatusOf(answer));
    ConcludedRecords(Called(s, action, r), attached, record, recorder, true, Handled);
  }

  lemma InvalidRecordIs(action: Action, name: string, a: OutboxInput)
    requires action != CancelOrder && !ValidFields(a)
    requires name == if action == RetryOutboxMessage then "operator:retryOutboxMessage" else "operator:replayMessage"
    ensures InvalidRecord(action, a) == InvalidRecorded(action, name, a)
  {
    SummaryIs(a);
    OutboxKeyIs(action, Or(a.kind, "<invalid-kind>"), Or(a.identity, "<empty>"),
      Or(a.requestId, "<missing-request-id>"));
  }

  lemma InvalidRecords(s: State, attached: bool, action: Action, name: string, a: OutboxInput, answer: PortAnswer,
                       recorder: Recorder)
    requires action != CancelOrder && !ValidFields(a)
    requires name == if action == RetryOutboxMessage then "operator:retryOutboxMessage" else "operator:replayMessage"
    ensures Records(s, OutboxEffect(s, attached, action, a, answer, recorder), attached,
                    InvalidRecorded(action, name, a), recorder)
  {
    InvalidRecordIs(action, name, a);
    ConcludedRecords(s, attached, InvalidRecord(action, a), recorder, a.safeDetails, Invalid);
  }

  lemma OutboxRecords(s: State, attached: bool, action: Action, name: string, a: OutboxInput, answer: PortAnswer,
                      recorder: Recorder)
    requires action != CancelOrder
    requires name == if action == RetryOutboxMessage then "operator:retryOutboxMessage" else "operator:replayMessage"
    ensures Records(s, OutboxEffect(s, attached, action, a, answer, recorder), attached,
                    if HasTexts(a) then OutboxRecorded(action, name, a, answer, Permitted(a.actor, action))
                    else InvalidRecorded(action, name, a), recorder)
  {
    CompleteIff(Retry(a, answer, recorder));
    if ValidOutbox(a) {
      RequestRecords(s, attached, action, name, a, answer, recorder);
    } else if !ValidFields(a) {
      InvalidRecords(s, attached, action, name, a, answer, recorder);
    }
  }

  /** The record of a call. */
  function RecordOf(c: Call): AuditRecord
    requires c.Cancel? ==> c.cancel.orderId.Some?
  {
    match c
    case Cancel(a, answer, _) => CancelRecorded(a, answer)
    case Retry(a, answer, _) =>
      if HasTexts(a) then OutboxRecorded(RetryOutboxMessage, "operator:retryOutboxMessage", a, answer, HoldsScopes(c))
      else InvalidRecorded(RetryOutboxMessage, "operator:retryOutboxMessage", a)
    case Replay(a, answer, _) =>
      if HasTexts(a) then OutboxRecorded(ReplayMessage, "operator:replayMessage", a, answer, HoldsScopes(c))
      else InvalidRecorded(ReplayMessage, "operator:replayMessage", a)
  }

  /** Every call leaves its record or none, and a reply says what the record says. */
  lemma RecordedIs(s: State, attached: bool, c: Call)
    ensures c.Cancel? && c.cancel.orderId.None? ==> Effect(s, attached, c) == (s, Raised)
    ensures (c.Cancel? ==> c.cancel.orderId.Some?) ==>
      Records(s, Effect(s, attached, c), attached, RecordOf(c), c.recorder)
  {
    match c
    case Cancel(a, answer, recorder) =>
      if ValidCancel(a) {
        CancelRecords(s, attached, a, answer, recorder);
      }
    case Retry(a, answer, recorder) =>
      OutboxRecords(s, attached, RetryOutboxMessage, "operator:retryOutboxMessage", a, answer, recorder);
    case Replay(a, answer, recorder) =>
      OutboxRecords(s, attached, ReplayMessage, "operator:replayMessage", a, answer, recorder);
  }
}
