/** The bounded execution metadata of automation logs: what an executor writes, a
    reader that trusts nothing, and the contract on which they meet. */
module ExecutionMetadata {
  import opened Basics
  import opened AlertRows

  const MAX_SAFE_ID := 9_007_199_254_740_991
  const MAX_BYTES := 1024

  /** Version 1 of the object; id 0 stands for an omitted id. */
  datatype Meta = Meta(
    stage: string, reason: string, sourceNode: nat, sourcePolicy: nat, sourceTask: nat, sourceRun: nat,
      targetPolicy: nat)

  predicate PolicyAction(action: string) { action == "pause_policy" || action == "disable_policy" }

  predicate KnownAction(action: string) {
    PolicyAction(action) || action == "trigger_task" || action == "send_notification"
  }

  predicate BackupEvent(event: string) { event == "backup_succeeded" || event == "backup_failed" }

  // ------------------------------------------------------------------ reading

  /** A member's raw JSON value: a number or other bare token by its text, a string
      by its decoded value. */
  datatype Raw = Bare(text: string) | Quoted(value: string)

  /** The raw members of the nested object, as the reader's struct receives them, and
      the length of the object in bytes. */
  datatype Object = Object(
    version: Option<Raw>, stage: Option<Raw>, reason: Option<Raw>, sourceNode: Option<Raw>, sourcePolicy: Option<Raw>,
    sourceTask: Option<Raw>, sourceRun: Option<Raw>, targetPolicy: Option<Raw>, length: nat)

  predicate AllDigits(s: string) { forall i :: 0 <= i < |s| ==> '0' <= s[i] <= '9' }

  predicate SafeId(n: int) { 0 < n <= MAX_SAFE_ID }

  /** Positive decimal integers that a browser represents exactly, and nothing else. */
  function IdOf(raw: Raw): nat {
    if raw.Quoted? || raw.text == [] || !('1' <= raw.text[0] <= '9') then 0
    else if !AllDigits(raw.text) || Value(raw.text) > MAX_SAFE_ID then 0
    else Value(raw.text)
  }

  function IdIn(raw: Option<Raw>): nat { if raw.Some? then IdOf(raw.value) else 0 }

  predicate ValidBoundary(stage: string, reason: string, action: string, result: string) {
    if result == "success" && reason == "" && stage == "policy_updated" then PolicyAction(action)
    else if result == "success" && reason == "" && (stage == "task_trigger_accepted" || stage == "task_run_reserved")
      then action == "trigger_task"
    else if result == "success" && reason == "" && stage == "notification_recorded" then action == "send_notification"
    else if result != "error" then false
    else if stage == "action_validation" then
      (reason == "INVALID_TARGET" || reason == "EXECUTOR_UNAVAILABLE" || reason == "TRANSACTIONAL_EXECUTOR_UNAVAILABLE"
       || reason == "POLICY_CONTROLLER_UNAVAILABLE") || (reason == "UNSUPPORTED_ACTION" && !KnownAction(action))
    else if stage == "action_execution" then
      (PolicyAction(action) || action == "trigger_task") &&
      (reason == "CONTEXT_CANCELED" || reason == "DEADLINE_EXCEEDED" || reason == "TARGET_NOT_FOUND"
        || reason == "ACTION_FAILED")
    else false
  }

  predicate TrustedBoundary(o: Object, action: string, result: string) {
    && o.stage.Some? && o.stage.value.Quoted?
    && (o.reason.Some? ==> o.reason.value.Quoted?)
    && ValidBoundary(o.stage.value.value, if o.reason.Some? then o.reason.value.value else "", action, result)
  }

  function Read(nested: Option<Object>, event: string, action: string, result: string): Option<Meta> {
    if nested.None? || nested.value.length > MAX_BYTES then None
    else
      var o := nested.value;
      if o.version.None? || o.version.value != Bare("1") then None
      else
        var trusted := TrustedBoundary(o, action, result);
        var stage := if trusted then o.stage.value.value else "unknown";
        var reason := if trusted && o.reason.Some? then o.reason.value.value else "";
        var node := if BackupEvent(event) || event == "anomaly_detected" then IdIn(o.sourceNode) else 0;
        var policy := if BackupEvent(event) || event == "drill_failed" then IdIn(o.sourcePolicy) else 0;
        var paired := BackupEvent(event) && IdIn(o.sourceTask) != 0 && IdIn(o.sourceRun) != 0;
        var target := if result == "success" && PolicyAction(action) then IdIn(o.targetPolicy) else 0;
        Some(Meta(stage, reason, node, policy, if paired then IdIn(o.sourceTask) else 0,
                  if paired then IdIn(o.sourceRun) else 0, target))
  }

  // ------------------------------------------------------------------ writing

  function IdText(name: string, n: nat): string { if n == 0 then "" else ",\"" + name + "\":" + Digits(n) }

  /** The compact encoding, omitting an empty reason and ids that are zero. */
  function Text(m: Meta): string {
    "{\"version\":1,\"stage\":\"" + m.stage + "\""
      + (if m.reason == "" then "" else ",\"reason_code\":\"" + m.reason + "\"")
    + IdText("source_node_id", m.sourceNode) + IdText("source_policy_id", m.sourcePolicy)
    + IdText("source_task_id", m.sourceTask) + IdText("source_task_run_id", m.sourceRun)
    + IdText("target_policy_id", m.targetPolicy) + "}"
  }

  function IdMember(n: nat): Option<Raw> { if n == 0 then None else Some(Bare(Digits(n))) }

  function Marshal(m: Meta): Object {
    Object(Some(Bare("1")), Some(Quoted(m.stage)), if m.reason == "" then None else Some(Quoted(m.reason)),
           IdMember(m.sourceNode), IdMember(m.sourcePolicy), IdMember(m.sourceTask), IdMember(m.sourceRun),
             IdMember(m.targetPolicy),
           |Text(m)|)
  }

  /** A value of the event context, by its dynamic type. */
  datatype ContextValue =
    | UintValue(u: nat) | IntValue(i: int) | FloatValue(f: real) | NumberValue(text: string) | OtherValue

  function ContextId(v: ContextValue): nat {
    match v
    case UintValue(u) => if SafeId(u) then u else 0
    case IntValue(i) => if SafeId(i) then i else 0
    case FloatValue(f) => if f <= 0.0 || f > MAX_SAFE_ID as real || f.Floor as real != f then 0 else f.Floor
    case NumberValue(text) => IdOf(Bare(text))
    case OtherValue => 0
  }

  datatype Event = Event(kind: string, context: map<string, ContextValue>)

  function ContextIdAt(e: Event, name: string): nat { if name in e.context then ContextId(e.context[name]) else 0 }

  /** Only associations the producer of the event knows; the stage is not set yet. */
  function NewMeta(e: Event): Meta {
    var node := if BackupEvent(e.kind) || e.kind == "anomaly_detected" then ContextIdAt(e, "node_id") else 0;
    var policy := if BackupEvent(e.kind) || e.kind == "drill_failed" then ContextIdAt(e, "policy_id") else 0;
    var paired := BackupEvent(e.kind) && ContextIdAt(e, "task_id") != 0 && ContextIdAt(e, "task_run_id") != 0;
    Meta("", "", node, policy, if paired then ContextIdAt(e, "task_id") else 0, if paired
      then ContextIdAt(e, "task_run_id") else 0, 0)
  }

  /** The target id, if the rendered configuration states exactly the id acted on. */
  function ConfigTarget(raw: Raw, actual: nat): nat {
    var id := match raw
      case Bare(_) => IdOf(raw)
      case Quoted(value) => if value == "" || !AllDigits(value) || !SafeId(Value(value)) then 0 else Value(value);
    if id != actual then 0 else id
  }

  datatype Failure = Canceled | DeadlineExceeded | RecordNotFound | OtherFailure

  /** How an action ended; the same ends occur with and without a transaction, except
      that only transactions demand transactional executors. */
  datatype End =
    | NoTarget
    | NoController
    | NoExecutor
    | NotTransactional
    | Broke(failure: Failure)
    | Applied(target: nat, config: Raw)
    | Accepted
    | RunReserved

  predicate PolicyEnd(e: End) { e.NoTarget? || e.NoController? || e.Broke? || e.Applied? }

  predicate TriggerEnd(e: End) {
    e.NoTarget? || e.NoExecutor? || e.NotTransactional? || e.Broke? || e.Accepted? || e.RunReserved?
  }

  /** The ends an action of this type can have. */
  predicate Ends(action: string, e: End) {
    (PolicyAction(action) ==> PolicyEnd(e)) && (action == "trigger_task" ==> TriggerEnd(e))
  }

  function FailureReason(f: Failure): string {
    match f
    case Canceled => "CONTEXT_CANCELED"
    case DeadlineExceeded => "DEADLINE_EXCEEDED"
    case RecordNotFound => "TARGET_NOT_FOUND"
    case OtherFailure => "ACTION_FAILED"
  }

  function Executed(action: string, m: Meta, e: End): (Meta, string) {
    if action == "send_notification" then (m.(stage := "notification_recorded"), "success")
    else if !KnownAction(action) then (m.(stage := "action_validation", reason := "UNSUPPORTED_ACTION"), "error")
    else
      match e
      case NoTarget => (m.(stage := "action_validation", reason := "INVALID_TARGET"), "error")
      case NoController => (m.(stage := "action_validation", reason := "POLICY_CONTROLLER_UNAVAILABLE"), "error")
      case NoExecutor => (m.(stage := "action_validation", reason := "EXECUTOR_UNAVAILABLE"), "error")
      case NotTransactional => (m.(stage := "action_validation", reason := "TRANSACTIONAL_EXECUTOR_UNAVAILABLE"),
        "error")
      case Broke(f) => (m.(stage := "action_execution", reason := FailureReason(f)), "error")
      case Applied(target, config) => (m.(stage := "policy_updated", targetPolicy := ConfigTarget(config, target)),
        "success")
      case Accepted => (m.(stage := "task_trigger_accepted"), "success")
      case RunReserved => (m.(stage := "task_run_reserved"), "success")
  }

  // ---------------------------------------------------------------- round trip

  function Pow10(k: nat): nat { if k == 0 then 1 else 10 * Pow10(k - 1) }

  lemma {:induction false} DigitsShape(n: nat, k: nat)
    requires k >= 1 && n < Pow10(k)
    ensures 1 <= |Digits(n)| <= k && AllDigits(Digits(n)) && (n > 0 ==> Digits(n)[0] != '0')
  {
    if n >= 10 {
      DigitsShape(n / 10, k - 1);
      assert Digits(n)[0] == Digits(n / 10)[0];
    }
  }

  lemma SafeIdReadsBack(n: nat)
    requires SafeId(n)
    ensures IdOf(Bare(Digits(n))) == n && |Digits(n)| <= 16
  {
    assert Pow10(16) == 10_000_000_000_000_000 by {
      assert Pow10(4) == 10_000 && Pow10(8) == 10_000 * Pow10(4) && Pow10(12) == 10_000 * Pow10(8)
        && Pow10(16) == 10_000 * Pow10(12);
    }
    DigitsShape(n, 16);
    DigitsReadBack(n);
  }

  /** An id is read as itself exactly up to 2^53-1. */
  lemma IdSurvivesIff(n: nat)
    ensures IdOf(Bare(Digits(n))) == n <==> n <= MAX_SAFE_ID
  {
    DigitsReadBack(n);
    if SafeId(n) {
      SafeIdReadsBack(n);
    }
  }

  predicate Bounded(n: nat) { n == 0 || SafeId(n) }

  /** What the event, the action and the result allow a metadata object to say. */
  predicate Admissible(m: Meta, event: string, action: string, result: string) {
    && ((m.stage == "unknown" && m.reason == "") || ValidBoundary(m.stage, m.reason, action, result))
    && AllBounded(m)
    && (m.sourceTask == 0 <==> m.sourceRun == 0)
    && (!BackupEvent(event) ==> m.sourceTask == 0)
    && (!BackupEvent(event) && event != "anomaly_detected" ==> m.sourceNode == 0)
    && (!BackupEvent(event) && event != "drill_failed" ==> m.sourcePolicy == 0)
    && (!(result == "success" && PolicyAction(action)) ==> m.targetPolicy == 0)
  }

  lemma BoundaryIsShort(stage: string, reason: string, action: string, result: string)
    requires ValidBoundary(stage, reason, action, result)
    ensures |stage| <= 21 && |reason| <= 34
  {
  }

  lemma IdTextIsShort(name: string, n: nat)
    requires Bounded(n) && |name| <= 18
    ensures |IdText(name, n)| <= 38
  {
    if n > 0 {
      SafeIdReadsBack(n);
    }
  }

  lemma TextFits(m: Meta, event: string, action: string, result: string)
    requires Admissible(m, event, action, result)
    ensures |Text(m)| <= MAX_BYTES
  {
    if m.stage != "unknown" {
      BoundaryIsShort(m.stage, m.reason, action, result);
    }
    IdTextIsShort("source_node_id", m.sourceNode);
    IdTextIsShort("source_policy_id", m.sourcePolicy);
    IdTextIsShort("source_task_id", m.sourceTask);
    IdTextIsShort("source_task_run_id", m.sourceRun);
    IdTextIsShort("target_policy_id", m.targetPolicy);
  }

  lemma IdMemberReadsBack(n: nat)
    requires Bounded(n)
    ensures IdIn(IdMember(n)) == n
  {
    if n > 0 {
      SafeIdReadsBack(n);
    }
  }

  predicate AllBounded(m: Meta) {
    Bounded(m.sourceNode) && Bounded(m.sourcePolicy) && Bounded(m.sourceTask) && Bounded(m.sourceRun)
      && Bounded(m.targetPolicy)
  }

  /** The reader returns a written object unchanged if and only if the event, the
      action and the result allow all that it says. */
  lemma ReadsBackIff(m: Meta, event: string, action: string, result: string)
    ensures Read(Some(Marshal(m)), event, action, result) == Some(m) <==> Admissible(m, event, action, result)
  {
    if Admissible(m, event, action, result) {
      ReadsBack(m, event, action, result);
    }
    if Read(Some(Marshal(m)), event, action, result) == Some(m) {
      ReadIsAdmissible(Some(Marshal(m)), event, action, result);
    }
  }

  lemma BoundaryReadsBack(m: Meta, action: string, result: string)
    requires (m.stage == "unknown" && m.reason == "") || ValidBoundary(m.stage, m.reason, action, result)
    ensures TrustedBoundary(Marshal(m), action, result) <==> m.stage != "unknown"
  {
  }

  lemma ReadsBack(m: Meta, event: string, action: string, result: string)
    requires Admissible(m, event, action, result)
    ensures Read(Some(Marshal(m)), event, action, result) == Some(m)
  {
    IdMemberReadsBack(m.sourceNode);
    IdMemberReadsBack(m.sourcePolicy);
    IdMemberReadsBack(m.sourceTask);
    IdMemberReadsBack(m.sourceRun);
    IdMemberReadsBack(m.targetPolicy);
    TextFits(m, event, action, result);
    BoundaryReadsBack(m, action, result);
  }

  /** Whatever object is presented, what the reader lets through is admissible: no id
      beyond the event's contract, task and run together or not at all, and a stage
      and reason that fit the action and the result. */
  lemma ReadIsAdmissible(nested: Option<Object>, event: string, action: string, result: string)
    ensures var r := Read(nested, event, action, result); r.Some? ==> Admissible(r.value, event, action, result)
  {
  }

  /** Reading is a projection: what was read once is written and read unchanged. */
  lemma ReadIsStable(nested: Option<Object>, event: string, action: string, result: string)
    ensures var r := Read(nested, event, action, result);
      r.Some? ==> Read(Some(Marshal(r.value)), event, action, result) == r
  {
    ReadIsAdmissible(nested, event, action, result);
    var r := Read(nested, event, action, result);
    if r.Some? {
      ReadsBackIff(r.value, event, action, result);
    }
  }

  lemma NewMetaBounded(e: Event)
    ensures var m := NewMeta(e);
      Bounded(m.sourceNode) && Bounded(m.sourcePolicy) && Bounded(m.sourceTask) && Bounded(m.sourceRun)
  {
    forall v ensures Bounded(ContextId(v)) {
      ContextIdBounded(v);
    }
  }

  lemma ContextIdBounded(v: ContextValue)
    ensures Bounded(ContextId(v))
  {
  }

  /** Every end leaves a stage and reason that fit the action and the result, and
      changes nothing else but the target of a policy action that succeeded. */
  lemma ExecutedFits(action: string, m: Meta, end: End)
    requires Ends(action, end) && m.reason == "" && m.targetPolicy == 0
    ensures var (n, result) := Executed(action, m, end);
      && ValidBoundary(n.stage, n.reason, action, result)
      && n == m.(stage := n.stage, reason := n.reason, targetPolicy := n.targetPolicy)
      && Bounded(n.targetPolicy) && (n.targetPolicy != 0 ==> result == "success" && PolicyAction(action))
  {
  }

  lemma WrittenIsAdmissible(e: Event, action: string, m: Meta, result: string)
    requires var born := NewMeta(e); m == born.(stage := m.stage, reason := m.reason, targetPolicy := m.targetPolicy)
    requires ValidBoundary(m.stage, m.reason, action, result)
    requires Bounded(m.targetPolicy) && (m.targetPolicy != 0 ==> result == "success" && PolicyAction(action))
    ensures Admissible(m, e.kind, action, result)
  {
    NewMetaBounded(e);
  }

  /** For every event, action and end, the metadata the executor writes is read back
      exactly under the logged event type, action type and result, and the object
      stays within its byte bound. */
  lemma WrittenIsReadBack(e: Event, action: string, end: End)
    requires Ends(action, end)
    ensures var (m, result) := Executed(action, NewMeta(e), end);
      Read(Some(Marshal(m)), e.kind, action, result) == Some(m) && |Text(m)| <= MAX_BYTES
  {
    var (m, result) := Executed(action, NewMeta(e), end);
    ExecutedFits(action, NewMeta(e), end);
    WrittenIsAdmissible(e, action, m, result);
    TextFits(m, e.kind, action, result);
    ReadsBackIff(m, e.kind, action, result);
  }

  /** The reason tells how a known action ended, each end by a reason of its own. */
  lemma ReasonTellsEnd(action: string, m: Meta, end: End)
    requires Ends(action, end) && m.reason == "" && (PolicyAction(action) || action == "trigger_task")
    ensures var (n, result) := Executed(action, m, end);
      && (result == "success" <==> end.Applied? || end.Accepted? || end.RunReserved?)
      && (n.reason == "" <==> result == "success")
      && (n.reason == "CONTEXT_CANCELED" <==> end == Broke(Canceled))
      && (n.reason == "DEADLINE_EXCEEDED" <==> end == Broke(DeadlineExceeded))
      && (n.reason == "TARGET_NOT_FOUND" <==> end == Broke(RecordNotFound))
      && (n.reason == "INVALID_TARGET" <==> end.NoTarget?)
      && (n.reason == "EXECUTOR_UNAVAILABLE" <==> end.NoExecutor?)
      && (n.reason == "TRANSACTIONAL_EXECUTOR_UNAVAILABLE" <==> end.NotTransactional?)
      && (n.reason == "POLICY_CONTROLLER_UNAVAILABLE" <==> end.NoController?)
      && (n.stage == "task_run_reserved" <==> end.RunReserved?)
  {
  }

  // ------------------------------------------------------------- associations

  /** Ids an event knows exactly are kept, under the contract of its kind: a backup's
      node and policy, and its task and run together or not at all; an anomaly's node;
      a drill's policy. */
  lemma AssociationsKept(e: Event, node: nat, policy: nat, task: nat, run: nat)
    requires SafeId(node) && SafeId(policy) && SafeId(task) && SafeId(run)
    requires "node_id" in e.context && e.context["node_id"] == UintValue(node)
    requires "policy_id" in e.context && e.context["policy_id"] == UintValue(policy)
    requires "task_id" in e.context && e.context["task_id"] == UintValue(task)
    requires "task_run_id" in e.context && e.context["task_run_id"] == UintValue(run)
    ensures var m := NewMeta(e);
      && m.sourceNode == (if BackupEvent(e.kind) || e.kind == "anomaly_detected" then node else 0)
      && m.sourcePolicy == (if BackupEvent(e.kind) || e.kind == "drill_failed" then policy else 0)
      && m.sourceTask == (if BackupEvent(e.kind) then task else 0)
      && m.sourceRun == (if BackupEvent(e.kind) then run else 0)
  {
  }

  /** A context value becomes an id exactly when it is one, whatever its type. */
  lemma ContextIdIff(n: nat)
    ensures SafeId(n) <==> ContextId(UintValue(n)) == n && n > 0
    ensures ContextId(IntValue(n)) == ContextId(UintValue(n))
    ensures n <= MAX_SAFE_ID ==> ContextId(FloatValue(n as real)) == ContextId(UintValue(n))
    ensures ContextId(NumberValue(Digits(n))) == ContextId(UintValue(n))
  {
    IdSurvivesIff(n);
    DigitsReadBack(n);
    if n > MAX_SAFE_ID {
      assert IdOf(Bare(Digits(n))) == 0;
    }
  }

  /** The target of a policy action is recorded exactly when the configuration states
      the id acted on, as a number or as its decimal text. */
  lemma TargetIsStated(raw: Raw, n: nat)
    requires SafeId(n)
    ensures ConfigTarget(Bare(Digits(n)), n) == n && ConfigTarget(Quoted(Digits(n)), n) == n
    ensures ConfigTarget(raw, n) == 0 || ConfigTarget(raw, n) == n
    ensures forall m :: Executed("pause_policy", m, Applied(n, Bare(Digits(n)))).0.targetPolicy == n
    ensures forall m :: Executed("disable_policy", m, Applied(n, Quoted(Digits(n)))).0.targetPolicy == n
    ensures ConfigTarget(raw, n) == n ==> (raw.Bare? && Value(raw.text) == n) || (raw.Quoted? && Value(raw.value) == n)
  {
    SafeIdReadsBack(n);
    DigitsReadBack(n);
    assert Pow10(16) > n by {
      assert Pow10(4) == 10_000 && Pow10(8) == 10_000 * Pow10(4) && Pow10(12) == 10_000 * Pow10(8);
      assert Pow10(16) == 10_000 * Pow10(12);
    }
    DigitsShape(n, 16);
  }

  // ------------------------------------------------------------------ methods

  /** Fill the answer field by field, each id under the contract of its event. */
  method ReadSafeExecutionMetadata(nested: Option<Object>, event: string, action: string, result: string)
      returns (r: Option<Meta>)
    ensures r == Read(nested, event, action, result)
  {
    if nested.None? || nested.value.length > MAX_BYTES { return None; }
    var o := nested.value;
    if o.version.None? || o.version.value != Bare("1") { return None; }
    var meta := Meta("unknown", "", 0, 0, 0, 0, 0);
    var stageValid := o.stage.Some? && o.stage.value.Quoted?;
    var reasonValid := o.reason.None? || o.reason.value.Quoted?;
    if stageValid && reasonValid {
      var reason := if o.reason.Some? then o.reason.value.value else "";
      if ValidBoundary(o.stage.value.value, reason, action, result) {
        meta := meta.(stage := o.stage.value.value, reason := reason);
      }
    }
    if BackupEvent(event) {
      meta := meta.(sourceNode := IdIn(o.sourceNode), sourcePolicy := IdIn(o.sourcePolicy));
      var task, run := IdIn(o.sourceTask), IdIn(o.sourceRun);
      if task != 0 && run != 0 {
        meta := meta.(sourceTask := task, sourceRun := run);
      }
    } else if event == "anomaly_detected" {
      meta := meta.(sourceNode := IdIn(o.sourceNode));
    } else if event == "drill_failed" {
      meta := meta.(sourcePolicy := IdIn(o.sourcePolicy));
    }
    if result == "success" && PolicyAction(action) {
      meta := meta.(targetPolicy := IdIn(o.targetPolicy));
    }
    return Some(meta);
  }

  method NewSafeExecutionMetadata(e: Event) returns (meta: Meta)
    ensures meta == NewMeta(e)
  {
    meta := Meta("", "", 0, 0, 0, 0, 0);
    if BackupEvent(e.kind) {
      meta := meta.(sourceNode := ContextIdAt(e, "node_id"), sourcePolicy := ContextIdAt(e, "policy_id"));
      var task, run := ContextIdAt(e, "task_id"), ContextIdAt(e, "task_run_id");
      if task != 0 && run != 0 {
        meta := meta.(sourceTask := task, sourceRun := run);
      }
    } else if e.kind == "anomaly_detected" {
      meta := meta.(sourceNode := ContextIdAt(e, "node_id"));
    } else if e.kind == "drill_failed" {
      meta := meta.(sourcePolicy := ContextIdAt(e, "policy_id"));
    }
  }

  /** One action, its log entry's object and result: the object is read back as it
      was written. */
  method ExecuteAction(e: Event, action: string, end: End) returns (details: Object, result: string)
    requires Ends(action, end)
    ensures details == Marshal(Executed(action, NewMeta(e), end).0) && result == Executed(action, NewMeta(e), end).1
    ensures details.length <= MAX_BYTES
    ensures Read(Some(details), e.kind, action, result) == Some(Executed(action, NewMeta(e), end).0)
  {
    var meta := NewSafeExecutionMetadata(e);
    WrittenIsReadBack(e, action, end);
    var done := Executed(action, meta, end);
    details, result := Marshal(done.0), done.1;
  }
}
