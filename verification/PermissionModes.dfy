/** The three modes' answers to the runtime's permission, plan and question
    requests. */
module PermissionModes {
  import opened Options

  datatype Mode = Planning | Interactive | Auto

  datatype Decision = ApproveOnce | ApproveForSession | Reject

  datatype Answer =
    | Permit(decision: Decision)
    | Review(approved: bool, selectedAction: Option<string>, feedback: Option<string>)
    | Reply(answer: string, wasFreeform: bool)

  /** What a bridge promise resolves to. */
  datatype Outcome = Answered(answer: Answer) | TimedOut

  datatype Kind = Permission | Plan | Question

  function KindOf(a: Answer): Kind {
    match a
    case Permit(_) => Permission
    case Review(_, _, _) => Plan
    case Reply(_, _) => Question
  }

  /** `toPermissionResult`: silence is a refusal. */
  function ToPermissionResult(outcome: Outcome): Decision {
    match outcome
    case Answered(Permit(decision)) => decision
    case _ => Reject
  }

  datatype ToolRequest = ToolRequest(kind: string, fullCommandText: Option<string>)

  /** The permission handler: auto mode decides alone, the others by the outcome. */
  function PermissionResult(mode: Mode, destructive: string -> bool, request: ToolRequest, outcome: Outcome): Decision {
    if mode == Auto then
      var command := if request.kind == "shell" && request.fullCommandText.Some? then request.fullCommandText.value
          else "";
      if command != "" && destructive(command) then Reject else ApproveOnce
    else ToPermissionResult(outcome)
  }

  datatype PlanResult = PlanResult(approved: bool, selectedAction: Option<string>, feedback: Option<string>)

  /** The plan handler: only planning mode asks. */
  function PlanReview(mode: Mode, outcome: Outcome): PlanResult {
    if mode != Planning then PlanResult(true, None, None)
    else
      match outcome
      case Answered(Review(approved, selectedAction, feedback)) =>
        if approved then PlanResult(true, selectedAction, None) else PlanResult(false, None, feedback)
      case _ => PlanResult(false, None, Some("Timed out waiting for review."))
  }

  /** The question handler is absent in auto mode; silence is an empty answer. */
  function QuestionResult(mode: Mode, outcome: Outcome): Option<(string, bool)> {
    if mode == Auto then None
    else
      match outcome
      case Answered(Reply(answer, wasFreeform)) => Some((answer, wasFreeform))
      case _ => Some(("", true))
  }

  /** Outside auto mode a permission is granted exactly when a client granted it. */
  lemma GrantIff(mode: Mode, destructive: string -> bool, request: ToolRequest, outcome: Outcome)
    requires mode != Auto
    ensures PermissionResult(mode, destructive, request, outcome) != Reject
      <==> exists decision :: outcome == Answered(Permit(decision)) && decision != Reject
  {}

  /** Auto mode asks nobody: a shell command that looks destructive is refused, and
      everything else is approved once. */
  lemma AutoDecides(destructive: string -> bool, request: ToolRequest, outcome: Outcome)
    ensures PermissionResult(Auto, destructive, request, outcome) == Reject <==>
              exists command :: request == ToolRequest("shell", Some(command)) && command != "" && destructive(command)
    ensures PermissionResult(Auto, destructive, request, outcome) != ApproveForSession
  {
    if request.kind == "shell" && request.fullCommandText.Some? {
      assert request == ToolRequest("shell", Some(request.fullCommandText.value));
    }
  }

  /** Only planning mode holds a plan back, and auto mode has no questions. */
  lemma NothingToAsk(outcome: Outcome)
    ensures PlanReview(Interactive, outcome) == PlanReview(Auto, outcome) == PlanResult(true, None, None)
    ensures QuestionResult(Auto, outcome) == None
  {}

  /** A planning session leaves plan mode exactly when a client approved the plan. */
  lemma PlanApprovedIff(outcome: Outcome)
    ensures PlanReview(Planning, outcome).approved
      <==> exists action, feedback :: outcome == Answered(Review(true, action, feedback))
  {}
}
