/**
  The human-approval gate (hal/src/approval_flow.rs): classification, and one
  connection from its message to its audit line and reply.
*/
module ApprovalFlow {
  import opened Common
  import AuditFormat

  datatype Request = Request(requestId: int, agent: string, action: string, target: string, isAi: bool)

  datatype Reason = AutoApproved | UserApproved | AutoDenied | UserDenied | TimeoutDeny | HalError

  datatype Level = Silent | Notify | Confirm | Block

  datatype Reply = Reply(requestId: int, approved: bool, reason: Reason, score: real)

  datatype AuditLine = AuditLine(req: Request, score: real, level: string, outcome: string, note: string)

  const NIL_ID := 0
  const MAX_UI_FRAME := 4096

  const KNOWN_AGENTS: seq<string> := ["planner", "memory", "security", "scheduler", "file", "coding", "ui"]

  predicate IsKnownAgent(name: string) {
    name in KNOWN_AGENTS
  }

  predicate IsOutsideHome(target: string, home: string) {
    target != "" && !(home <= target) && !("~/" <= target) && target[0] == '/'
  }

  /** `compute_hal_level_v0` */
  function Classify(req: Request, home: string): (Level, real) {
    if !IsKnownAgent(req.agent) then (Block, 1.0)
    else if req.action == "modify_hal" then (Block, 1.0)
    else if req.action == "execute_binary" && req.isAi then (Block, 0.9)
    else if IsOutsideHome(req.target, home) then (Block, 0.85)
    else if req.action in ["install_package", "modify_config", "delete_file"] || req.isAi then
      (Confirm, if req.action == "delete_file" then 0.75 else 0.65)
    else if req.action in ["move_file", "create_file", "start_service"] then (Notify, 0.4)
    else (Silent, 0.15)
  }

  // ---- What the rules come to, said without them ----

  predicate NamedAgent(name: string) {
    name in {"planner", "memory", "security", "scheduler", "file", "coding", "ui"}
  }

  predicate AbsoluteElsewhere(target: string, home: string) {
    target != "" && target[0] == '/' && !(home <= target)
  }

  /** What may pass without a human. */
  predicate Harmless(req: Request, home: string) {
    && NamedAgent(req.agent)
    && req.action !in {"modify_hal", "install_package", "modify_config", "delete_file"}
    && !req.isAi
    && !AbsoluteElsewhere(req.target, home)
  }

  lemma InWords(req: Request, home: string)
    ensures IsKnownAgent(req.agent) <==> NamedAgent(req.agent)
    ensures IsOutsideHome(req.target, home) <==> AbsoluteElsewhere(req.target, home)
  {
    assert KNOWN_AGENTS == ["planner", "memory", "security", "scheduler", "file", "coding", "ui"];
    assert "~/" <= req.target ==> req.target[0] == "~/"[0] == '~';
  }

  /** The rules let exactly the harmless requests pass unasked, and their scores fall in the bands of their levels. */
  lemma ClassifyExactly(req: Request, home: string)
    ensures var (level, score) := Classify(req, home);
            && (level == Silent || level == Notify <==> Harmless(req, home))
            && (level == Silent ==> score < 0.3)
            && (level == Notify ==> 0.3 <= score < 0.6)
            && (level == Confirm ==> 0.6 <= score < 0.8)
            && (level == Block <==> score >= 0.8)
            && (level == Block <==> || !NamedAgent(req.agent) || req.action == "modify_hal"
                                    || AbsoluteElsewhere(req.target, home)
                                    || (req.action == "execute_binary" && req.isAi))
  {
    InWords(req, home);
    assert req.action == "delete_file" ==> req.action in ["install_package", "modify_config", "delete_file"];
  }

  /** Which rule gave a score: each score has its own requests, said without the order of the rules. */
  lemma ScoresExactly(req: Request, home: string)
    ensures var score, action := Classify(req, home).1, req.action;
            var ruled := NamedAgent(req.agent) && action != "modify_hal" && !(action == "execute_binary" && req.isAi);
            var near := ruled && !AbsoluteElsewhere(req.target, home);
            var confirmed := action == "install_package" || action == "modify_config" || req.isAi;
            && (score == 1.0 <==> !NamedAgent(req.agent) || action == "modify_hal")
            && (score == 0.9 <==> NamedAgent(req.agent) && action == "execute_binary" && req.isAi)
            && (score == 0.85 <==> ruled && !near)
            && (score == 0.75 <==> near && action == "delete_file")
            && (score == 0.65 <==> near && action != "delete_file" && confirmed)
            && (score == 0.4 <==> Harmless(req, home) && action in {"move_file", "create_file", "start_service"})
            && (score == 0.15 <==> Harmless(req, home) && action !in {"move_file", "create_file", "start_service"})
  {
    InWords(req, home);
    assert "modify_hal" != "execute_binary" && "modify_hal" != "delete_file" by {
      assert |"modify_hal"| == 10 && |"execute_binary"| == 14 && |"delete_file"| == 11;
    }
  }

  // ---- The terminal ----

  function TrimLeft(s: string): string {
    if s != "" && AuditFormat.IsSpace(s[0]) then TrimLeft(s[1..]) else s
  }

  function TrimRight(s: string): string {
    if s != "" && AuditFormat.IsSpace(s[|s| - 1]) then TrimRight(s[..|s| - 1]) else s
  }

  function Trim(s: string): string {
    TrimRight(TrimLeft(s))
  }

  /** The answers `terminal_fallback` takes for a yes, at either level. */
  predicate IsYes(line: string) {
    Trim(line) == "yes" || Trim(line) in ["y", "Y"]
  }

  // ---- One connection ----

  /** What arrives on the agent's stream. */
  datatype Message = Truncated | Oversized | Unparsable | Parsed(req: Request)

  /** How the human side ends: a decision, or none in time (also: an unreadable or oversized answer). */
  datatype UiOutcome = Decision(approved: bool) | NoAnswer

  datatype Opening =
    | Dropped
    | Settled(lines: seq<AuditLine>, reply: Reply)
    | AskHuman(req: Request, level: Level, score: real)

  /** The part of `handle_connection` before any human is asked. */
  function Open(m: Message, home: string): Opening {
    match m
    case Truncated => Dropped
    case Oversized => Settled([], Reply(NIL_ID, false, HalError, 1.0))
    case Unparsable => Settled([], Reply(NIL_ID, false, HalError, 1.0))
    case Parsed(req) =>
      if !IsKnownAgent(req.agent) then
        Settled([AuditLine(req, 1.0, "block", "auto_denied", "unknown_agent")],
                Reply(req.requestId, false, AutoDenied, 1.0))
      else if req.action == "modify_hal" then
        Settled([AuditLine(req, 1.0, "block", "auto_denied", "modify_hal_attempt")],
                Reply(req.requestId, false, AutoDenied, 1.0))
      else
        var (level, score) := Classify(req, home);
        match level
        case Silent =>
          Settled([AuditLine(req, score, "silent", "auto_approved", "")],
                  Reply(req.requestId, true, AutoApproved, score))
        case Notify =>
          Settled([AuditLine(req, score, "notify", "auto_approved", "")],
                  Reply(req.requestId, true, AutoApproved, score))
        case _ => AskHuman(req, level, score)
  }

  function ReasonOf(o: UiOutcome): Reason {
    match o
    case Decision(approved) => if approved then UserApproved else UserDenied
    case NoAnswer => TimeoutDeny
  }

  function ConcludedLine(req: Request, level: Level, score: real, o: UiOutcome): AuditLine {
    AuditLine(req, score, if level == Block then "block" else "confirm",
              if o == Decision(true) then "approved" else "denied", "")
  }

  function ConcludedReply(req: Request, score: real, o: UiOutcome): Reply {
    Reply(req.requestId, o == Decision(true), ReasonOf(o), score)
  }

  /** The bytes a UI sends back. */
  datatype UiRead = Nothing | FrameTooLong | NotJson | Json(approved: Option<bool>)

  /** A readable answer without `approved: true` denies; anything unreadable is no answer. */
  function OutcomeOfRead(r: UiRead): UiOutcome {
    match r
    case Json(approved) => Decision(approved == Some(true))
    case _ => NoAnswer
  }

  function OutcomeOfLine(line: Option<string>): UiOutcome {
    match line
    case Some(text) => Decision(IsYes(text))
    case None => NoAnswer
  }

  /** The two ways to a human: a reachable UI and what it sends, or the terminal and what is typed. */
  datatype Human = OverUi(read: UiRead) | AtTerminal(line: Option<string>)

  function OutcomeOf(h: Human): UiOutcome {
    match h
    case OverUi(read) => OutcomeOfRead(read)
    case AtTerminal(line) => OutcomeOfLine(line)
  }

  /** The reply to a message and the audit lines for it, given how the human side would go. */
  function Handled(m: Message, h: Human, home: string): (Option<Reply>, seq<AuditLine>) {
    match Open(m, home)
    case Dropped => (None, [])
    case Settled(lines, reply) => (Some(reply), lines)
    case AskHuman(req, level, score) =>
      (Some(ConcludedReply(req, score, OutcomeOf(h))), [ConcludedLine(req, level, score, OutcomeOf(h))])
  }

  predicate Approves(m: Message, h: Human, home: string) {
    Handled(m, h, home).0.Some? && Handled(m, h, home).0.value.approved
  }

  /**
    What is approved, whatever arrives and however the human side goes: a known
    agent's request other than `modify_hal` that is harmless or gets `approved:
    true` over the UI's stream or one of three answers at the terminal.
  */
  lemma ApprovedExactly(m: Message, h: Human, home: string)
    ensures Approves(m, h, home) <==>
            && m.Parsed? && NamedAgent(m.req.agent) && m.req.action != "modify_hal"
            && (Harmless(m.req, home) || SaysYes(h))
  {
    ReasonsExactly(m, h, home);
  }

  /**
    Why a reply is what it is, for every message and every end of the human side.
    In particular an automatic approval never has an absolute target outside home,
    and is given to every such request with an empty or relative target, one under
    "~/", or one under home.
  */
  lemma ReasonsExactly(m: Message, h: Human, home: string)
    ensures var r := Handled(m, h, home).0;
            var known := m.Parsed? && NamedAgent(m.req.agent) && m.req.action != "modify_hal";
            var asked := known && !Harmless(m.req, home);
            && (r == None <==> m == Truncated)
            && (r.Some? ==>
                  && r.value.requestId == (if m.Parsed? then m.req.requestId else 0)
                  && (r.value.reason == HalError <==> m == Oversized || m == Unparsable)
                  && (r.value.reason == AutoDenied <==> m.Parsed? && !known)
                  && (r.value.reason == AutoApproved <==> known && Harmless(m.req, home))
                  && (r.value.reason == UserApproved <==> asked && SaysYes(h))
                  && (r.value.reason == UserDenied <==> asked && !SaysYes(h) && !SaysNothing(h))
                  && (r.value.reason == TimeoutDeny <==> asked && SaysNothing(h))
                  && (r.value.approved <==> r.value.reason in {AutoApproved, UserApproved}))
            && (r.Some? && !m.Parsed? ==> r.value.score == 1.0)
  {
    if m.Parsed? {
      InWords(m.req, home);
      ClassifyExactly(m.req, home);
    }
  }

  /** `approved: true` from the UI, or one of three answers at the terminal. */
  predicate SaysYes(h: Human) {
    h == OverUi(Json(Some(true))) || (h.AtTerminal? && h.line.Some? && Trim(h.line.value) in {"yes", "y", "Y"})
  }

  /** No JSON from the UI, or no line at the terminal. */
  predicate SaysNothing(h: Human) {
    (h.OverUi? && !h.read.Json?) || h == AtTerminal(None)
  }

  /** What is written about a message: nothing unless it parses, and then one line that says what the reply says. */
  lemma LineExactly(m: Message, h: Human, home: string)
    ensures var (r, lines) := Handled(m, h, home);
            if !m.Parsed? then lines == []
            else
              && |lines| == 1 && r.Some? && lines[0].req == m.req
              && lines[0].score == r.value.score == Classify(m.req, home).1
              && lines[0].level == (if r.value.score >= 0.8 then "block" else if r.value.score >= 0.6 then "confirm"
                                    else if r.value.score >= 0.3 then "notify" else "silent")
              && lines[0].outcome == (match r.value.reason
                                      case AutoApproved => "auto_approved"
                                      case AutoDenied => "auto_denied"
                                      case UserApproved => "approved"
                                      case _ => "denied")
              && lines[0].note == (if !NamedAgent(m.req.agent) then "unknown_agent"
                                   else if m.req.action == "modify_hal" then "modify_hal_attempt" else "")
  {
    if m.Parsed? {
      InWords(m.req, home);
      ClassifyExactly(m.req, home);
    }
  }

  predicate AllSpace(s: string) {
    forall i :: 0 <= i < |s| ==> AuditFormat.IsSpace(s[i])
  }

  /** Trimming takes off exactly the white space on both sides. */
  lemma TrimExactly(before: string, text: string, after: string)
    requires AllSpace(before) && AllSpace(after)
    requires text != "" ==> !AuditFormat.IsSpace(text[0]) && !AuditFormat.IsSpace(text[|text| - 1])
    ensures Trim(before + text + after) == text
  {
    TrimLeftOf(before, text + after);
    assert before + text + after == before + (text + after);
    if text == "" {
      TrimLeftOf(after, "");
      assert after + "" == after && text + after == after;
    } else {
      TrimRightOf(text, after);
    }
  }

  lemma {:induction false} TrimLeftOf(space: string, rest: string)
    requires AllSpace(space)
    ensures TrimLeft(space + rest) == TrimLeft(rest)
  {
    if space == "" {
      assert space + rest == rest;
    } else {
      assert (space + rest)[1..] == space[1..] + rest;
      TrimLeftOf(space[1..], rest);
    }
  }

  lemma {:induction false} TrimRightOf(text: string, space: string)
    requires AllSpace(space) && text != "" && !AuditFormat.IsSpace(text[|text| - 1])
    ensures TrimRight(text + space) == text
  {
    if space == "" {
      assert text + space == text;
    } else {
      assert (text + space)[..|text + space| - 1] == text + space[..|space| - 1];
      TrimRightOf(text, space[..|space| - 1]);
    }
  }

  /**
    The Block prompt says that only 'yes' allows. For a request at that level the
    reply keeps to it exactly unless the answer, trimmed, is a bare y or Y.
  */
  lemma BlockPromptHonoured(req: Request, line: string, home: string)
    requires Open(Parsed(req), home).AskHuman? && Open(Parsed(req), home).level == Block
    ensures (Approves(Parsed(req), AtTerminal(Some(line)), home) <==> Trim(line) == "yes")
            <==> Trim(line) !in ["y", "Y"]
  {
    assert "y" != "yes" && "Y" != "yes" by {
      assert |"y"| != |"yes"| && |"Y"| != |"yes"|;
    }
  }

  /** An AI-generated binary runs when a user answers the Block prompt with y and return. */
  lemma BareYPassesBlock(id: int, home: string)
    ensures var req := Request(id, "coding", "execute_binary", "", true);
            && Open(Parsed(req), home) == AskHuman(req, Block, 0.9)
            && Approves(Parsed(req), AtTerminal(Some("y\n")), home)
  {
    assert "y\n"[..1] == "y";
    assert TrimRight("y\n") == TrimRight("y") == "y";
    assert "coding" == KNOWN_AGENTS[5];
  }

  class HalDaemon {
    const home: string
    var audit: seq<AuditLine>

    constructor (home: string)
      ensures this.home == home && audit == []
    {
      this.home, audit := home, [];
    }

    /** `request_ui_decision` with `terminal_fallback` */
    method RequestDecision(h: Human) returns (decision: Option<(bool, Reason)>)
      ensures decision == match OutcomeOf(h)
                case Decision(approved) => Some((approved, if approved then UserApproved else UserDenied))
                case NoAnswer => None
    {
      var approved := false;
      match h {
        case OverUi(Json(a)) => approved := a == Some(true);
        case OverUi(_) => return None;
        case AtTerminal(Some(text)) => approved := IsYes(text);
        case AtTerminal(None) => return None;
      }
      var reason := if approved then UserApproved else UserDenied;
      return Some((approved, reason));
    }

    /** `handle_connection`: the audit line is written first, then the reply. */
    method HandleConnection(m: Message, h: Human) returns (reply: Option<Reply>)
      modifies this`audit
      ensures reply == Handled(m, h, home).0 && audit == old(audit) + Handled(m, h, home).1
    {
      match m {
        case Truncated =>
          return None;
        case Oversized =>
          return Some(Reply(NIL_ID, false, HalError, 1.0));
        case Unparsable =>
          return Some(Reply(NIL_ID, false, HalError, 1.0));
        case Parsed(req) =>
          if !IsKnownAgent(req.agent) {
            audit := audit + [AuditLine(req, 1.0, "block", "auto_denied", "unknown_agent")];
            return Some(Reply(req.requestId, false, AutoDenied, 1.0));
          }
          if req.action == "modify_hal" {
            audit := audit + [AuditLine(req, 1.0, "block", "auto_denied", "modify_hal_attempt")];
            return Some(Reply(req.requestId, false, AutoDenied, 1.0));
          }
          var (level, score) := Classify(req, home);
          if level == Silent || level == Notify {
            var name := if level == Silent then "silent" else "notify";
            audit := audit + [AuditLine(req, score, name, "auto_approved", "")];
            return Some(Reply(req.requestId, true, AutoApproved, score));
          }
          var decision := RequestDecision(h);
          var approved, reason := false, TimeoutDeny;
          if decision.Some? {
            approved, reason := decision.value.0, decision.value.1;
          }
          var outcome := if approved then "approved" else "denied";
          var name := if level == Block then "block" else "confirm";
          audit := audit + [AuditLine(req, score, name, outcome, "")];
          return Some(Reply(req.requestId, approved, reason, score));
      }
    }
  }
}
