/**
  The gate and the watcher together: many connections in flight, each in its own
  thread, one watcher, foreign clients on the watcher's socket, timeouts, and the
  watcher quitting or failing at any time. Steps interleave arbitrarily.
*/
module ApprovalSystem {
  import opened Common
  import opened ApprovalFlow
  import opened ApprovalWatch

  /** Home directory and the sizes of the JSON the two sides print. */
  datatype Env = Env(home: string, dialogSize: Request -> nat, responseSize: Response -> nat)

  /** A connection thread: about to ask, waiting on its stream, finished with a reply, or gone without one. */
  datatype Thread =
    | Asking(req: Request, level: Level, score: real)
    | Waiting(req: Request, level: Level, score: real)
    | Done(request: Option<Request>, reply: Reply)
    | Gone

  datatype Entry = Entry(conn: nat, line: AuditLine)

  datatype State = State(threads: map<nat, Thread>, channel: seq<Arrival>, watch: Watch, audit: seq<Entry>)

  datatype Step =
    | Accept(id: nat, m: Message)
    | Reach(id: nat)
    | Fallback(id: nat, line: Option<string>)
    | ReadAnswer(id: nat)
    | GiveUp(id: nat)
    | ForeignClient(n: nat, wellFormed: bool)
    | WatchTick(count: nat, poll: Poll)

  /** The first answer that was really sent on a stream. */
  function AnswerOn(sent: seq<Answer>, x: StreamId): Option<Answer> {
    if sent == [] then None
    else
      var a := AnswerOn(sent[..|sent| - 1], x);
      if a.Some? then a
      else if sent[|sent| - 1].stream == x && sent[|sent| - 1].delivered then Some(sent[|sent| - 1])
      else None
  }

  function Tagged(id: nat, lines: seq<AuditLine>): seq<Entry> {
    seq(|lines|, i requires 0 <= i < |lines| => Entry(id, lines[i]))
  }

  function Concluded(s: State, id: nat, th: Thread, o: UiOutcome): State
    requires th.Asking? || th.Waiting?
  {
    s.(threads := s.threads[id := Done(Some(th.req), ConcludedReply(th.req, th.score, o))],
       audit := s.audit + [Entry(id, ConcludedLine(th.req, th.level, th.score, o))])
  }

  function TickOf(s: State, count: nat, poll: Poll): Tick {
    Tick(s.channel[..if count <= |s.channel| then count else |s.channel|], poll)
  }

  predicate Is(s: State, id: nat, waiting: bool) {
    id in s.threads && if waiting then s.threads[id].Waiting? else s.threads[id].Asking?
  }

  function Next(env: Env, s: State, step: Step): State {
    match step
    case Accept(id, m) =>
      if id in s.threads then s
      else (
        match Open(m, env.home)
        case Dropped => s.(threads := s.threads[id := Gone])
        case Settled(lines, reply) =>
          s.(threads := s.threads[id := Done(if m.Parsed? then Some(m.req) else None, reply)],
             audit := s.audit + Tagged(id, lines))
        case AskHuman(req, level, score) => s.(threads := s.threads[id := Asking(req, level, score)]))
    case Reach(id) =>
      if !Is(s, id, false) then s
      else
        var th := s.threads[id];
        s.(threads := s.threads[id := Waiting(th.req, th.level, th.score)],
           channel := s.channel + [Arrival(Hal(id), env.dialogSize(th.req) <= MAX_UI_FRAME)])
    case Fallback(id, line) =>
      if !Is(s, id, false) then s else Concluded(s, id, s.threads[id], OutcomeOf(AtTerminal(line)))
    case ReadAnswer(id) =>
      var a := AnswerOn(s.watch.sent, Hal(id));
      if !Is(s, id, true) || a == None then s
      else Concluded(s, id, s.threads[id], OutcomeOf(OverUi(Json(Some(a.value.response.approved)))))
    case GiveUp(id) =>
      if !Is(s, id, true) then s else Concluded(s, id, s.threads[id], OutcomeOf(OverUi(UiRead.Nothing)))
    case ForeignClient(n, wellFormed) =>
      s.(channel := s.channel + [Arrival(Foreign(n), wellFormed)])
    case WatchTick(count, poll) =>
      if s.watch.status != Running then s
      else
        var t := TickOf(s, count, poll);
        s.(watch := ApprovalWatch.Next(env.responseSize, s.watch, t), channel := s.channel[|t.arrivals|..])
  }

  function Run(env: Env, steps: seq<Step>): State {
    if steps == [] then State(map[], [], Watch([], [], Running), [])
    else Next(env, Run(env, steps[..|steps| - 1]), steps[|steps| - 1])
  }

  // ---- An explicit yes ----

  /** The step is a human's yes to connection `id`: a, A, n or N with its stream at the front, or a typed yes. */
  predicate YesNow(env: Env, s: State, step: Step, id: nat) {
    match step
    case WatchTick(count, poll) => YesKey(env.responseSize, s.watch, TickOf(s, count, poll), Hal(id))
    case Fallback(id', line) => id' == id && Is(s, id, false) && line.Some? && IsYes(line.value)
    case _ => false
  }

  ghost predicate YesAt(env: Env, steps: seq<Step>, k: nat, id: nat)
    requires k < |steps|
  {
    YesNow(env, Run(env, steps[..k]), steps[k], id)
  }

  ghost predicate SaidYes(env: Env, steps: seq<Step>, id: nat) {
    exists k :: 0 <= k < |steps| && YesAt(env, steps, k, id)
  }

  lemma YesStays(env: Env, steps: seq<Step>, step: Step, id: nat)
    ensures SaidYes(env, steps, id) ==> SaidYes(env, steps + [step], id)
  {
    var all := steps + [step];
    if SaidYes(env, steps, id) {
      var k :| 0 <= k < |steps| && YesAt(env, steps, k, id);
      assert all[..k] == steps[..k] && all[k] == steps[k];
      assert YesAt(env, all, k, id);
    }
  }

  lemma YesSnoc(env: Env, steps: seq<Step>, step: Step, id: nat)
    ensures SaidYes(env, steps + [step], id) <==> SaidYes(env, steps, id) || YesNow(env, Run(env, steps), step, id)
  {
    var all := steps + [step];
    assert all[..|steps|] == steps && all[|steps|] == step;
    YesStays(env, steps, step, id);
    assert YesNow(env, Run(env, steps), step, id) <==> YesAt(env, all, |steps|, id);
    if SaidYes(env, all, id) {
      var k :| 0 <= k < |all| && YesAt(env, all, k, id);
      assert k < |steps| ==> all[..k] == steps[..k] && all[k] == steps[k];
      assert k < |steps| ==> YesAt(env, steps, k, id);
    }
  }

  lemma RunSnoc(env: Env, steps: seq<Step>, step: Step)
    ensures Run(env, steps + [step]) == Next(env, Run(env, steps), step)
    ensures (steps + [step])[..|steps|] == steps
  {
    assert (steps + [step])[..|steps|] == steps;
  }

  // ---- What every run keeps, for each connection ----

  predicate NeedsHuman(env: Env, req: Request, level: Level, score: real) {
    Classify(req, env.home) == (level, score) && !Harmless(req, env.home)
    && NamedAgent(req.agent) && req.action != "modify_hal"
  }

  ghost predicate ThreadOk(env: Env, steps: seq<Step>, id: nat, th: Thread) {
    match th
    case Asking(req, level, score) => NeedsHuman(env, req, level, score)
    case Waiting(req, level, score) => NeedsHuman(env, req, level, score)
    case Gone => true
    case Done(None, reply) => !reply.approved
    case Done(Some(req), reply) =>
      && reply.requestId == req.requestId
      && (reply.approved ==>
            || (reply.reason == AutoApproved && Harmless(req, env.home))
            || (reply.reason == UserApproved && NamedAgent(req.agent) && req.action != "modify_hal"
                && !Harmless(req, env.home) && SaidYes(env, steps, id)))
  }

  /** Approving answers on a connection's stream come from a yes. */
  ghost predicate SentOk(env: Env, steps: seq<Step>, id: nat, sent: seq<Answer>) {
    forall i :: 0 <= i < |sent| && sent[i].stream == Hal(id) && sent[i].response.approved ==> SaidYes(env, steps, id)
  }

  function LinesOf(audit: seq<Entry>, id: nat): seq<AuditLine> {
    if audit == [] then []
    else LinesOf(audit[..|audit| - 1], id) + if audit[|audit| - 1].conn == id then [audit[|audit| - 1].line] else []
  }

  predicate Matches(line: AuditLine, req: Request, reply: Reply) {
    && line.req == req && line.score == reply.score
    && line.outcome == match reply.reason
      case AutoApproved => "auto_approved"
      case AutoDenied => "auto_denied"
      case UserApproved => "approved"
      case _ => "denied"
  }

  /** A connection has one audit line once it has a reply to a parsed request, and none before. */
  ghost predicate AuditOk(s: State, id: nat) {
    var lines := LinesOf(s.audit, id);
    if id in s.threads && s.threads[id].Done? && s.threads[id].request.Some? then
      |lines| == 1 && Matches(lines[0], s.threads[id].request.value, s.threads[id].reply)
      && (s.threads[id].reply.approved <==> s.threads[id].reply.reason in {AutoApproved, UserApproved})
    else lines == []
  }

  /** How often a stream is on its way to the watcher, queued or answered. */
  function Around(s: State, x: StreamId): nat {
    Held(s.watch, x) + Times(x, StreamsIn(s.channel))
  }

  predicate AskedOnStream(th: Thread) {
    th.Waiting? || (th.Done? && th.request.Some? && th.reply.reason in {UserApproved, UserDenied, TimeoutDeny})
  }

  /** A connection's stream exists at most once, and not before the connection waits on it. */
  ghost predicate StreamOk(s: State, id: nat) {
    && Around(s, Hal(id)) <= 1
    && (id !in s.threads || s.threads[id].Asking? ==> Around(s, Hal(id)) == 0)
    && (Around(s, Hal(id)) == 1 ==> id in s.threads && AskedOnStream(s.threads[id]))
  }

  /** A decision came from the terminal, or from an answer sent on the stream. */
  ghost predicate DecisionOk(s: State, id: nat) {
    id in s.threads && s.threads[id].Done? && s.threads[id].reply.reason in {UserApproved, UserDenied} ==>
      Around(s, Hal(id)) == 0 || AnswerOn(s.watch.sent, Hal(id)).Some?
  }

  ghost predicate Inv(env: Env, steps: seq<Step>, id: nat) {
    var s := Run(env, steps);
    && (id in s.threads ==> ThreadOk(env, steps, id, s.threads[id]))
    && SentOk(env, steps, id, s.watch.sent)
    && AuditOk(s, id) && StreamOk(s, id) && DecisionOk(s, id)
  }

  lemma LinesSnoc(audit: seq<Entry>, e: Entry, id: nat)
    ensures LinesOf(audit + [e], id) == LinesOf(audit, id) + if e.conn == id then [e.line] else []
  {
    assert (audit + [e])[..|audit|] == audit;
  }

  lemma AroundArrival(s: State, a: Arrival, x: StreamId)
    ensures Around(s.(channel := s.channel + [a]), x) == Around(s, x) + if a.stream == x then 1 else 0
  {
    var before := StreamsIn(s.channel);
    assert StreamsIn(s.channel + [a]) == before + [a.stream];
    assert (before + [a.stream])[..|before|] == before;
  }

  predicate IsSentOn(a: Answer, x: StreamId) {
    a.stream == x && a.delivered
  }

  lemma {:induction false} AnswerOnIsSent(sent: seq<Answer>, x: StreamId)
    ensures AnswerOn(sent, x).Some? ==>
              exists i :: 0 <= i < |sent| && sent[i] == AnswerOn(sent, x).value && IsSentOn(sent[i], x)
  {
    if sent != [] {
      AnswerOnIsSent(sent[..|sent| - 1], x);
    }
  }

  lemma {:induction false} AnswerOnStays(sent: seq<Answer>, more: seq<Answer>, x: StreamId)
    requires sent <= more
    ensures AnswerOn(sent, x).Some? ==> AnswerOn(more, x) == AnswerOn(sent, x)
  {
    if sent != more {
      AnswerOnStays(sent, more[..|more| - 1], x);
    }
  }

  // ---- Each step ----

  /** A new connection that is settled at once. */
  lemma SettledKeeps(env: Env, steps: seq<Step>, who: nat, req: Request, lines: seq<AuditLine>, reply: Reply, id: nat)
    requires Inv(env, steps, id) && who !in Run(env, steps).threads
    requires Open(Parsed(req), env.home) == Settled(lines, reply)
    ensures Inv(env, steps + [Accept(who, Parsed(req))], id)
  {
    var s, step := Run(env, steps), Accept(who, Parsed(req));
    RunSnoc(env, steps, step);
    YesStays(env, steps, step, id);
    ClassifyExactly(req, env.home);
    assert Tagged(who, lines) == [Entry(who, lines[0])];
    LinesSnoc(s.audit, Entry(who, lines[0]), id);
  }

  lemma UnparsedKeeps(env: Env, steps: seq<Step>, who: nat, m: Message, id: nat)
    requires Inv(env, steps, id) && who !in Run(env, steps).threads && !m.Parsed?
    ensures Inv(env, steps + [Accept(who, m)], id)
  {
    var s, step := Run(env, steps), Accept(who, m);
    RunSnoc(env, steps, step);
    YesStays(env, steps, step, id);
    assert s.audit + Tagged(who, []) == s.audit;
  }

  lemma AcceptKeeps(env: Env, steps: seq<Step>, who: nat, m: Message, id: nat)
    requires Inv(env, steps, id)
    ensures Inv(env, steps + [Accept(who, m)], id)
  {
    var s, step := Run(env, steps), Accept(who, m);
    if who in s.threads {
      RunSnoc(env, steps, step);
      YesStays(env, steps, step, id);
    } else if !m.Parsed? {
      UnparsedKeeps(env, steps, who, m, id);
    } else {
      match Open(m, env.home)
      case Settled(lines, reply) =>
        SettledKeeps(env, steps, who, m.req, lines, reply, id);
      case AskHuman(req, level, score) =>
        RunSnoc(env, steps, step);
        YesStays(env, steps, step, id);
        ClassifyExactly(req, env.home);
    }
  }

  lemma ReachKeeps(env: Env, steps: seq<Step>, who: nat, id: nat)
    requires Inv(env, steps, id)
    ensures Inv(env, steps + [Reach(who)], id)
  {
    var s, step := Run(env, steps), Reach(who);
    RunSnoc(env, steps, step);
    YesStays(env, steps, step, id);
    if Is(s, who, false) {
      AroundArrival(s, Arrival(Hal(who), env.dialogSize(s.threads[who].req) <= MAX_UI_FRAME), Hal(id));
    }
  }

  /** A conclusion keeps everything, given that a yes was said if it approves, and where the decision came from. */
  lemma ConcludeKeeps(env: Env, steps: seq<Step>, step: Step, who: nat, o: UiOutcome, id: nat)
    requires Inv(env, steps, id)
    requires var s := Run(env, steps);
             && (Is(s, who, false) || Is(s, who, true))
             && Next(env, s, step) == Concluded(s, who, s.threads[who], o)
             && (who == id && o == Decision(true) ==> SaidYes(env, steps + [step], id))
             && (who == id && o.Decision? ==> Around(s, Hal(id)) == 0 || AnswerOn(s.watch.sent, Hal(id)).Some?)
    ensures Inv(env, steps + [step], id)
  {
    var s := Run(env, steps);
    var th := s.threads[who];
    RunSnoc(env, steps, step);
    YesStays(env, steps, step, id);
    LinesSnoc(s.audit, Entry(who, ConcludedLine(th.req, th.level, th.score, o)), id);
  }

  lemma FallbackKeeps(env: Env, steps: seq<Step>, who: nat, line: Option<string>, id: nat)
    requires Inv(env, steps, id)
    ensures Inv(env, steps + [Fallback(who, line)], id)
  {
    var s, step := Run(env, steps), Fallback(who, line);
    RunSnoc(env, steps, step);
    YesSnoc(env, steps, step, id);
    if Is(s, who, false) {
      ConcludeKeeps(env, steps, step, who, OutcomeOf(AtTerminal(line)), id);
    }
  }

  lemma ReadKeeps(env: Env, steps: seq<Step>, who: nat, id: nat)
    requires Inv(env, steps, id)
    ensures Inv(env, steps + [ReadAnswer(who)], id)
  {
    var s, step := Run(env, steps), ReadAnswer(who);
    RunSnoc(env, steps, step);
    YesStays(env, steps, step, id);
    var a := AnswerOn(s.watch.sent, Hal(who));
    if Is(s, who, true) && a.Some? {
      AnswerOnIsSent(s.watch.sent, Hal(who));
      ConcludeKeeps(env, steps, step, who, OutcomeOf(OverUi(Json(Some(a.value.response.approved)))), id);
    }
  }

  lemma GiveUpKeeps(env: Env, steps: seq<Step>, who: nat, id: nat)
    requires Inv(env, steps, id)
    ensures Inv(env, steps + [GiveUp(who)], id)
  {
    var s, step := Run(env, steps), GiveUp(who);
    RunSnoc(env, steps, step);
    YesStays(env, steps, step, id);
    if Is(s, who, true) {
      ConcludeKeeps(env, steps, step, who, OutcomeOf(OverUi(UiRead.Nothing)), id);
    }
  }

  lemma ForeignKeeps(env: Env, steps: seq<Step>, n: nat, wellFormed: bool, id: nat)
    requires Inv(env, steps, id)
    ensures Inv(env, steps + [ForeignClient(n, wellFormed)], id)
  {
    var s, step := Run(env, steps), ForeignClient(n, wellFormed);
    RunSnoc(env, steps, step);
    YesStays(env, steps, step, id);
    AroundArrival(s, Arrival(Foreign(n), wellFormed), Hal(id));
  }

  lemma ChannelSplit(channel: seq<Arrival>, n: nat, x: StreamId)
    requires n <= |channel|
    ensures Times(x, StreamsIn(channel)) == Times(x, StreamsIn(channel[..n])) + Times(x, StreamsIn(channel[n..]))
  {
    assert StreamsIn(channel) == StreamsIn(channel[..n]) + StreamsIn(channel[n..]);
    TimesSplit(x, StreamsIn(channel[..n]), StreamsIn(channel[n..]));
  }

  lemma TickAround(env: Env, s: State, count: nat, poll: Poll, x: StreamId)
    ensures Around(Next(env, s, WatchTick(count, poll)), x) == Around(s, x)
  {
    if s.watch.status == Running {
      var t := TickOf(s, count, poll);
      TickHolds(env.responseSize, s.watch, t, x);
      ChannelSplit(s.channel, |t.arrivals|, x);
    }
  }

  lemma TickSent(env: Env, steps: seq<Step>, count: nat, poll: Poll, id: nat)
    requires SentOk(env, steps, id, Run(env, steps).watch.sent)
    ensures SentOk(env, steps + [WatchTick(count, poll)], id, Run(env, steps + [WatchTick(count, poll)]).watch.sent)
    ensures Run(env, steps).watch.sent <= Run(env, steps + [WatchTick(count, poll)]).watch.sent
  {
    var s, step := Run(env, steps), WatchTick(count, poll);
    RunSnoc(env, steps, step);
    YesSnoc(env, steps, step, id);
    if s.watch.status == Running {
      var t := TickOf(s, count, poll);
      ApprovalsNeedYes(env.responseSize, s.watch, t);
      var sent := ApprovalWatch.Next(env.responseSize, s.watch, t).sent;
      forall i | 0 <= i < |sent| && sent[i].stream == Hal(id) && sent[i].response.approved
        ensures SaidYes(env, steps + [step], id)
      {
        if i < |s.watch.sent| {
          assert s.watch.sent[i] == sent[i];
        }
      }
    }
  }

  lemma TickKeeps(env: Env, steps: seq<Step>, count: nat, poll: Poll, id: nat)
    requires Inv(env, steps, id)
    ensures Inv(env, steps + [WatchTick(count, poll)], id)
  {
    var s, step := Run(env, steps), WatchTick(count, poll);
    RunSnoc(env, steps, step);
    YesStays(env, steps, step, id);
    TickAround(env, s, count, poll, Hal(id));
    TickSent(env, steps, count, poll, id);
    AnswerOnStays(s.watch.sent, Next(env, s, step).watch.sent, Hal(id));
  }

  lemma {:induction false} RunKeepsInv(env: Env, steps: seq<Step>, id: nat)
    ensures Inv(env, steps, id)
  {
    if steps != [] {
      var front, step := steps[..|steps| - 1], steps[|steps| - 1];
      RunKeepsInv(env, front, id);
      match step {
        case Accept(who, m) => AcceptKeeps(env, front, who, m, id);
        case Reach(who) => ReachKeeps(env, front, who, id);
        case Fallback(who, line) => FallbackKeeps(env, front, who, line, id);
        case ReadAnswer(who) => ReadKeeps(env, front, who, id);
        case GiveUp(who) => GiveUpKeeps(env, front, who, id);
        case ForeignClient(n, wellFormed) => ForeignKeeps(env, front, n, wellFormed, id);
        case WatchTick(count, poll) => TickKeeps(env, front, count, poll, id);
      }
      assert front + [step] == steps;
    }
  }

  // ---- Results ----

  /**
    Safety over every interleaving: an approving reply is an automatic one for a
    harmless request (known agent, not AI-generated, outside the Confirm and Block
    rules), or answers a request of a known agent that is not `modify_hal` and to
    which a human said yes in this very run: by a, A, n or N without control while
    its dialog was at the front, or by yes, y or Y at the terminal.
  */
  lemma ApprovedOnlyWithYes(env: Env, steps: seq<Step>, id: nat)
    requires var s := Run(env, steps); id in s.threads && s.threads[id].Done? && s.threads[id].reply.approved
    ensures var th := Run(env, steps).threads[id];
            && th.request.Some? && th.reply.requestId == th.request.value.requestId
            && NamedAgent(th.request.value.agent) && th.request.value.action != "modify_hal"
            && if Harmless(th.request.value, env.home) then th.reply.reason == AutoApproved
               else th.reply.reason == UserApproved && SaidYes(env, steps, id)
  {
    RunKeepsInv(env, steps, id);
  }

  /** A connection whose parsed request has a reply has exactly one audit line, and it matches; the others have none. */
  lemma AuditedOnce(env: Env, steps: seq<Step>, id: nat)
    ensures var s := Run(env, steps); var lines := LinesOf(s.audit, id);
            if id in s.threads && s.threads[id].Done? && s.threads[id].request.Some? then
              |lines| == 1 && Matches(lines[0], s.threads[id].request.value, s.threads[id].reply)
              && (s.threads[id].reply.approved <==> lines[0].outcome in ["auto_approved", "approved"])
            else lines == []
  {
    RunKeepsInv(env, steps, id);
    var s := Run(env, steps);
    if id in s.threads && s.threads[id].Done? && s.threads[id].request.Some? {
      OutcomesApart(LinesOf(s.audit, id)[0].outcome);
    }
  }

  lemma OutcomesApart(o: string)
    ensures o == "auto_denied" || o == "denied" ==> o !in ["auto_approved", "approved"]
  {
    assert |"auto_denied"| == 11 && |"denied"| == 6 && |"auto_approved"| == 13 && |"approved"| == 8;
  }

  lemma {:induction false} TwoAnswers(sent: seq<Answer>, i: nat, j: nat)
    requires i < j < |sent| && sent[i].stream == sent[j].stream
    ensures Times(sent[i].stream, StreamsOf(sent)) >= 2
  {
    var x := sent[i].stream;
    var front := sent[..|sent| - 1];
    assert sent == front + [sent[|sent| - 1]];
    OneAnswer(front, sent[|sent| - 1]);
    assert StreamsOf(sent)[..|StreamsOf(front)|] == StreamsOf(front);
    if j < |front| {
      TwoAnswers(front, i, j);
    } else {
      OneIsCounted(front, i);
    }
  }

  lemma {:induction false} OneIsCounted(sent: seq<Answer>, i: nat)
    requires i < |sent|
    ensures Times(sent[i].stream, StreamsOf(sent)) >= 1
  {
    var front := sent[..|sent| - 1];
    assert sent == front + [sent[|sent| - 1]];
    OneAnswer(front, sent[|sent| - 1]);
    assert StreamsOf(sent)[..|StreamsOf(front)|] == StreamsOf(front);
    if i < |front| {
      OneIsCounted(front, i);
    }
  }

  /** The watcher answers a connection's stream at most once. */
  lemma AnsweredAtMostOnce(env: Env, steps: seq<Step>, id: nat, i: nat, j: nat)
    requires var sent := Run(env, steps).watch.sent;
             i < |sent| && j < |sent| && sent[i].stream == Hal(id) && sent[j].stream == Hal(id)
    ensures i == j
  {
    RunKeepsInv(env, steps, id);
    var sent := Run(env, steps).watch.sent;
    if i < j {
      TwoAnswers(sent, i, j);
    }
    if j < i {
      TwoAnswers(sent, j, i);
    }
  }

  /** A waiting connection that reads a sent answer gets exactly the decision that was sent on its stream. */
  lemma SentAnswerDecides(env: Env, steps: seq<Step>, id: nat, i: nat)
    requires var s := Run(env, steps);
             && i < |s.watch.sent| && s.watch.sent[i].stream == Hal(id) && s.watch.sent[i].delivered
             && Is(s, id, true)
    ensures var s, s' := Run(env, steps), Run(env, steps + [ReadAnswer(id)]);
            s'.threads[id] == Done(Some(s.threads[id].req),
              ConcludedReply(s.threads[id].req, s.threads[id].score, Decision(s.watch.sent[i].response.approved)))
  {
    AnswerOnStream(env, steps, id, i);
    RunSnoc(env, steps, ReadAnswer(id));
  }

  lemma AnswerOnStream(env: Env, steps: seq<Step>, id: nat, i: nat)
    requires var sent := Run(env, steps).watch.sent; i < |sent| && sent[i].stream == Hal(id) && sent[i].delivered
    ensures var sent := Run(env, steps).watch.sent; AnswerOn(sent, Hal(id)) == Some(sent[i])
  {
    RunKeepsInv(env, steps, id);
    OnlyAnswer(Run(env, steps), id, i);
  }

  lemma {:induction false} SentIsFound(sent: seq<Answer>, i: nat)
    requires i < |sent| && sent[i].delivered
    ensures AnswerOn(sent, sent[i].stream).Some?
  {
    if i < |sent| - 1 {
      SentIsFound(sent[..|sent| - 1], i);
    }
  }

  // ---- Is a yes honoured? ----

  /** Step k of the run makes the thread of connection `id` stop waiting without an answer. */
  ghost predicate GaveUpAt(env: Env, steps: seq<Step>, k: nat, id: nat)
    requires k < |steps|
  {
    steps[k] == GiveUp(id) && Is(Run(env, steps[..k]), id, true)
  }

  ghost predicate GaveUp(env: Env, steps: seq<Step>, id: nat) {
    exists k :: 0 <= k < |steps| && GaveUpAt(env, steps, k, id)
  }

  lemma GaveUpSnoc(env: Env, steps: seq<Step>, step: Step, id: nat)
    ensures GaveUp(env, steps + [step], id) <==>
            GaveUp(env, steps, id) || (step == GiveUp(id) && Is(Run(env, steps), id, true))
  {
    var all := steps + [step];
    assert all[..|steps|] == steps && all[|steps|] == step;
    if GaveUp(env, steps, id) {
      var k :| 0 <= k < |steps| && GaveUpAt(env, steps, k, id);
      assert all[..k] == steps[..k] && all[k] == steps[k];
      assert GaveUpAt(env, all, k, id);
    }
    if step == GiveUp(id) && Is(Run(env, steps), id, true) {
      assert GaveUpAt(env, all, |steps|, id);
    }
    if GaveUp(env, all, id) {
      var k :| 0 <= k < |all| && GaveUpAt(env, all, k, id);
      assert k < |steps| ==> all[..k] == steps[..k] && all[k] == steps[k];
      assert k < |steps| ==> GaveUpAt(env, steps, k, id);
    }
  }

  /** The connection has a reply to a parsed request, for this reason. */
  predicate RepliedFor(s: State, id: nat, reason: Reason) {
    id in s.threads && s.threads[id].Done? && s.threads[id].request.Some? && s.threads[id].reply.reason == reason
  }

  ghost predicate YesSent(s: State, id: nat) {
    exists i :: 0 <= i < |s.watch.sent| && s.watch.sent[i].stream == Hal(id) && s.watch.sent[i].response.approved
  }

  /**
    What a yes and a give-up leave behind: a yes never turns into a denial by the
    user, and a request that was asked on its stream times out only by a give-up.
  */
  ghost predicate YesOk(s: State, id: nat, yes: bool, gaveUp: bool) {
    && (gaveUp ==> RepliedFor(s, id, TimeoutDeny))
    && (RepliedFor(s, id, TimeoutDeny) && Around(s, Hal(id)) == 1 ==> gaveUp)
    && (yes ==> || (Is(s, id, true) && YesSent(s, id))
                || RepliedFor(s, id, UserApproved)
                || (RepliedFor(s, id, TimeoutDeny) && Around(s, Hal(id)) == 1))
  }

  /** What of Inv the steps below use. */
  ghost predicate StreamInv(s: State, id: nat) {
    StreamOk(s, id) && DecisionOk(s, id)
  }

  lemma OnlyAnswer(s: State, id: nat, i: nat)
    requires Around(s, Hal(id)) <= 1 && i < |s.watch.sent| && s.watch.sent[i].stream == Hal(id)
    ensures Around(s, Hal(id)) == 1
    ensures AnswerOn(s.watch.sent, Hal(id)) == if s.watch.sent[i].delivered then Some(s.watch.sent[i]) else None
  {
    var sent := s.watch.sent;
    OneIsCounted(sent, i);
    AnswerOnIsSent(sent, Hal(id));
    if sent[i].delivered {
      SentIsFound(sent, i);
    }
    if AnswerOn(sent, Hal(id)).Some? {
      var j :| 0 <= j < |sent| && sent[j] == AnswerOn(sent, Hal(id)).value && IsSentOn(sent[j], Hal(id));
      if i < j {
        TwoAnswers(sent, i, j);
      }
      if j < i {
        TwoAnswers(sent, j, i);
      }
    }
  }

  /** A step that leaves the connection and the streams alone. */
  lemma OtherYes(s: State, s': State, id: nat, yes: bool, gaveUp: bool)
    requires YesOk(s, id, yes, gaveUp) && s'.watch == s.watch && s'.channel == s.channel
    requires (id in s'.threads <==> id in s.threads) && (id in s.threads ==> s'.threads[id] == s.threads[id])
    ensures YesOk(s', id, yes, gaveUp)
  {
    assert Around(s', Hal(id)) == Around(s, Hal(id));
  }

  /** The only answer on a waiting connection's stream, if a yes was said. */
  lemma WaitingYes(s: State, id: nat, yes: bool, gaveUp: bool)
    requires StreamInv(s, id) && YesOk(s, id, yes, gaveUp) && Is(s, id, true)
    ensures !gaveUp
    ensures yes ==> Around(s, Hal(id)) == 1
    ensures yes && AnswerOn(s.watch.sent, Hal(id)).Some? ==> AnswerOn(s.watch.sent, Hal(id)).value.response.approved
  {
    if yes {
      var i :| 0 <= i < |s.watch.sent| && s.watch.sent[i].stream == Hal(id) && s.watch.sent[i].response.approved;
      OnlyAnswer(s, id, i);
    }
  }

  lemma ReadYes(env: Env, s: State, who: nat, id: nat, yes: bool, gaveUp: bool)
    requires StreamInv(s, id) && YesOk(s, id, yes, gaveUp)
    ensures YesOk(Next(env, s, ReadAnswer(who)), id, yes, gaveUp)
  {
    if who == id && Is(s, id, true) {
      WaitingYes(s, id, yes, gaveUp);
    } else {
      OtherYes(s, Next(env, s, ReadAnswer(who)), id, yes, gaveUp);
    }
  }

  lemma GiveUpYes(env: Env, s: State, who: nat, id: nat, yes: bool, gaveUp: bool)
    requires StreamInv(s, id) && YesOk(s, id, yes, gaveUp)
    ensures YesOk(Next(env, s, GiveUp(who)), id, yes, gaveUp || (who == id && Is(s, id, true)))
  {
    var s' := Next(env, s, GiveUp(who));
    if who == id && Is(s, id, true) {
      WaitingYes(s, id, yes, gaveUp);
      assert Around(s', Hal(id)) == Around(s, Hal(id));
    } else {
      OtherYes(s, s', id, yes, gaveUp);
    }
  }

  lemma ReachYes(env: Env, s: State, who: nat, id: nat, yes: bool, gaveUp: bool)
    requires StreamInv(s, id) && YesOk(s, id, yes, gaveUp)
    ensures YesOk(Next(env, s, Reach(who)), id, yes, gaveUp)
  {
    if Is(s, who, false) {
      AroundArrival(s, Arrival(Hal(who), env.dialogSize(s.threads[who].req) <= MAX_UI_FRAME), Hal(id));
    }
  }

  /** What the watcher holds after reading its arrivals was around before. */
  lemma DrainAround(size: SizeOf, s: State, count: nat, poll: Poll, x: StreamId)
    ensures Held(Drained(size, s.watch, TickOf(s, count, poll).arrivals), x) <= Around(s, x)
  {
    var t := TickOf(s, count, poll);
    DrainHolds(size, s.watch, t.arrivals, x);
    ChannelSplit(s.channel, |t.arrivals|, x);
  }

  /** A stream at the front when a key is read is the connection's one, not yet answered. */
  lemma FrontIsUnanswered(env: Env, s: State, count: nat, poll: Poll, id: nat)
    requires Around(s, Hal(id)) <= 1 && YesNow(env, s, WatchTick(count, poll), id)
    ensures Around(s, Hal(id)) == 1 && AnswerOn(s.watch.sent, Hal(id)) == None
  {
    var t := TickOf(s, count, poll);
    var w1 := Drained(env.responseSize, s.watch, t.arrivals);
    DrainAround(env.responseSize, s, count, poll, Hal(id));
    TimesFirst(w1.queue[0], w1.queue);
    DrainSends(env.responseSize, s.watch, t.arrivals);
    AnswerOnIsSent(s.watch.sent, Hal(id));
    if AnswerOn(s.watch.sent, Hal(id)).Some? {
      var j :| 0 <= j < |s.watch.sent| && s.watch.sent[j].stream == Hal(id);
      OneIsCounted(w1.sent, j);
      assert false;
    }
  }

  lemma YesSentStays(s: State, s': State, id: nat)
    requires YesSent(s, id) && s.watch.sent <= s'.watch.sent
    ensures YesSent(s', id)
  {
    var i :| 0 <= i < |s.watch.sent| && s.watch.sent[i].stream == Hal(id) && s.watch.sent[i].response.approved;
    assert s'.watch.sent[i] == s.watch.sent[i];
  }

  /** A pass leaves the threads alone, keeps what was sent, and sends a yes that is said in it. */
  lemma TickFacts(env: Env, s: State, count: nat, poll: Poll, id: nat)
    requires Around(s, Hal(id)) <= 1
    ensures var s' := Next(env, s, WatchTick(count, poll));
            && s'.threads == s.threads && s.watch.sent <= s'.watch.sent
            && (YesNow(env, s, WatchTick(count, poll), id) ==>
                  YesSent(s', id) && Around(s, Hal(id)) == 1 && AnswerOn(s.watch.sent, Hal(id)) == None)
  {
    if s.watch.status == Running {
      var t := TickOf(s, count, poll);
      ApprovalsNeedYes(env.responseSize, s.watch, t);
      if YesNow(env, s, WatchTick(count, poll), id) {
        FrontIsUnanswered(env, s, count, poll, id);
        YesIsAnswered(env.responseSize, s.watch, t, Hal(id));
      }
    }
  }

  lemma TickYes(env: Env, s: State, count: nat, poll: Poll, id: nat, yes: bool, gaveUp: bool)
    requires StreamInv(s, id) && YesOk(s, id, yes, gaveUp)
    ensures YesOk(Next(env, s, WatchTick(count, poll)), id,
                  yes || YesNow(env, s, WatchTick(count, poll), id), gaveUp)
  {
    var s' := Next(env, s, WatchTick(count, poll));
    TickAround(env, s, count, poll, Hal(id));
    TickFacts(env, s, count, poll, id);
    if YesSent(s, id) {
      YesSentStays(s, s', id);
    }
    TickYesState(s, s', id, yes, gaveUp, YesNow(env, s, WatchTick(count, poll), id));
  }

  lemma TickYesState(s: State, s': State, id: nat, yes: bool, gaveUp: bool, now: bool)
    requires StreamInv(s, id) && YesOk(s, id, yes, gaveUp)
    requires s'.threads == s.threads && Around(s', Hal(id)) == Around(s, Hal(id))
    requires YesSent(s, id) ==> YesSent(s', id)
    requires now ==> YesSent(s', id) && Around(s, Hal(id)) == 1 && AnswerOn(s.watch.sent, Hal(id)) == None
    ensures YesOk(s', id, yes || now, gaveUp)
  {
  }

  lemma SettledInTime(m: Message, home: string)
    ensures Open(m, home).Settled? ==> Open(m, home).reply.reason != TimeoutDeny
  {
  }

  lemma AcceptYes(env: Env, s: State, who: nat, m: Message, id: nat, yes: bool, gaveUp: bool)
    requires StreamInv(s, id) && YesOk(s, id, yes, gaveUp)
    ensures YesOk(Next(env, s, Accept(who, m)), id, yes, gaveUp)
  {
    var s' := Next(env, s, Accept(who, m));
    assert s'.watch == s.watch && Around(s', Hal(id)) == Around(s, Hal(id));
    SettledInTime(m, env.home);
    if who != id || id in s.threads {
      assert id in s'.threads <==> id in s.threads;
      assert id in s.threads ==> s'.threads[id] == s.threads[id];
    } else {
      assert !RepliedFor(s', id, TimeoutDeny);
    }
  }

  lemma FallbackYes(env: Env, s: State, who: nat, line: Option<string>, id: nat, yes: bool, gaveUp: bool)
    requires StreamInv(s, id) && YesOk(s, id, yes, gaveUp)
    ensures YesOk(Next(env, s, Fallback(who, line)), id, yes || YesNow(env, s, Fallback(who, line), id), gaveUp)
  {
    assert Around(Next(env, s, Fallback(who, line)), Hal(id)) == Around(s, Hal(id));
  }

  lemma StepYes(env: Env, s: State, step: Step, id: nat, yes: bool, gaveUp: bool)
    requires StreamInv(s, id) && YesOk(s, id, yes, gaveUp)
    ensures YesOk(Next(env, s, step), id, yes || YesNow(env, s, step, id),
                  gaveUp || (step == GiveUp(id) && Is(s, id, true)))
  {
    match step
    case Reach(who) => ReachYes(env, s, who, id, yes, gaveUp);
    case ReadAnswer(who) => ReadYes(env, s, who, id, yes, gaveUp);
    case GiveUp(who) => GiveUpYes(env, s, who, id, yes, gaveUp);
    case WatchTick(count, poll) => TickYes(env, s, count, poll, id, yes, gaveUp);
    case Accept(who, m) => AcceptYes(env, s, who, m, id, yes, gaveUp);
    case Fallback(who, line) => FallbackYes(env, s, who, line, id, yes, gaveUp);
    case ForeignClient(n, wellFormed) => AroundArrival(s, Arrival(Foreign(n), wellFormed), Hal(id));
  }

  lemma {:induction false} RunKeepsYes(env: Env, steps: seq<Step>, id: nat)
    ensures YesOk(Run(env, steps), id, SaidYes(env, steps, id), GaveUp(env, steps, id))
  {
    if steps != [] {
      var front, step := steps[..|steps| - 1], steps[|steps| - 1];
      RunKeepsYes(env, front, id);
      RunKeepsInv(env, front, id);
      StepYes(env, Run(env, front), step, id, SaidYes(env, front, id), GaveUp(env, front, id));
      assert front + [step] == steps;
      YesSnoc(env, front, step, id);
      GaveUpSnoc(env, front, step, id);
    }
  }

  /**
    When a yes counts: a request to which a human said yes is approved in its reply
    exactly when its thread did not give up waiting. Nothing else turns a yes into
    a refusal: no other connection, foreign client, refused stream or watcher exit.
  */
  lemma YesHonouredExactly(env: Env, steps: seq<Step>, id: nat)
    requires var s := Run(env, steps); id in s.threads && s.threads[id].Done? && s.threads[id].request.Some?
    requires SaidYes(env, steps, id)
    ensures Run(env, steps).threads[id].reply.approved <==> !GaveUp(env, steps, id)
  {
    RunKeepsInv(env, steps, id);
    RunKeepsYes(env, steps, id);
  }

  /** An answer too long for a frame is never sent, so its thread is still waiting or has given up. */
  lemma UnsentAnswerTimesOut(env: Env, steps: seq<Step>, id: nat, i: nat)
    requires var sent := Run(env, steps).watch.sent;
             i < |sent| && sent[i].stream == Hal(id) && !sent[i].delivered
    ensures var s := Run(env, steps);
            || Is(s, id, true)
            || (GaveUp(env, steps, id) && RepliedFor(s, id, TimeoutDeny) && !s.threads[id].reply.approved)
  {
    RunKeepsInv(env, steps, id);
    RunKeepsYes(env, steps, id);
    OnlyAnswer(Run(env, steps), id, i);
  }

  /** A request that needs a human is asked, and its dialog is on the way to the watcher. */
  function Asked(req: Request): seq<Step> {
    [Accept(0, Parsed(req)), Reach(0)]
  }

  lemma AskedState(env: Env, req: Request)
    requires Open(Parsed(req), env.home).AskHuman?
    ensures var (level, score) := Classify(req, env.home);
            Run(env, Asked(req)) ==
            State(map[0 := Waiting(req, level, score)], [Arrival(Hal(0), env.dialogSize(req) <= MAX_UI_FRAME)],
                  Watch([], [], Running), [])
  {
    RunSnoc(env, [], Accept(0, Parsed(req)));
    RunSnoc(env, [Accept(0, Parsed(req))], Reach(0));
    assert [] + [Accept(0, Parsed(req))] == [Accept(0, Parsed(req))];
    assert Asked(req) == [Accept(0, Parsed(req))] + [Reach(0)];
  }

  lemma FirstKey(env: Env, s: State, code: KeyCode, line: string)
    requires s.channel == [Arrival(Hal(0), true)] && s.watch == Watch([], [], Running)
    requires IsYesKey(Key(code, false, line))
    ensures var step := WatchTick(1, Key(code, false, line));
            var r := Response(true, if code in {Char('a'), Char('A')} then None else Some(Trim(line)));
            && YesNow(env, s, step, 0)
            && Next(env, s, step) ==
               s.(watch := Watch([], [Written(env.responseSize, Hal(0), r, true)], Running), channel := [])
  {
    var t := TickOf(s, 1, Key(code, false, line));
    assert t.arrivals == [Arrival(Hal(0), true)] && t.arrivals[..0] == [];
    assert Drained(env.responseSize, s.watch, []) == s.watch;
    assert [] + [Hal(0)] == [Hal(0)];
  }

  /** A yes after the give-up: the watcher answers with an approval, which changes nothing. */
  lemma LateYesIsDenied(env: Env, req: Request)
    requires Open(Parsed(req), env.home).AskHuman? && env.dialogSize(req) <= MAX_UI_FRAME
    requires env.responseSize(Response(true, None)) <= MAX_UI_FRAME
    ensures var steps := Asked(req) + [GiveUp(0)] + [WatchTick(1, Key(Char('a'), false, ""))]; var s := Run(env, steps);
            && SaidYes(env, steps, 0)
            && AnswerOn(s.watch.sent, Hal(0)) == Some(Answer(Hal(0), Response(true, None), true, true))
            && RepliedFor(s, 0, TimeoutDeny) && !s.threads[0].reply.approved
  {
    var front, key := Asked(req) + [GiveUp(0)], WatchTick(1, Key(Char('a'), false, ""));
    AskedState(env, req);
    RunSnoc(env, Asked(req), GiveUp(0));
    RunSnoc(env, front, key);
    FirstKey(env, Run(env, front), Char('a'), "");
    YesSnoc(env, front, key, 0);
    OneAnswerOn(Answer(Hal(0), Response(true, None), true, true));
  }

  lemma OneAnswerOn(a: Answer)
    ensures AnswerOn([a], a.stream) == if a.delivered then Some(a) else None
  {
    assert [a][..0] == [];
  }

  lemma LongNoticeUnsent(env: Env, req: Request, line: string)
    requires Open(Parsed(req), env.home).AskHuman? && env.dialogSize(req) <= MAX_UI_FRAME
    requires env.responseSize(Response(true, Some(Trim(line)))) > MAX_UI_FRAME
    ensures var steps := Asked(req) + [WatchTick(1, Key(Char('n'), false, line))]; var s := Run(env, steps);
            && SaidYes(env, steps, 0) && Is(s, 0, true) && AnswerOn(s.watch.sent, Hal(0)) == None
  {
    var key := WatchTick(1, Key(Char('n'), false, line));
    AskedState(env, req);
    RunSnoc(env, Asked(req), key);
    FirstKey(env, Run(env, Asked(req)), Char('n'), line);
    YesSnoc(env, Asked(req), key, 0);
    OneAnswerOn(Answer(Hal(0), Response(true, Some(Trim(line))), true, false));
  }

  /** A yes in time, but with a notice too long for a frame: nothing is sent, and only the give-up is left. */
  lemma LongNoticeIsDenied(env: Env, req: Request, line: string)
    requires Open(Parsed(req), env.home).AskHuman? && env.dialogSize(req) <= MAX_UI_FRAME
    requires env.responseSize(Response(true, Some(Trim(line)))) > MAX_UI_FRAME
    ensures var steps := Asked(req) + [WatchTick(1, Key(Char('n'), false, line))] + [GiveUp(0)];
            var s := Run(env, steps);
            && SaidYes(env, steps, 0) && AnswerOn(s.watch.sent, Hal(0)) == None
            && RepliedFor(s, 0, TimeoutDeny) && !s.threads[0].reply.approved
  {
    var front := Asked(req) + [WatchTick(1, Key(Char('n'), false, line))];
    LongNoticeUnsent(env, req, line);
    RunSnoc(env, front, GiveUp(0));
    YesStays(env, front, GiveUp(0), 0);
  }

  // ---- Where a denial comes from ----

  ghost predicate RefusedNow(env: Env, s: State, step: Step, id: nat) {
    step.WatchTick? && Refuses(env.responseSize, s.watch, TickOf(s, step.count, step.poll), Hal(id))
  }

  ghost predicate RefusedAt(env: Env, steps: seq<Step>, k: nat, id: nat)
    requires k < |steps|
  {
    RefusedNow(env, Run(env, steps[..k]), steps[k], id)
  }

  /** The watcher has refused connection `id`: by a deny key at the front, by quitting, or as malformed. */
  ghost predicate Refused(env: Env, steps: seq<Step>, id: nat) {
    exists k :: 0 <= k < |steps| && RefusedAt(env, steps, k, id)
  }

  lemma RefusedSnoc(env: Env, steps: seq<Step>, step: Step, id: nat)
    ensures Refused(env, steps + [step], id) <==> Refused(env, steps, id) || RefusedNow(env, Run(env, steps), step, id)
  {
    var all := steps + [step];
    assert all[..|steps|] == steps && all[|steps|] == step;
    if Refused(env, steps, id) {
      var k :| 0 <= k < |steps| && RefusedAt(env, steps, k, id);
      assert all[..k] == steps[..k] && all[k] == steps[k];
      assert RefusedAt(env, all, k, id);
    }
    assert RefusedNow(env, Run(env, steps), step, id) <==> RefusedAt(env, all, |steps|, id);
    if Refused(env, all, id) {
      var k :| 0 <= k < |all| && RefusedAt(env, all, k, id);
      assert k < |steps| ==> all[..k] == steps[..k] && all[k] == steps[k];
      assert k < |steps| ==> RefusedAt(env, steps, k, id);
    }
  }

  lemma StepDenies(env: Env, s: State, step: Step, id: nat)
    ensures Denied(Next(env, s, step).watch.sent, Hal(id)) <==>
            Denied(s.watch.sent, Hal(id)) || RefusedNow(env, s, step, id)
  {
    if step.WatchTick? && s.watch.status == Running {
      TickDenies(env.responseSize, s.watch, TickOf(s, step.count, step.poll), Hal(id));
    }
  }

  lemma RefusalGrows(env: Env, steps: seq<Step>, step: Step, id: nat)
    requires Denied(Run(env, steps).watch.sent, Hal(id)) <==> Refused(env, steps, id)
    ensures Denied(Run(env, steps + [step]).watch.sent, Hal(id)) <==> Refused(env, steps + [step], id)
  {
    RunSnoc(env, steps, step);
    StepDenies(env, Run(env, steps), step, id);
    RefusedSnoc(env, steps, step, id);
  }

  lemma {:induction false} DenialsAreRefusals(env: Env, steps: seq<Step>, id: nat)
    ensures Denied(Run(env, steps).watch.sent, Hal(id)) <==> Refused(env, steps, id)
  {
    if steps != [] {
      var front, step := steps[..|steps| - 1], steps[|steps| - 1];
      DenialsAreRefusals(env, front, id);
      assert front + [step] == steps;
      RefusalGrows(env, front, step, id);
    }
  }

  /** The step ends the connection with a no: something other than a yes is typed, or a refusal is read. */
  predicate DeniesNow(s: State, step: Step, id: nat) {
    match step
    case Fallback(who, line) => who == id && Is(s, id, false) && line.Some? && !IsYes(line.value)
    case ReadAnswer(who) =>
      && who == id && Is(s, id, true)
      && AnswerOn(s.watch.sent, Hal(id)).Some? && !AnswerOn(s.watch.sent, Hal(id)).value.response.approved
    case _ => false
  }

  lemma DenyStep(env: Env, s: State, step: Step, id: nat)
    ensures RepliedFor(Next(env, s, step), id, UserDenied) <==>
            RepliedFor(s, id, UserDenied) || DeniesNow(s, step, id)
  {
    match step
    case Accept(who, m) => SettledByRule(m, env.home);
    case _ =>
  }

  lemma SettledByRule(m: Message, home: string)
    ensures Open(m, home).Settled? ==> Open(m, home).reply.reason != UserDenied
  {
  }

  /** At step k connection `id` is answered no at the terminal, or reads the answer of a watcher that has refused it. */
  ghost predicate DeniedAt(env: Env, steps: seq<Step>, k: nat, id: nat)
    requires k < |steps|
  {
    var s := Run(env, steps[..k]);
    match steps[k]
    case Fallback(who, line) => who == id && Is(s, id, false) && line.Some? && !IsYes(line.value)
    case ReadAnswer(who) =>
      && who == id && Is(s, id, true) && AnswerOn(s.watch.sent, Hal(id)).Some?
      && Refused(env, steps[..k], id)
    case _ => false
  }

  lemma DeniedAtIs(env: Env, steps: seq<Step>, k: nat, id: nat)
    requires k < |steps|
    ensures DeniedAt(env, steps, k, id) <==> DeniesNow(Run(env, steps[..k]), steps[k], id)
  {
    var s := Run(env, steps[..k]);
    RunKeepsInv(env, steps[..k], id);
    DenialsAreRefusals(env, steps[..k], id);
    AnswerOnIsSent(s.watch.sent, Hal(id));
    if AnswerOn(s.watch.sent, Hal(id)).Some? && Denied(s.watch.sent, Hal(id)) {
      var i :| 0 <= i < |s.watch.sent| && IsDenial(s.watch.sent[i], Hal(id));
      OnlyAnswer(s, id, i);
    }
  }

  ghost predicate WasDenied(env: Env, steps: seq<Step>, id: nat) {
    exists k :: 0 <= k < |steps| && DeniedAt(env, steps, k, id)
  }

  lemma DeniedAtPrefix(env: Env, steps: seq<Step>, step: Step, k: nat, id: nat)
    requires k < |steps|
    ensures DeniedAt(env, steps + [step], k, id) <==> DeniedAt(env, steps, k, id)
  {
    assert (steps + [step])[..k] == steps[..k] && (steps + [step])[k] == steps[k];
  }

  lemma WasDeniedSnoc(env: Env, steps: seq<Step>, step: Step, id: nat)
    ensures WasDenied(env, steps + [step], id) <==>
            WasDenied(env, steps, id) || DeniesNow(Run(env, steps), step, id)
  {
    var all := steps + [step];
    assert all[..|steps|] == steps && all[|steps|] == step;
    DeniedAtIs(env, all, |steps|, id);
    if k :| 0 <= k < |steps| && DeniedAt(env, steps, k, id) {
      DeniedAtPrefix(env, steps, step, k, id);
    }
    if k :| 0 <= k < |all| && DeniedAt(env, all, k, id) {
      if k < |steps| {
        DeniedAtPrefix(env, steps, step, k, id);
      }
    }
  }

  lemma DenialGrows(env: Env, steps: seq<Step>, step: Step, id: nat)
    requires RepliedFor(Run(env, steps), id, UserDenied) <==> WasDenied(env, steps, id)
    ensures RepliedFor(Run(env, steps + [step]), id, UserDenied) <==> WasDenied(env, steps + [step], id)
  {
    RunSnoc(env, steps, step);
    DenyStep(env, Run(env, steps), step, id);
    WasDeniedSnoc(env, steps, step, id);
  }

  /**
    The dual of safety, over every interleaving: a reply says that the user denied
    exactly when something other than a yes was typed for the request, or its
    thread read the answer of a watcher that had refused it - by a deny key with
    its dialog at the front, by quitting, or because its dialog was malformed.
  */
  lemma {:induction false} DeniedExactly(env: Env, steps: seq<Step>, id: nat)
    ensures RepliedFor(Run(env, steps), id, UserDenied) <==> WasDenied(env, steps, id)
  {
    if steps != [] {
      var front, step := steps[..|steps| - 1], steps[|steps| - 1];
      DeniedExactly(env, front, id);
      assert front + [step] == steps;
      DenialGrows(env, front, step, id);
    }
  }

  /**
    So "user denied" needs no user: a dialog too long for a frame is refused as
    malformed, and the reply says that the user denied though no key was pressed.
  */
  lemma LongDialogIsDenied(env: Env, req: Request)
    requires Open(Parsed(req), env.home).AskHuman? && env.dialogSize(req) > MAX_UI_FRAME
    requires env.responseSize(MALFORMED) <= MAX_UI_FRAME
    ensures RepliedFor(Run(env, Asked(req) + [WatchTick(1, Poll.Nothing)] + [ReadAnswer(0)]), 0, UserDenied)
  {
    var tick := WatchTick(1, Poll.Nothing);
    AskedState(env, req);
    RunSnoc(env, Asked(req), tick);
    MalformedTick(env, Run(env, Asked(req)));
    RunSnoc(env, Asked(req) + [tick], ReadAnswer(0));
    OneAnswerOn(Written(env.responseSize, Hal(0), MALFORMED, false));
  }

  lemma MalformedTick(env: Env, s: State)
    requires s.channel == [Arrival(Hal(0), false)] && s.watch == Watch([], [], Running)
    ensures Next(env, s, WatchTick(1, Poll.Nothing)) ==
            s.(watch := Watch([], [Written(env.responseSize, Hal(0), MALFORMED, false)], Running), channel := [])
  {
    var t := TickOf(s, 1, Poll.Nothing);
    assert t.arrivals == [Arrival(Hal(0), false)] && t.arrivals[..0] == [];
    assert Drained(env.responseSize, s.watch, []) == s.watch;
  }
}
