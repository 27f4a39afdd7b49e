/**
  The dialog watcher (cli/src/approval_watch.rs, with the frame limits of
  ipc/grpc/src/approval_ui.rs): streams are queued, keys answer the front one.
*/
module ApprovalWatch {
  import opened Common
  import opened ApprovalFlow

  /** A stream opened by the gate for one of its connections, or by some other client of the socket. */
  datatype StreamId = Hal(id: nat) | Foreign(n: nat)

  datatype Response = Response(approved: bool, notice: Option<string>)

  /** A connected stream and whether `read_dialog` makes sense of it. */
  datatype Arrival = Arrival(stream: StreamId, wellFormed: bool)

  /** A write attempt; a response longer than a frame is refused and nothing is sent. */
  datatype Answer = Answer(stream: StreamId, response: Response, toDialog: bool, delivered: bool)

  datatype KeyCode = Char(c: char) | Esc | OtherKey

  datatype Choice = Allow | Deny | AllowWithNotice(notice: string) | Quit

  /** What one keyboard poll yields; `line` is what gets typed if the key asks for a notice. */
  datatype Poll = Nothing | PollError | NotAKey | Key(code: KeyCode, control: bool, line: string)

  /** One pass of the main loop. */
  datatype Tick = Tick(arrivals: seq<Arrival>, poll: Poll)

  datatype Status = Running | Stopped | Failed

  datatype Watch = Watch(queue: seq<StreamId>, sent: seq<Answer>, status: Status)

  type SizeOf = Response -> nat

  function MapKey(code: KeyCode, control: bool, line: string): Option<Choice> {
    if control then None
    else match code
      case Char(c) =>
        if c == 'a' || c == 'A' then Some(Allow)
        else if c == 'd' || c == 'D' then Some(Deny)
        else if c == 'n' || c == 'N' then Some(AllowWithNotice(Trim(line)))
        else if c == 'q' || c == 'Q' then Some(Quit)
        else None
      case Esc => Some(Deny)
      case OtherKey => None
  }

  function ResponseTo(c: Choice): Response {
    match c
    case Allow => Response(true, None)
    case Deny => Response(false, None)
    case AllowWithNotice(notice) => Response(true, Some(notice))
    case Quit => Response(false, Some("watch quit"))
  }

  const MALFORMED := Response(false, Some("malformed dialog"))

  function Written(size: SizeOf, stream: StreamId, r: Response, toDialog: bool): Answer {
    Answer(stream, r, toDialog, size(r) <= MAX_UI_FRAME)
  }

  /** Reading the streams that have arrived: dialogs are queued, anything else is refused at once. */
  function Drained(size: SizeOf, w: Watch, arrivals: seq<Arrival>): Watch {
    if arrivals == [] then w
    else
      var w1 := Drained(size, w, arrivals[..|arrivals| - 1]);
      var a := arrivals[|arrivals| - 1];
      if a.wellFormed then w1.(queue := w1.queue + [a.stream])
      else w1.(sent := w1.sent + [Written(size, a.stream, MALFORMED, false)])
  }

  /** Refusing the queued dialogs in order when the watcher quits. */
  function AllRefused(size: SizeOf, queue: seq<StreamId>): seq<Answer> {
    seq(|queue|, i requires 0 <= i < |queue| => Written(size, queue[i], ResponseTo(Quit), true))
  }

  function Chosen(size: SizeOf, w: Watch, c: Choice): Watch
    requires w.queue != []
  {
    if c == Quit then
      Watch([], w.sent + AllRefused(size, w.queue), Stopped)
    else
      w.(queue := w.queue[1..], sent := w.sent + [Written(size, w.queue[0], ResponseTo(c), true)])
  }

  /** One pass of `watch_main_loop`. With nothing queued only a plain or controlled 'q' stops the watcher. */
  function Next(size: SizeOf, w: Watch, t: Tick): Watch {
    if w.status != Running then w
    else
      var w1 := Drained(size, w, t.arrivals);
      match t.poll
      case Nothing => w1
      case NotAKey => w1
      case PollError => w1.(status := Failed)
      case Key(code, control, line) =>
        if w1.queue == [] then
          if code == Char('q') then w1.(status := Stopped) else w1
        else
          match MapKey(code, control, line)
          case None => w1
          case Some(c) => Chosen(size, w1, c)
  }

  function Run(size: SizeOf, ticks: seq<Tick>): Watch {
    if ticks == [] then Watch([], [], Running)
    else Next(size, Run(size, ticks[..|ticks| - 1]), ticks[|ticks| - 1])
  }

  class Watcher {
    const size: SizeOf
    var queue: seq<StreamId>
    var bannerShown: bool
    var sent: seq<Answer>

    constructor (size: SizeOf)
      ensures this.size == size && queue == [] && sent == []
    {
      this.size, queue, bannerShown, sent := size, [], false, [];
    }

    method WriteResponse(stream: StreamId, r: Response, toDialog: bool)
      modifies this`sent
      ensures sent == old(sent) + [Written(size, stream, r, toDialog)]
    {
      sent := sent + [Answer(stream, r, toDialog, size(r) <= MAX_UI_FRAME)];
    }

    method DrainArrivals(arrivals: seq<Arrival>)
      modifies this
      ensures Watch(queue, sent, Running) == Drained(size, Watch(old(queue), old(sent), Running), arrivals)
    {
      var i := 0;
      while i < |arrivals|
        invariant 0 <= i <= |arrivals|
        invariant Watch(queue, sent, Running) == Drained(size, Watch(old(queue), old(sent), Running), arrivals[..i])
      {
        assert arrivals[..i + 1][..i] == arrivals[..i];
        if arrivals[i].wellFormed {
          queue := queue + [arrivals[i].stream];
          bannerShown := false;
        } else {
          WriteResponse(arrivals[i].stream, MALFORMED, false);
        }
        i := i + 1;
      }
      assert arrivals[..i] == arrivals;
    }

    method RefuseAll()
      modifies this
      ensures queue == [] && sent == old(sent) + AllRefused(size, old(queue))
    {
      var i := 0;
      while i < |queue|
        invariant 0 <= i <= |queue| && queue == old(queue)
        invariant sent == old(sent) + AllRefused(size, queue)[..i]
      {
        WriteResponse(queue[i], ResponseTo(Quit), true);
        i := i + 1;
      }
      queue := [];
    }

    /** `watch_main_loop` over a script of what each pass finds. */
    method MainLoop(ticks: seq<Tick>) returns (status: Status)
      requires queue == [] && sent == []
      modifies this
      ensures Watch(queue, sent, status) == Run(size, ticks)
    {
      bannerShown := false;
      var i := 0;
      while i < |ticks|
        invariant 0 <= i <= |ticks|
        invariant Watch(queue, sent, Running) == Run(size, ticks[..i])
      {
        var t := ticks[i];
        assert ticks[..i + 1][..i] == ticks[..i];
        DrainArrivals(t.arrivals);
        i := i + 1;
        if queue == [] {
          bannerShown := false;
          match t.poll {
            case PollError =>
              StaysPut(size, ticks, i);
              return Failed;
            case Key(code, control, line) =>
              if code == Char('q') {
                StaysPut(size, ticks, i);
                return Stopped;
              }
            case _ =>
          }
          continue;
        }
        bannerShown := true;
        match t.poll {
          case PollError =>
            StaysPut(size, ticks, i);
            return Failed;
          case Key(code, control, line) =>
            var choice := MapKey(code, control, line);
            if choice.Some? {
              bannerShown := false;
              if choice.value == Quit {
                RefuseAll();
                StaysPut(size, ticks, i);
                return Stopped;
              }
              var front := queue[0];
              queue := queue[1..];
              WriteResponse(front, ResponseTo(choice.value), true);
            }
          case _ =>
        }
      }
      assert ticks[..i] == ticks;
      return Running;
    }
  }

  /** Once the watcher has returned nothing more happens. */
  lemma {:induction false} StaysPut(size: SizeOf, ticks: seq<Tick>, i: nat)
    requires i <= |ticks| && Run(size, ticks[..i]).status != Running
    ensures Run(size, ticks) == Run(size, ticks[..i])
    decreases |ticks|
  {
    if i < |ticks| {
      var front := ticks[..|ticks| - 1];
      assert front[..i] == ticks[..i];
      StaysPut(size, front, i);
    } else {
      assert ticks[..i] == ticks;
    }
  }

  // ---- Conservation ----

  function StreamsOf(answers: seq<Answer>): seq<StreamId> {
    if answers == [] then []
    else StreamsOf(answers[..|answers| - 1]) + [answers[|answers| - 1].stream]
  }

  /** Streams answered as dialogs, in the order of the answers. */
  function DialogsAnswered(answers: seq<Answer>): seq<StreamId> {
    if answers == [] then []
    else if answers[|answers| - 1].toDialog then
      DialogsAnswered(answers[..|answers| - 1]) + [answers[|answers| - 1].stream]
    else
      DialogsAnswered(answers[..|answers| - 1])
  }

  function DialogsIn(arrivals: seq<Arrival>): seq<StreamId> {
    if arrivals == [] then []
    else if arrivals[|arrivals| - 1].wellFormed then
      DialogsIn(arrivals[..|arrivals| - 1]) + [arrivals[|arrivals| - 1].stream]
    else
      DialogsIn(arrivals[..|arrivals| - 1])
  }

  /** The well-formed dialogs the watcher has read, in order. */
  function DialogsRead(size: SizeOf, ticks: seq<Tick>): seq<StreamId> {
    if ticks == [] then []
    else
      var front := ticks[..|ticks| - 1];
      DialogsRead(size, front)
      + if Run(size, front).status == Running then DialogsIn(ticks[|ticks| - 1].arrivals) else []
  }

  lemma {:induction false} AnsweredSplit(a: seq<Answer>, b: seq<Answer>)
    ensures DialogsAnswered(a + b) == DialogsAnswered(a) + DialogsAnswered(b)
    ensures StreamsOf(a + b) == StreamsOf(a) + StreamsOf(b)
  {
    if b == [] {
      assert a + b == a;
    } else {
      assert (a + b)[..|a + b| - 1] == a + b[..|b| - 1];
      AnsweredSplit(a, b[..|b| - 1]);
    }
  }

  lemma {:induction false} RefusedStreams(size: SizeOf, queue: seq<StreamId>)
    ensures DialogsAnswered(AllRefused(size, queue)) == queue
    ensures StreamsOf(AllRefused(size, queue)) == queue
  {
    if queue != [] {
      var all := AllRefused(size, queue);
      assert all[..|all| - 1] == AllRefused(size, queue[..|queue| - 1]);
      RefusedStreams(size, queue[..|queue| - 1]);
    }
  }

  lemma OneAnswer(sent: seq<Answer>, a: Answer)
    ensures DialogsAnswered(sent + [a]) ==
            if a.toDialog then DialogsAnswered(sent) + [a.stream] else DialogsAnswered(sent)
    ensures StreamsOf(sent + [a]) == StreamsOf(sent) + [a.stream]
  {
    assert (sent + [a])[..|sent|] == sent;
  }

  lemma {:induction false} DrainConserves(size: SizeOf, w: Watch, arrivals: seq<Arrival>)
    ensures var w' := Drained(size, w, arrivals);
            && w'.status == w.status
            && DialogsAnswered(w'.sent) == DialogsAnswered(w.sent)
            && w'.queue == w.queue + DialogsIn(arrivals)
  {
    if arrivals != [] {
      var front, a := arrivals[..|arrivals| - 1], arrivals[|arrivals| - 1];
      var w1 := Drained(size, w, front);
      DrainConserves(size, w, front);
      if a.wellFormed {
        Regroup(w.queue, DialogsIn(front), [a.stream]);
      } else {
        OneAnswer(w1.sent, Written(size, a.stream, MALFORMED, false));
      }
    }
  }

  lemma ChosenConserves(size: SizeOf, w: Watch, c: Choice)
    requires w.queue != []
    ensures var w' := Chosen(size, w, c);
            && DialogsAnswered(w'.sent) + w'.queue == DialogsAnswered(w.sent) + w.queue
            && (w'.status == Stopped && w.status != Stopped ==> w'.queue == [])
  {
    if c == Quit {
      AnsweredSplit(w.sent, AllRefused(size, w.queue));
      RefusedStreams(size, w.queue);
    } else {
      OneAnswer(w.sent, Written(size, w.queue[0], ResponseTo(c), true));
      MoveOne(DialogsAnswered(w.sent), w.queue);
    }
  }

  lemma Regroup(a: seq<StreamId>, b: seq<StreamId>, d: seq<StreamId>)
    ensures a + (b + d) == a + b + d
  {
  }

  lemma MoveOne(done: seq<StreamId>, queue: seq<StreamId>)
    requires queue != []
    ensures done + [queue[0]] + queue[1..] == done + queue
  {
  }

  /** Answers given and dialogs still queued, put together, are what they were plus what was read. */
  lemma TickConserves(size: SizeOf, w: Watch, t: Tick)
    requires w.status == Running
    ensures var w' := Next(size, w, t);
            && DialogsAnswered(w'.sent) + w'.queue == DialogsAnswered(w.sent) + w.queue + DialogsIn(t.arrivals)
            && (w'.status == Stopped ==> w'.queue == [])
  {
    var w1 := Drained(size, w, t.arrivals);
    DrainConserves(size, w, t.arrivals);
    Regroup(DialogsAnswered(w.sent), w.queue, DialogsIn(t.arrivals));
    if t.poll.Key? && w1.queue != [] {
      var c := MapKey(t.poll.code, t.poll.control, t.poll.line);
      if c.Some? {
        ChosenConserves(size, w1, c.value);
      }
    }
  }

  /**
    Conservation over every run: the dialogs answered, in answering order, and
    then the queue are exactly the well-formed dialogs read, in reading order. So
    each is either queued or answered once, answers go out in arrival order, and
    after a normal return nothing is left unanswered.
  */
  lemma {:induction false} WatchConserves(size: SizeOf, ticks: seq<Tick>)
    ensures var w := Run(size, ticks);
            && DialogsAnswered(w.sent) + w.queue == DialogsRead(size, ticks)
            && (w.status == Stopped ==> w.queue == [])
  {
    if ticks != [] {
      var front := ticks[..|ticks| - 1];
      WatchConserves(size, front);
      if Run(size, front).status == Running {
        TickConserves(size, Run(size, front), ticks[|ticks| - 1]);
      }
    }
  }

  // ---- Who gets a yes ----

  /** The keys a human says yes with, refuses one dialog with, and quits with. */
  predicate IsYesKey(p: Poll) {
    p.Key? && !p.control && p.code in {Char('a'), Char('A'), Char('n'), Char('N')}
  }

  predicate IsNoKey(p: Poll) {
    p.Key? && !p.control && p.code in {Char('d'), Char('D'), Esc}
  }

  predicate IsQuitKey(p: Poll) {
    p.Key? && !p.control && p.code in {Char('q'), Char('Q')}
  }

  /** The tick answers `stream` with a yes: it is at the front when a, A, n or N is pressed without control. */
  predicate YesKey(size: SizeOf, w: Watch, t: Tick, stream: StreamId) {
    var w1 := Drained(size, w, t.arrivals);
    && w.status == Running
    && w1.queue != [] && w1.queue[0] == stream
    && IsYesKey(t.poll)
  }

  /** The sent answers only grow, and an approving one is new only to the stream of a yes. */
  lemma {:induction false} DrainSends(size: SizeOf, w: Watch, arrivals: seq<Arrival>)
    ensures var w' := Drained(size, w, arrivals);
            && w.sent <= w'.sent
            && forall i :: |w.sent| <= i < |w'.sent| ==> !w'.sent[i].response.approved
  {
    if arrivals != [] {
      DrainSends(size, w, arrivals[..|arrivals| - 1]);
    }
  }

  lemma ApprovalsNeedYes(size: SizeOf, w: Watch, t: Tick)
    ensures var w' := Next(size, w, t);
            && w.sent <= w'.sent
            && forall i :: |w.sent| <= i < |w'.sent| && w'.sent[i].response.approved ==>
              w'.sent[i].toDialog && YesKey(size, w, t, w'.sent[i].stream)
  {
    DrainSends(size, w, t.arrivals);
  }

  /** The refusal of a stream whose dialog made no sense. */
  predicate RefusesMalformed(size: SizeOf, a: Answer) {
    && a.response == Response(false, Some("malformed dialog")) && !a.toDialog
    && (a.delivered <==> size(a.response) <= 4096)
  }

  lemma {:induction false} DrainRefuses(size: SizeOf, w: Watch, arrivals: seq<Arrival>)
    ensures var w' := Drained(size, w, arrivals);
            w.sent <= w'.sent && forall i :: |w.sent| <= i < |w'.sent| ==> RefusesMalformed(size, w'.sent[i])
  {
    if arrivals != [] {
      DrainRefuses(size, w, arrivals[..|arrivals| - 1]);
    }
  }

  /** An answer to a dialog; it goes out unless it is longer than 4096 bytes. */
  function DialogAnswer(size: SizeOf, x: StreamId, r: Response): Answer {
    Answer(x, r, true, size(r) <= 4096)
  }

  /**
    What each key does, once the arrivals are read and a dialog is queued. Without
    control, a and A allow the front, n and N allow it with the typed notice, d, D
    and Esc refuse it, q and Q refuse the whole queue in order and stop. Any other
    key, and any key with control, does nothing.
  */
  lemma KeysDo(size: SizeOf, w: Watch, t: Tick)
    requires w.status == Running && t.poll.Key? && Drained(size, w, t.arrivals).queue != []
    ensures var w1, w', k := Drained(size, w, t.arrivals), Next(size, w, t), t.poll.code;
            var front, rest := w1.queue[0], w1.queue[1..];
            if !t.poll.control && k in {Char('a'), Char('A')} then
              w' == Watch(rest, w1.sent + [DialogAnswer(size, front, Response(true, None))], Running)
            else if !t.poll.control && k in {Char('n'), Char('N')} then
              w' == Watch(rest, w1.sent + [DialogAnswer(size, front, Response(true, Some(Trim(t.poll.line))))], Running)
            else if !t.poll.control && k in {Char('d'), Char('D'), Esc} then
              w' == Watch(rest, w1.sent + [DialogAnswer(size, front, Response(false, None))], Running)
            else if !t.poll.control && k in {Char('q'), Char('Q')} then
              && w'.queue == [] && w'.status == Stopped && |w'.sent| == |w1.sent| + |w1.queue|
              && w1.sent <= w'.sent
              && forall i :: 0 <= i < |w1.queue| ==>
                w'.sent[|w1.sent| + i] == DialogAnswer(size, w1.queue[i], Response(false, Some("watch quit")))
            else w' == w1
  {
    DrainConserves(size, w, t.arrivals);
  }

  /** With no dialog queued only q, with or without control, does anything: it stops the watcher. */
  lemma KeysDoWhenIdle(size: SizeOf, w: Watch, t: Tick)
    requires w.status == Running && t.poll.Key? && Drained(size, w, t.arrivals).queue == []
    ensures var w1 := Drained(size, w, t.arrivals);
            Next(size, w, t) == if t.poll.code == Char('q') then w1.(status := Stopped) else w1
  {
  }

  /** A pass approves only when a, A, n or N is pressed without control, and then only the stream at the front. */
  lemma ApprovalNeedsKey(size: SizeOf, w: Watch, t: Tick, i: nat)
    requires |w.sent| <= i < |Next(size, w, t).sent| && Next(size, w, t).sent[i].response.approved
    ensures t.poll.Key? && !t.poll.control && t.poll.code in {Char('a'), Char('A'), Char('n'), Char('N')}
    ensures var queue := Drained(size, w, t.arrivals).queue;
            queue != [] && Next(size, w, t).sent[i].stream == queue[0]
  {
    ApprovalsNeedYes(size, w, t);
  }

  /** And a yes is answered at once: the stream of the yes gets an approving response, sent if it fits in a frame. */
  lemma YesIsAnswered(size: SizeOf, w: Watch, t: Tick, stream: StreamId)
    requires YesKey(size, w, t, stream)
    ensures var sent := Next(size, w, t).sent;
            && sent != [] && sent[|sent| - 1].stream == stream && sent[|sent| - 1].response.approved
            && (sent[|sent| - 1].delivered <==> size(sent[|sent| - 1].response) <= MAX_UI_FRAME)
            && Next(size, w, t).queue == Drained(size, w, t.arrivals).queue[1..]
  {
    DrainConserves(size, w, t.arrivals);
  }

  // ---- Who gets a no ----

  predicate IsDenial(a: Answer, x: StreamId) {
    a.stream == x && !a.response.approved
  }

  ghost predicate Denied(answers: seq<Answer>, x: StreamId) {
    exists i :: 0 <= i < |answers| && IsDenial(answers[i], x)
  }

  predicate IsMalformed(a: Arrival, x: StreamId) {
    a.stream == x && !a.wellFormed
  }

  ghost predicate Malformed(arrivals: seq<Arrival>, x: StreamId) {
    exists i :: 0 <= i < |arrivals| && IsMalformed(arrivals[i], x)
  }

  /**
    The tick refuses `x`: it arrives malformed, or d, D or Esc finds it at the front,
    or q or Q finds it queued, each without control.
  */
  ghost predicate Refuses(size: SizeOf, w: Watch, t: Tick, x: StreamId) {
    var w1 := Drained(size, w, t.arrivals);
    && w.status == Running
    && (|| Malformed(t.arrivals, x)
        || (IsNoKey(t.poll) && w1.queue != [] && w1.queue[0] == x)
        || (IsQuitKey(t.poll) && x in w1.queue))
  }

  lemma DeniedAppend(a: seq<Answer>, b: seq<Answer>, x: StreamId)
    ensures Denied(a + b, x) <==> Denied(a, x) || Denied(b, x)
  {
    if i :| 0 <= i < |a| && IsDenial(a[i], x) {
      assert (a + b)[i] == a[i];
    }
    if j :| 0 <= j < |b| && IsDenial(b[j], x) {
      assert (a + b)[|a| + j] == b[j];
    }
  }

  lemma DeniedOne(sent: seq<Answer>, a: Answer, x: StreamId)
    ensures Denied(sent + [a], x) <==> Denied(sent, x) || IsDenial(a, x)
  {
    DeniedAppend(sent, [a], x);
    assert IsDenial([a][0], x) <==> IsDenial(a, x);
  }

  lemma MalformedLast(arrivals: seq<Arrival>, x: StreamId)
    requires arrivals != []
    ensures var n := |arrivals| - 1;
            Malformed(arrivals, x) <==> Malformed(arrivals[..n], x) || IsMalformed(arrivals[n], x)
  {
    var n := |arrivals| - 1;
    if i :| 0 <= i < n && IsMalformed(arrivals[..n][i], x) {
      assert IsMalformed(arrivals[i], x);
    }
    if i :| 0 <= i < |arrivals| && IsMalformed(arrivals[i], x) {
      assert i < n ==> IsMalformed(arrivals[..n][i], x);
    }
  }

  lemma {:induction false} DrainDenies(size: SizeOf, w: Watch, arrivals: seq<Arrival>, x: StreamId)
    ensures Denied(Drained(size, w, arrivals).sent, x) <==> Denied(w.sent, x) || Malformed(arrivals, x)
  {
    if arrivals != [] {
      var front, a := arrivals[..|arrivals| - 1], arrivals[|arrivals| - 1];
      DrainDenies(size, w, front, x);
      MalformedLast(arrivals, x);
      DeniedOne(Drained(size, w, front).sent, Written(size, a.stream, MALFORMED, false), x);
    }
  }

  lemma RefusedDenies(size: SizeOf, queue: seq<StreamId>, x: StreamId)
    ensures Denied(AllRefused(size, queue), x) <==> x in queue
  {
    if x in queue {
      var i :| 0 <= i < |queue| && queue[i] == x;
      assert IsDenial(AllRefused(size, queue)[i], x);
    }
  }

  /** A pass sends a refusal on a stream exactly when it refuses it. */
  lemma TickDenies(size: SizeOf, w: Watch, t: Tick, x: StreamId)
    ensures Denied(Next(size, w, t).sent, x) <==> Denied(w.sent, x) || Refuses(size, w, t, x)
  {
    var w1 := Drained(size, w, t.arrivals);
    DrainDenies(size, w, t.arrivals, x);
    if w.status == Running && t.poll.Key? && w1.queue != [] {
      var c := MapKey(t.poll.code, t.poll.control, t.poll.line);
      if c == Some(Quit) {
        RefusedDenies(size, w1.queue, x);
        DeniedAppend(w1.sent, AllRefused(size, w1.queue), x);
      } else if c.Some? {
        DeniedOne(w1.sent, Written(size, w1.queue[0], ResponseTo(c.value), true), x);
      }
    }
  }

  // ---- Streams are neither lost nor answered twice ----

  function Times(x: StreamId, s: seq<StreamId>): nat {
    if s == [] then 0 else Times(x, s[..|s| - 1]) + if s[|s| - 1] == x then 1 else 0
  }

  lemma {:induction false} TimesSplit(x: StreamId, a: seq<StreamId>, b: seq<StreamId>)
    ensures Times(x, a + b) == Times(x, a) + Times(x, b)
  {
    if b == [] {
      assert a + b == a;
    } else {
      assert (a + b)[..|a + b| - 1] == a + b[..|b| - 1];
      TimesSplit(x, a, b[..|b| - 1]);
    }
  }

  function StreamsIn(arrivals: seq<Arrival>): seq<StreamId> {
    seq(|arrivals|, i requires 0 <= i < |arrivals| => arrivals[i].stream)
  }

  /** How often a stream is queued or has been answered. */
  function Held(w: Watch, x: StreamId): nat {
    Times(x, w.queue) + Times(x, StreamsOf(w.sent))
  }

  lemma HeldQueued(w: Watch, stream: StreamId, x: StreamId)
    ensures Held(w.(queue := w.queue + [stream]), x) == Held(w, x) + if stream == x then 1 else 0
  {
    assert (w.queue + [stream])[..|w.queue|] == w.queue;
  }

  lemma HeldSent(w: Watch, a: Answer, x: StreamId)
    ensures Held(w.(sent := w.sent + [a]), x) == Held(w, x) + if a.stream == x then 1 else 0
  {
    OneAnswer(w.sent, a);
    var before := StreamsOf(w.sent);
    assert (before + [a.stream])[..|before|] == before;
  }

  lemma HeldRefused(size: SizeOf, w: Watch, x: StreamId)
    requires w.queue != []
    ensures Held(Chosen(size, w, Quit), x) == Held(w, x)
  {
    AnsweredSplit(w.sent, AllRefused(size, w.queue));
    RefusedStreams(size, w.queue);
    TimesSplit(x, StreamsOf(w.sent), w.queue);
  }

  lemma TimesFirst(x: StreamId, s: seq<StreamId>)
    requires s != []
    ensures Times(x, s) == (if s[0] == x then 1 else 0) + Times(x, s[1..])
  {
    assert s == [s[0]] + s[1..];
    TimesSplit(x, [s[0]], s[1..]);
    assert [s[0]][..0] == [];
  }

  lemma HeldFront(size: SizeOf, w: Watch, c: Choice, x: StreamId)
    requires w.queue != [] && c != Quit
    ensures Held(Chosen(size, w, c), x) == Held(w, x)
  {
    HeldSent(w.(queue := w.queue[1..]), Written(size, w.queue[0], ResponseTo(c), true), x);
    TimesFirst(x, w.queue);
  }

  lemma HeldChosen(size: SizeOf, w: Watch, c: Choice, x: StreamId)
    requires w.queue != []
    ensures Held(Chosen(size, w, c), x) == Held(w, x)
  {
    if c == Quit {
      HeldRefused(size, w, x);
    } else {
      HeldFront(size, w, c, x);
    }
  }

  lemma {:induction false} DrainHolds(size: SizeOf, w: Watch, arrivals: seq<Arrival>, x: StreamId)
    ensures Held(Drained(size, w, arrivals), x) == Held(w, x) + Times(x, StreamsIn(arrivals))
  {
    if arrivals != [] {
      var front, a := arrivals[..|arrivals| - 1], arrivals[|arrivals| - 1];
      var w1 := Drained(size, w, front);
      DrainHolds(size, w, front, x);
      assert StreamsIn(arrivals)[..|front|] == StreamsIn(front);
      HeldQueued(w1, a.stream, x);
      HeldSent(w1, Written(size, a.stream, MALFORMED, false), x);
    }
  }

  /** A pass neither loses a stream nor answers one twice. */
  lemma TickHolds(size: SizeOf, w: Watch, t: Tick, x: StreamId)
    ensures Held(Next(size, w, t), x) == Held(w, x) + if w.status == Running then Times(x, StreamsIn(t.arrivals)) else 0
  {
    var w1 := Drained(size, w, t.arrivals);
    DrainHolds(size, w, t.arrivals, x);
    if t.poll.Key? && w1.queue != [] {
      var c := MapKey(t.poll.code, t.poll.control, t.poll.line);
      if c.Some? {
        HeldChosen(size, w1, c.value, x);
      }
    }
  }
}
