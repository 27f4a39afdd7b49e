/**
  What the exact acceptance result of module AuditLog means for sequential use,
  for rotation, and for racing appends (hal/src/audit_log.rs).
*/
module AuditRuns {
  import opened Common
  import opened AuditFormat
  import opened AuditTamper
  import opened AuditLog

  // ---- Sequential use ----

  /** One caller at a time. `Sync` stands for flush, query, export and verify, which all flush first. */
  datatype Op = Append(draft: AuditEntry, due: bool) | Sync | WipeAll | Restart

  function EventsOf(op: Op): seq<Event> {
    match op
    case Append(draft, due) => [Build(0, draft), Push(0, due)]
    case Sync => [Flush]
    case WipeAll => [Wipe]
    case Restart => [Reopen]
  }

  function Compiled(ops: seq<Op>): seq<Event> {
    if ops == [] then [] else Compiled(ops[..|ops| - 1]) + EventsOf(ops[|ops| - 1])
  }

  predicate WipeFree(ops: seq<Op>) {
    forall i :: 0 <= i < |ops| ==> !ops[i].WipeAll?
  }

  ghost function Flatten(files: seq<seq<AuditEntry>>): seq<AuditEntry> {
    if files == [] then [] else Flatten(files[..|files| - 1]) + files[|files| - 1]
  }

  ghost predicate InOrder(w: World) {
    && w.inflight == map[]
    && w.hist.built == w.hist.written + w.log.pending
    && w.hist.sealed == w.hist.written
  }

  /** How the current file relates to all that was flushed since the last wipe. */
  ghost predicate FilesOk(h: History, wipeFree: bool) {
    && |h.current| <= |h.written|
    && (h.retired == [] ==> h.current == h.written)
    && (wipeFree ==> h.written == Flatten(h.retired) + h.current)
    && (wipeFree && h.retired != [] ==> |h.current| < |h.written|)
  }

  ghost predicate SequentialInv(w: World, wipeFree: bool) {
    InOrder(w) && FilesOk(w.hist, wipeFree)
  }

  lemma {:induction false} RunSplit(c: Codec, a: seq<Event>, b: seq<Event>)
    ensures b == [] ==> Run(c, a + b) == Run(c, a)
    ensures |b| == 1 ==> Run(c, a + b) == Step(c, Run(c, a), b[0])
    ensures |b| == 2 ==> Run(c, a + b) == Step(c, Step(c, Run(c, a), b[0]), b[1])
  {
    if b == [] {
      assert a + b == a;
    } else if |b| == 1 {
      assert (a + b)[..|a + b| - 1] == a;
    } else if |b| == 2 {
      assert (a + b)[..|a + b| - 1] == a + [b[0]];
      assert (a + [b[0]])[..|a + [b[0]]| - 1] == a;
    }
  }

  lemma FlushKeepsHistory(st: LogState, h: History, wipeFree: bool)
    requires FilesOk(h, wipeFree) && (RotationDue(st) ==> h.current != [])
    ensures FilesOk(NoteFlush(st, h), wipeFree)
  {
    var h' := NoteFlush(st, h);
    if st.pending != [] && wipeFree {
      if RotationDue(st) {
        assert h'.retired[..|h'.retired| - 1] == h.retired;
        assert Flatten(h'.retired) == Flatten(h.retired) + h.current;
      } else {
        assert h.written + st.pending == Flatten(h.retired) + (h.current + st.pending);
      }
    }
  }

  lemma FlushKeepsSequential(c: Codec, w: World, wipeFree: bool)
    requires |w.log.slots| == MAX_ROTATED_FILES && w.log.current == Text(c, w.hist.current)
    requires SequentialInv(w, wipeFree)
    ensures SequentialInv(Step(c, w, Flush), wipeFree)
    ensures Step(c, w, Flush).log.pending == []
  {
    FlushKeepsHistory(w.log, w.hist, wipeFree);
  }

  lemma AppendKeepsSequential(c: Codec, w: World, draft: AuditEntry, due: bool, wipeFree: bool)
    requires |w.log.slots| == MAX_ROTATED_FILES && w.log.current == Text(c, w.hist.current)
    requires SequentialInv(w, wipeFree)
    ensures SequentialInv(Step(c, Step(c, w, Build(0, draft)), Push(0, due)), wipeFree)
  {
    var mid := Step(c, w, Build(0, draft));
    var e := mid.inflight[0];
    var held := mid.(log := mid.log.(pending := mid.log.pending + [e]), inflight := map[]);
    assert mid.inflight - {0} == map[];
    assert w.hist.written + w.log.pending + [e] == w.hist.written + (w.log.pending + [e]);
    assert FilesOk(held.hist, wipeFree);
    FlushKeepsSequential(c, held, wipeFree);
  }

  lemma OpKeepsSequential(c: Codec, events: seq<Event>, op: Op, wipeFree: bool)
    requires var w := Run(c, events); w.log.current == Text(c, w.hist.current) && SequentialInv(w, wipeFree)
    ensures SequentialInv(Run(c, events + EventsOf(op)), wipeFree && !op.WipeAll?)
  {
    var w := Run(c, events);
    RunSplit(c, events, EventsOf(op));
    match op
    case Append(draft, due) => AppendKeepsSequential(c, w, draft, due, wipeFree);
    case Sync => FlushKeepsSequential(c, w, wipeFree);
    case WipeAll =>
    case Restart =>
      assert w.hist.written + [] == w.hist.written;
  }

  lemma {:induction false} SequentialRun(c: Codec, ops: seq<Op>)
    requires ValidCodec(c)
    ensures SequentialInv(Run(c, Compiled(ops)), WipeFree(ops))
  {
    if ops != [] {
      var front, op := ops[..|ops| - 1], ops[|ops| - 1];
      SequentialRun(c, front);
      RunKeepsInv(c, Compiled(front));
      OpKeepsSequential(c, Compiled(front), op, WipeFree(front));
      assert forall i :: 0 <= i < |front| ==> front[i] == ops[i];
    }
  }

  /**
    Sequential use: after any run, `verify` (which flushes first) accepts exactly
    when no file has been rotated out since the last wipe and every score on disk
    is finite; the exception is a digest collision among hashed strings.
  */
  lemma SequentialVerify(c: Codec, ops: seq<Op>)
    requires ValidCodec(c)
    ensures var w := Run(c, Compiled(ops + [Sync]));
            && w.log.pending == [] && w.hist.built == w.hist.written
            && (w.hist.current == w.hist.written && AllFinite(w.hist.written) ==> DiskAccepted(c, w.log))
            && (DiskAccepted(c, w.log) ==>
                  (w.hist.current == w.hist.written && AllFinite(w.hist.written)) || CollisionIn(c, HashedInRun(c, w)))
  {
    SequentialRun(c, ops);
    RunKeepsInv(c, Compiled(ops));
    FlushKeepsSequential(c, Run(c, Compiled(ops)), WipeFree(ops));
    assert (ops + [Sync])[..|ops + [Sync]| - 1] == ops;
    RunSplit(c, Compiled(ops), [Flush]);
    AcceptedExactly(c, Compiled(ops + [Sync]));
  }

  /** A run that never rotated a file and only logged finite scores always verifies. */
  lemma UnrotatedRunVerifies(c: Codec, ops: seq<Op>)
    requires ValidCodec(c)
    requires var w := Run(c, Compiled(ops + [Sync])); w.hist.retired == [] && AllFinite(w.hist.built)
    ensures DiskAccepted(c, Run(c, Compiled(ops + [Sync])).log)
  {
    SequentialVerify(c, ops);
    SequentialRun(c, ops + [Sync]);
  }

  lemma ReopenLosesPending(c: Codec, w: World)
    requires |w.log.slots| == MAX_ROTATED_FILES && InOrder(w)
    requires LoadTip(c, w.log.tip) == LastHash(Genesis(c), w.hist.sealed)
    ensures var w' := Step(c, w, Reopen);
            && w'.hist.built + w.log.pending == w.hist.built
            && w'.hist.built == w.hist.written
            && w'.log == w.log.(pending := [], head := LastHash(Genesis(c), w.hist.written))
  {
  }

  lemma RestartCompiled(c: Codec, ops: seq<Op>)
    ensures Run(c, Compiled(ops + [Restart])) == Step(c, Run(c, Compiled(ops)), Reopen)
  {
    assert (ops + [Restart])[..|ops + [Restart]| - 1] == ops;
    RunSplit(c, Compiled(ops), [Reopen]);
  }

  lemma SequentialFacts(c: Codec, ops: seq<Op>)
    requires ValidCodec(c)
    ensures var w := Run(c, Compiled(ops));
            && |w.log.slots| == MAX_ROTATED_FILES && InOrder(w)
            && LoadTip(c, w.log.tip) == LastHash(Genesis(c), w.hist.sealed)
  {
    SequentialRun(c, ops);
    RunKeepsInv(c, Compiled(ops));
  }

  /** A restart loses exactly the pending entries, and nothing that was on disk. */
  lemma RestartLosesOnlyPending(c: Codec, ops: seq<Op>)
    requires ValidCodec(c)
    ensures var w, w' := Run(c, Compiled(ops)), Run(c, Compiled(ops + [Restart]));
            && w'.hist.built + w.log.pending == w.hist.built
            && w'.hist.built == w.hist.written
            && w'.log == w.log.(pending := [], head := LastHash(Genesis(c), w.hist.written))
  {
    var w := Run(c, Compiled(ops));
    SequentialFacts(c, ops);
    ReopenLosesPending(c, w);
    RestartCompiled(c, ops);
  }

  /**
    What a query without a filter reads after any interleaved run: exactly the
    entries flushed into the current file, in order, their non-finite scores gone.
  */
  lemma QueryReadsCurrent(c: Codec, events: seq<Event>)
    requires ValidCodec(c)
    ensures var w := Run(c, events);
            Parseable(c, Lines(w.log.current)) && Parsed(c, Lines(w.log.current)) == NormalisedAll(w.hist.current)
  {
    RunKeepsInv(c, events);
    DiskReadsBack(c, Run(c, events));
  }

  // ---- What is recorded ----

  /** The drafts a sequential run has flushed and the ones it still holds, from its operations alone. */
  datatype Ledger = Ledger(flushed: seq<AuditEntry>, held: seq<AuditEntry>)

  function LedgerOf(ops: seq<Op>): Ledger {
    if ops == [] then Ledger([], [])
    else
      var l := LedgerOf(ops[..|ops| - 1]);
      match ops[|ops| - 1]
      case Append(draft, due) =>
        if due || |l.held| >= 49 then Ledger(l.flushed + l.held + [draft], [])
        else Ledger(l.flushed, l.held + [draft])
      case Sync => Ledger(l.flushed + l.held, [])
      case WipeAll => Ledger([], [])
      case Restart => Ledger(l.flushed, [])
  }

  /** Field for field and in order. */
  predicate RecordsAll(es: seq<AuditEntry>, drafts: seq<AuditEntry>) {
    |es| == |drafts| && forall i :: 0 <= i < |es| ==> Records(es[i], drafts[i])
  }

  lemma RecordsJoin(a: seq<AuditEntry>, x: seq<AuditEntry>, b: seq<AuditEntry>, y: seq<AuditEntry>)
    requires RecordsAll(a, x) && RecordsAll(b, y)
    ensures RecordsAll(a + b, x + y)
  {
  }

  ghost predicate LedgerKept(w: World, l: Ledger) {
    RecordsAll(w.hist.written, l.flushed) && RecordsAll(w.log.pending, l.held) && w.inflight == map[]
  }

  lemma FlushRecords(c: Codec, w: World, l: Ledger)
    requires |w.log.slots| == MAX_ROTATED_FILES && LedgerKept(w, l)
    ensures LedgerKept(Step(c, w, Flush), Ledger(l.flushed + l.held, []))
  {
    RecordsJoin(w.hist.written, l.flushed, w.log.pending, l.held);
  }

  lemma AppendRecords(c: Codec, w: World, l: Ledger, draft: AuditEntry, due: bool)
    requires |w.log.slots| == MAX_ROTATED_FILES && LedgerKept(w, l)
    ensures LedgerKept(Step(c, Step(c, w, Build(0, draft)), Push(0, due)),
                       if due || |l.held| >= 49 then Ledger(l.flushed + l.held + [draft], [])
                       else Ledger(l.flushed, l.held + [draft]))
  {
    var mid := Step(c, w, Build(0, draft));
    var held := Queued(mid, 0);
    StampRecords(c, w.log.head, draft);
    RecordsJoin(w.log.pending, l.held, [mid.inflight[0]], [draft]);
    PushQueues(c, mid, 0, due);
    assert mid.inflight - {0} == map[];
    assert l.flushed + (l.held + [draft]) == l.flushed + l.held + [draft];
    FlushRecords(c, held, Ledger(l.flushed, l.held + [draft]));
  }

  /**
    After every sequential run the entries on disk since the last wipe, and those
    pending, record the drafts appended since then and not lost in a restart, field
    for field and in order.
  */
  lemma {:induction false} RunRecordsDrafts(c: Codec, ops: seq<Op>)
    requires ValidCodec(c)
    ensures var w, l := Run(c, Compiled(ops)), LedgerOf(ops);
            && RecordsAll(w.hist.written, l.flushed) && RecordsAll(w.log.pending, l.held)
            && RecordsAll(w.hist.built, l.flushed + l.held)
  {
    LedgerRun(c, ops);
    SequentialFacts(c, ops);
    var w, l := Run(c, Compiled(ops)), LedgerOf(ops);
    RecordsJoin(w.hist.written, l.flushed, w.log.pending, l.held);
  }

  lemma {:induction false} LedgerRun(c: Codec, ops: seq<Op>)
    ensures LedgerKept(Run(c, Compiled(ops)), LedgerOf(ops))
  {
    if ops != [] {
      var front, op := ops[..|ops| - 1], ops[|ops| - 1];
      LedgerRun(c, front);
      RunSplit(c, Compiled(front), EventsOf(op));
      match op
      case Append(draft, due) => AppendRecords(c, Run(c, Compiled(front)), LedgerOf(front), draft, due);
      case Sync => FlushRecords(c, Run(c, Compiled(front)), LedgerOf(front));
      case WipeAll =>
      case Restart =>
    }
  }

  /** Fewer than fifty entries are ever pending, so a restart loses at most 49. */
  lemma {:induction false} FewPending(c: Codec, events: seq<Event>)
    ensures |Run(c, events).log.pending| <= 49
  {
    if events != [] {
      FewPending(c, events[..|events| - 1]);
    }
  }

  lemma FlushKeepsLatest(st: LogState, h: History)
    requires IsSuffix(h.current, h.written)
    ensures IsSuffix(NoteFlush(st, h).current, NoteFlush(st, h).written)
  {
    SuffixGrows(h.current, h.written, st.pending);
  }

  lemma StepKeepsLatest(c: Codec, w: World, ev: Event)
    requires |w.log.slots| == MAX_ROTATED_FILES && IsSuffix(w.hist.current, w.hist.written)
    ensures IsSuffix(Step(c, w, ev).hist.current, Step(c, w, ev).hist.written)
  {
    match ev
    case Push(t, due) =>
      if t in w.inflight {
        FlushKeepsLatest(Queued(w, t).log, w.hist);
      }
    case Flush => FlushKeepsLatest(w.log, w.hist);
    case _ =>
  }

  /** The current file holds the latest of what was flushed since the last wipe, in every interleaved run. */
  lemma {:induction false} CurrentIsLatest(c: Codec, events: seq<Event>)
    ensures IsSuffix(Run(c, events).hist.current, Run(c, events).hist.written)
  {
    if events != [] {
      CurrentIsLatest(c, events[..|events| - 1]);
      StepKeepsLatest(c, Run(c, events[..|events| - 1]), events[|events| - 1]);
    }
  }

  lemma SuffixGrows(x: seq<AuditEntry>, whole: seq<AuditEntry>, more: seq<AuditEntry>)
    requires IsSuffix(x, whole)
    ensures IsSuffix(x + more, whole + more) && IsSuffix([] + more, whole + more)
  {
  }

  /**
    What a query without a filter returns after any sequential run (it flushes
    first): the drafts appended since the last wipe and not lost in a restart, field
    for field and in order, their non-finite scores gone - all of them, if no file
    was ever rotated out, and otherwise the latest.
  */
  lemma QueryReturnsDrafts(c: Codec, ops: seq<Op>)
    requires ValidCodec(c)
    ensures var w, drafts := Run(c, Compiled(ops + [Sync])), LedgerOf(ops + [Sync]).flushed;
            && Parseable(c, Lines(w.log.current))
            && ReturnsLatest(Parsed(c, Lines(w.log.current)), drafts)
            && (w.hist.retired == [] ==> |Lines(w.log.current)| == |drafts|)
  {
    var w := Run(c, Compiled(ops + [Sync]));
    QueryReadsCurrent(c, Compiled(ops + [Sync]));
    OnDisk(c, ops + [Sync]);
    SuffixReturns(w.hist.current, w.hist.written, LedgerOf(ops + [Sync]).flushed);
  }

  lemma OnDisk(c: Codec, ops: seq<Op>)
    requires ValidCodec(c)
    ensures var h := Run(c, Compiled(ops)).hist;
            && RecordsAll(h.written, LedgerOf(ops).flushed)
            && IsSuffix(h.current, h.written) && (h.retired == [] ==> h.current == h.written)
  {
    LedgerRun(c, ops);
    SequentialRun(c, ops);
    CurrentIsLatest(c, Compiled(ops));
  }

  /** What is read returns the last drafts, as many as were read. */
  predicate ReturnsLatest(read: seq<AuditEntry>, drafts: seq<AuditEntry>) {
    |read| <= |drafts| && forall i :: 0 <= i < |read| ==> Returns(read[i], drafts[|drafts| - |read| + i])
  }

  lemma SuffixReturns(es: seq<AuditEntry>, whole: seq<AuditEntry>, drafts: seq<AuditEntry>)
    requires IsSuffix(es, whole) && RecordsAll(whole, drafts)
    ensures ReturnsLatest(NormalisedAll(es), drafts)
  {
    forall i | 0 <= i < |es|
      ensures Returns(NormalisedAll(es)[i], drafts[|drafts| - |es| + i])
    {
      assert es[i] == whole[|whole| - |es| + i];
    }
  }

  /** The entry read back from what was printed for the draft: a score that is no number is absent. */
  predicate Returns(e: AuditEntry, d: AuditEntry) {
    if d.halScore.Some? && (d.halScore.value.Infinite? || d.halScore.value.NotANumber?) then
      Records(e, d.(halScore := None))
    else
      Records(e, d)
  }

  // ---- Rotation ----

  /** A flush that writes rotates exactly a file of more than 50 MiB. */
  lemma RotatesExactly(c: Codec, events: seq<Event>)
    requires Run(c, events).log.pending != []
    ensures var w, w' := Run(c, events), Run(c, events + [Flush]);
            if ByteLen(w.log.current) > 52428800 then
              && w'.log.slots[0] == Some(w.log.current) && w'.log.current == Text(c, w.log.pending)
              && w'.hist.retired == w.hist.retired + [w.hist.current]
            else
              && w'.log.slots == w.log.slots && w'.log.current == w.log.current + Text(c, w.log.pending)
              && w'.hist.retired == w.hist.retired
  {
    RunSplit(c, events, [Flush]);
    assert "" + Text(c, Run(c, events).log.pending) == Text(c, Run(c, events).log.pending);
  }

  lemma {:induction false} FlattenSplit(a: seq<seq<AuditEntry>>, b: seq<seq<AuditEntry>>)
    ensures Flatten(a + b) == Flatten(a) + Flatten(b)
  {
    if b == [] {
      assert a + b == a;
    } else {
      var front := b[..|b| - 1];
      assert (a + b)[..|a + b| - 1] == a + front;
      FlattenSplit(a, front);
      assert Flatten(a) + Flatten(front) + b[|b| - 1] == Flatten(a) + (Flatten(front) + b[|b| - 1]);
    }
  }

  /** The files still on disk as rotated slots, oldest first. */
  ghost function Kept(w: World): seq<seq<AuditEntry>> {
    if |w.hist.retired| <= MAX_ROTATED_FILES then w.hist.retired
    else w.hist.retired[|w.hist.retired| - MAX_ROTATED_FILES..]
  }

  /**
    What rotation leaves on disk: log.k is the k-th newest retired file, for at
    most five of them; the kept files, oldest first, and then the current file are
    a contiguous suffix of everything flushed; and all of that is one hash chain,
    so the link holds across every file boundary.
  */
  ghost predicate SuffixOnDisk(c: Codec, w: World) {
    var kept := Kept(w);
    && |kept| <= MAX_ROTATED_FILES == |w.log.slots|
    && (forall j :: 0 <= j < |kept| ==> w.log.slots[j] == Some(Text(c, kept[|kept| - 1 - j])))
    && (forall j :: |kept| <= j < MAX_ROTATED_FILES ==> w.log.slots[j] == None)
    && w.log.current == Text(c, w.hist.current)
    && IsSuffix(Flatten(kept) + w.hist.current, w.hist.written)
    && Linked(c, Genesis(c), w.hist.written)
  }

  lemma SuffixFromInvariants(c: Codec, w: World)
    requires ChainOk(c, w) && SlotsOk(c, w.log.slots, w.hist.retired) && w.log.current == Text(c, w.hist.current)
    requires w.hist.sealed == w.hist.written && FilesOk(w.hist, true)
    ensures SuffixOnDisk(c, w)
  {
    KeptSuffix(w.hist, Kept(w));
    KeptSlots(c, w);
    SealedChain(c, w);
  }

  /** In every wipe-free sequential run, rotation keeps a contiguous, linked suffix of what was flushed. */
  lemma RotationKeepsSuffix(c: Codec, ops: seq<Op>)
    requires ValidCodec(c) && WipeFree(ops)
    ensures SuffixOnDisk(c, Run(c, Compiled(ops)))
  {
    SequentialRun(c, ops);
    RunKeepsInv(c, Compiled(ops));
    SuffixFromInvariants(c, Run(c, Compiled(ops)));
  }

  lemma KeptSlots(c: Codec, w: World)
    requires SlotsOk(c, w.log.slots, w.hist.retired)
    ensures var kept := Kept(w);
            && |kept| <= MAX_ROTATED_FILES
            && (forall j :: 0 <= j < |kept| ==> w.log.slots[j] == Some(Text(c, kept[|kept| - 1 - j])))
            && (forall j :: |kept| <= j < MAX_ROTATED_FILES ==> w.log.slots[j] == None)
  {
  }

  predicate IsSuffix(x: seq<AuditEntry>, whole: seq<AuditEntry>) {
    |x| <= |whole| && whole[|whole| - |x|..] == x
  }

  lemma SuffixOfSum(a: seq<AuditEntry>, b: seq<AuditEntry>, d: seq<AuditEntry>)
    ensures IsSuffix(b + d, (a + b) + d)
  {
    assert (a + b) + d == a + (b + d);
  }

  lemma KeptSuffix(h: History, kept: seq<seq<AuditEntry>>)
    requires FilesOk(h, true)
    requires |kept| <= |h.retired| && kept == h.retired[|h.retired| - |kept|..]
    ensures IsSuffix(Flatten(kept) + h.current, h.written)
  {
    var older := h.retired[..|h.retired| - |kept|];
    assert h.retired == older + kept;
    FlattenSplit(older, kept);
    SuffixOfSum(Flatten(older), Flatten(kept), h.current);
  }

  /** Once a file has been rotated out, the check started at the genesis digest rejects, or there is a collision. */
  lemma RotatedRunRejected(c: Codec, ops: seq<Op>)
    requires ValidCodec(c) && WipeFree(ops)
    requires Run(c, Compiled(ops + [Sync])).hist.retired != []
    ensures var w := Run(c, Compiled(ops + [Sync]));
            DiskAccepted(c, w.log) ==> CollisionIn(c, HashedInRun(c, w))
  {
    assert WipeFree(ops + [Sync]);
    SequentialVerify(c, ops);
    SequentialRun(c, ops + [Sync]);
  }

  predicate DueAppends(ops: seq<Op>) {
    forall i :: 0 <= i < |ops| ==> ops[i].Append? && ops[i].due
  }

  lemma DueAppendGrows(c: Codec, w: World, draft: AuditEntry)
    requires |w.log.slots| == MAX_ROTATED_FILES && w.inflight == map[] && w.log.pending == []
    ensures var w' := Step(c, Step(c, w, Build(0, draft)), Push(0, true));
            && w'.log.pending == []
            && (w'.hist.retired == [] ==>
                  w.hist.retired == [] && !RotationDue(w.log) && |w'.log.current| > |w.log.current|)
  {
    var e := Stamp(c, w.log.head, draft);
    assert [] + [e] == [e] && [e][..0] == [];
    assert Text(c, [e]) == Text(c, []) + c.toJson(e) + "\n";
  }

  /** Appends that flush grow the file by at least a byte each, until it is rotated out. */
  lemma {:induction false} FileGrows(c: Codec, ops: seq<Op>)
    requires ValidCodec(c) && DueAppends(ops)
    ensures var w := Run(c, Compiled(ops));
            && w.log.pending == []
            && (w.hist.retired == [] ==> |ops| <= |w.log.current| && |ops| <= MAX_LOG_SIZE + 1)
  {
    if ops != [] {
      var front, op := ops[..|ops| - 1], ops[|ops| - 1];
      var w := Run(c, Compiled(front));
      FileGrows(c, front);
      SequentialRun(c, front);
      DueAppendGrows(c, w, op.draft);
      ByteLenAtLeast(w.log.current);
      RunSplit(c, Compiled(front), EventsOf(op));
    }
  }

  /**
    Such runs exist for every codec: enough honest appends force a rotation,
    whatever they log, and from then on the check rejects, or there is a collision.
  */
  lemma LongRunRejected(c: Codec, ops: seq<Op>)
    requires ValidCodec(c) && DueAppends(ops) && |ops| > MAX_LOG_SIZE + 1
    ensures var w := Run(c, Compiled(ops + [Sync]));
            w.hist.retired != [] && (DiskAccepted(c, w.log) ==> CollisionIn(c, HashedInRun(c, w)))
  {
    FileGrows(c, ops);
    assert (ops + [Sync])[..|ops + [Sync]| - 1] == ops;
    RunSplit(c, Compiled(ops), [Flush]);
    RotatedRunRejected(c, ops);
  }

  // ---- Wiping ----

  /**
    What "wipe all logs" leaves, after any interleaved run: the former current file
    under another name, and every rotated file. So nothing of the log stays in the
    rotated files if and only if no file was ever rotated out.
  */
  lemma WipeKeepsRotated(c: Codec, events: seq<Event>)
    requires ValidCodec(c)
    ensures var w, w' := Run(c, events), Run(c, events + [Wipe]);
            && w'.log.current == "" && w'.log.pending == [] && w'.log.tip == None && w'.log.head == Genesis(c)
            && w'.log.wiped == Some(Text(c, w.hist.current))
            && SlotsOk(c, w'.log.slots, w.hist.retired)
            && ((forall j :: 0 <= j < MAX_ROTATED_FILES ==> w'.log.slots[j] == None) <==> w.hist.retired == [])
  {
    RunKeepsInv(c, events);
    RunSplit(c, events, [Wipe]);
    if Run(c, events).hist.retired != [] {
      assert Run(c, events + [Wipe]).log.slots[0].Some?;
    }
  }

  // ---- Racing appends ----

  predicate Undisturbed(events: seq<Event>) {
    forall i :: 0 <= i < |events| ==> !events[i].Wipe? && !events[i].Reopen?
  }

  /** The entries stamped, in stamping order. */
  ghost function BuiltBy(c: Codec, events: seq<Event>): seq<AuditEntry> {
    if events == [] then []
    else
      var front, ev := events[..|events| - 1], events[|events| - 1];
      var w := Run(c, front);
      BuiltBy(c, front) +
      if ev.Build? && ev.thread !in w.inflight then [Stamp(c, w.log.head, ev.draft)] else []
  }

  /** The entries pushed, in pushing order. */
  ghost function PushedBy(c: Codec, events: seq<Event>): seq<AuditEntry> {
    if events == [] then []
    else
      var front, ev := events[..|events| - 1], events[|events| - 1];
      var w := Run(c, front);
      PushedBy(c, front) +
      if ev.Push? && ev.thread in w.inflight then [w.inflight[ev.thread]] else []
  }

  /** The draft a thread has stamped and not yet pushed, from the events alone. */
  function DraftInHand(events: seq<Event>, t: nat): Option<AuditEntry> {
    if events == [] then None
    else
      var before := DraftInHand(events[..|events| - 1], t);
      match events[|events| - 1]
      case Build(t', draft) => if t' == t && before == None then Some(draft) else before
      case Push(t', due) => if t' == t then None else before
      case Reopen => None
      case _ => before
  }

  function StampedDrafts(events: seq<Event>): seq<AuditEntry> {
    if events == [] then []
    else
      var front, ev := events[..|events| - 1], events[|events| - 1];
      StampedDrafts(front) + if ev.Build? && DraftInHand(front, ev.thread) == None then [ev.draft] else []
  }

  function PushedDrafts(events: seq<Event>): seq<AuditEntry> {
    if events == [] then []
    else
      var front, ev := events[..|events| - 1], events[|events| - 1];
      var d := if ev.Push? then DraftInHand(front, ev.thread) else None;
      PushedDrafts(front) + if d.Some? then [d.value] else []
  }

  ghost predicate HandsOk(w: World, events: seq<Event>) {
    forall t: nat ::
      && (t in w.inflight <==> DraftInHand(events, t).Some?)
      && (t in w.inflight ==> Records(w.inflight[t], DraftInHand(events, t).value))
  }

  lemma {:induction false} HandsKept(c: Codec, events: seq<Event>)
    ensures HandsOk(Run(c, events), events)
  {
    if events != [] {
      var front, ev := events[..|events| - 1], events[|events| - 1];
      HandsKept(c, front);
      if ev.Build? {
        StampRecords(c, Run(c, front).log.head, ev.draft);
      }
    }
  }

  /** With racing threads, too: what is stamped and what is pushed record the drafts, each thread pushing its own. */
  lemma {:induction false} RaceRecordsDrafts(c: Codec, events: seq<Event>)
    ensures RecordsAll(BuiltBy(c, events), StampedDrafts(events))
    ensures RecordsAll(PushedBy(c, events), PushedDrafts(events))
  {
    if events != [] {
      var front, ev := events[..|events| - 1], events[|events| - 1];
      var w := Run(c, front);
      RaceRecordsDrafts(c, front);
      HandsKept(c, front);
      if ev.Build? && ev.thread !in w.inflight {
        StampRecords(c, w.log.head, ev.draft);
        RecordsJoin(BuiltBy(c, front), StampedDrafts(front), [Stamp(c, w.log.head, ev.draft)], [ev.draft]);
      }
      if ev.Push? && ev.thread in w.inflight {
        var d := DraftInHand(front, ev.thread).value;
        RecordsJoin(PushedBy(c, front), PushedDrafts(front), [w.inflight[ev.thread]], [d]);
      }
    }
  }

  /** The step flushes something. */
  ghost predicate Writes(w: World, ev: Event) {
    match ev
    case Push(t, due) => t in w.inflight && (|w.log.pending| + 1 >= FLUSH_ENTRY_COUNT || due)
    case Flush => w.log.pending != []
    case _ => false
  }

  /** k is the length of the run up to and including its last writing flush, or 0 if there is none. */
  ghost predicate LastWrite(c: Codec, events: seq<Event>, k: nat) {
    && k <= |events|
    && (k > 0 ==> Writes(Run(c, events[..k - 1]), events[k - 1]))
    && forall j :: k <= j < |events| ==> !Writes(Run(c, events[..j]), events[j])
  }

  /** The run's history is what its events built and pushed. */
  ghost predicate RaceOk(c: Codec, events: seq<Event>) {
    var w := Run(c, events);
    && w.hist.built == BuiltBy(c, events)
    && w.hist.written + w.log.pending == PushedBy(c, events)
    && (w.hist.retired == [] ==> w.hist.current == w.hist.written)
  }

  /** What is sealed and written is what had been built and pushed after k events. */
  ghost predicate CutOk(c: Codec, events: seq<Event>, k: nat) {
    && k <= |events|
    && Run(c, events).hist.written == PushedBy(c, events[..k])
    && Run(c, events).hist.sealed == BuiltBy(c, events[..k])
  }

  lemma {:induction false} RaceHistory(c: Codec, events: seq<Event>) returns (k: nat)
    requires Undisturbed(events)
    ensures LastWrite(c, events, k) && RaceOk(c, events) && CutOk(c, events, k)
  {
    if events == [] {
      k := 0;
    } else {
      var n := |events| - 1;
      var front, ev := events[..n], events[n];
      var before := RaceHistory(c, front);
      assert front + [ev] == events;
      k := NextLastWrite(c, front, ev, before);
      RaceStep(c, front, ev, before, k);
    }
  }

  lemma NextLastWrite(c: Codec, front: seq<Event>, ev: Event, k: nat) returns (k': nat)
    requires LastWrite(c, front, k)
    ensures LastWrite(c, front + [ev], k')
    ensures k' == if Writes(Run(c, front), ev) then |front| + 1 else k
  {
    var events, n := front + [ev], |front|;
    k' := if Writes(Run(c, front), ev) then n + 1 else k;
    assert events[..n] == front;
    forall j | 0 <= j < n
      ensures events[..j] == front[..j] && events[j] == front[j]
    {
    }
  }

  lemma RaceStep(c: Codec, front: seq<Event>, ev: Event, before: nat, k: nat)
    requires !ev.Wipe? && !ev.Reopen? && RaceOk(c, front) && CutOk(c, front, before)
    requires k == if Writes(Run(c, front), ev) then |front| + 1 else before
    ensures RaceOk(c, front + [ev]) && CutOk(c, front + [ev], k)
  {
    var events := front + [ev];
    assert events[..|events| - 1] == front && events[|events| - 1] == ev && events[..|events|] == events;
    assert k <= |front| ==> events[..k] == front[..k];
    StepFacts(c, Run(c, front), ev);
  }

  /** What one step without wipe or restart adds to what was built, pushed, sealed and written. */
  lemma StepFacts(c: Codec, w: World, ev: Event)
    requires |w.log.slots| == MAX_ROTATED_FILES && !ev.Wipe? && !ev.Reopen?
    requires w.hist.retired == [] ==> w.hist.current == w.hist.written
    ensures var w' := Step(c, w, ev);
            && w'.hist.built == w.hist.built +
                 (if ev.Build? && ev.thread !in w.inflight then [Stamp(c, w.log.head, ev.draft)] else [])
            && w'.hist.written + w'.log.pending == w.hist.written + w.log.pending +
                 (if ev.Push? && ev.thread in w.inflight then [w.inflight[ev.thread]] else [])
            && (w'.hist.retired == [] ==> w'.hist.current == w'.hist.written)
            && (if Writes(w, ev) then w'.hist.sealed == w'.hist.built && w'.log.pending == []
                else w'.hist.sealed == w.hist.sealed && w'.hist.written == w.hist.written)
  {
    if ev.Push? && ev.thread in w.inflight {
      var e := w.inflight[ev.thread];
      assert w.hist.written + (w.log.pending + [e]) == (w.hist.written + w.log.pending) + [e];
    }
  }

  /**
    Racing appends without wipe, restart or rotation: `verify` accepts exactly
    when, at the last flush that wrote anything, the entries pushed so far were
    all the entries stamped so far, in stamping order, with finite scores; the
    exception is a digest collision among hashed strings.
  */
  lemma RacingAppends(c: Codec, events: seq<Event>) returns (k: nat)
    requires ValidCodec(c) && Undisturbed(events)
    requires Run(c, events).hist.retired == []
    ensures LastWrite(c, events, k)
    ensures var w := Run(c, events); var pushed, built := PushedBy(c, events[..k]), BuiltBy(c, events[..k]);
            && (pushed == built && AllFinite(pushed) ==> DiskAccepted(c, w.log))
            && (DiskAccepted(c, w.log) ==> (pushed == built && AllFinite(pushed)) || CollisionIn(c, HashedInRun(c, w)))
  {
    k := RaceHistory(c, events);
    AcceptedExactly(c, events);
  }

  // ---- Honest runs that are rejected ----

  lemma Unroll3(c: Codec, a: Event, b: Event, d: Event)
    ensures Run(c, [a, b, d]) == Step(c, Step(c, Step(c, Start(c), a), b), d)
  {
    assert [a, b, d][..2] == [a, b] && [a, b][..1] == [a] && [a][..0] == [];
    assert Run(c, [a]) == Step(c, Run(c, []), a);
    assert Run(c, [a, b]) == Step(c, Run(c, [a]), b);
  }

  /** Two threads stamp in one order and push in the other. */
  lemma OutOfOrderPushRejected(c: Codec, d0: AuditEntry, d1: AuditEntry)
    requires ValidCodec(c) && d0.agent != d1.agent
    ensures var w := Run(c, [Build(0, d0), Build(1, d1), Push(1, false)] + [Push(0, true)]);
            DiskAccepted(c, w.log) ==> CollisionIn(c, HashedInRun(c, w))
  {
    var events := [Build(0, d0), Build(1, d1), Push(1, false)];
    Unroll3(c, events[0], events[1], events[2]);
    RunSplit(c, events, [Push(0, true)]);
    var w := Run(c, events + [Push(0, true)]);
    var e0 := Stamp(c, Genesis(c), d0);
    var e1 := Stamp(c, e0.chainHash, d1);
    assert w.hist.sealed == [e0, e1];
    assert w.hist.current == [e1, e0];
    assert w.hist.current[0] != w.hist.sealed[0];
    AcceptedExactly(c, events + [Push(0, true)]);
  }

  /** A single logged entry whose score is NaN or infinite. */
  lemma NonFiniteScoreRejected(c: Codec, draft: AuditEntry)
    requires ValidCodec(c) && draft.halScore.Some? && !IsFinite(draft.halScore.value)
    ensures var w := Run(c, Compiled([Append(draft, false)] + [Sync]));
            DiskAccepted(c, w.log) ==> CollisionIn(c, HashedInRun(c, w))
  {
    var ops := [Append(draft, false)];
    assert ops[..0] == [];
    assert (ops + [Sync])[..1] == ops;
    assert Compiled(ops) == [] + EventsOf(ops[0]);
    assert [] + EventsOf(ops[0]) == [Build(0, draft), Push(0, false)];
    RunSplit(c, [], [Build(0, draft), Push(0, false)]);
    RunSplit(c, Compiled(ops), [Flush]);
    var w := Run(c, Compiled(ops + [Sync]));
    var e := Stamp(c, Genesis(c), draft);
    assert w.hist.written == [e] && !FiniteScore(w.hist.written[0]);
    SequentialVerify(c, ops);
  }

  /** One thread appends honestly while another checks: a flush between the check's two reads makes it reject. */
  lemma FlushBetweenReadsRejected(c: Codec, d0: AuditEntry, d1: AuditEntry)
    requires ValidCodec(c)
    ensures var events, more := [Build(0, d0), Push(0, true)], [Build(0, d1), Push(0, true)];
            var w, v := Run(c, events), Run(c, events + more);
            ReadsAccepted(c, w, v) ==> CollisionIn(c, HashedReading(c, w, v))
  {
    var events, more := [Build(0, d0), Push(0, true)], [Build(0, d1), Push(0, true)];
    assert [] + events == events;
    RunSplit(c, [], events);
    RunSplit(c, events, more);
    assert |Run(c, events).hist.current| == 1 && |Run(c, events + more).hist.sealed| == 2;
    VerifyExactly(c, events, more);
  }
}
