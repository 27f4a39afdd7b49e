/**
  The buffered, rotating audit log (hal/src/audit_log.rs) and every run of it.

  `append` takes the lock twice, once to stamp an entry with the chain head and
  once to push it, so the machine below has separate Build and Push events and
  any number of threads between the two. Rotation is decided by file size inside
  a flush, as in the code.
*/
module AuditLog {
  import opened Common
  import opened AuditFormat
  import opened AuditTamper

  const MAX_LOG_SIZE := 50 * 1024 * 1024
  const FLUSH_ENTRY_COUNT := 50
  const MAX_ROTATED_FILES := 5

  /** Memory (`head`, `pending`) and disk. `slots[i]` is the file log.(i+1). */
  datatype LogState = LogState(
    head: string,
    pending: seq<AuditEntry>,
    current: string,
    slots: seq<Option<string>>,
    tip: Option<string>,
    wiped: Option<string>)

  // ---- The operations as functions of the state ----

  function LoadTip(c: Codec, tip: Option<string>): string {
    if tip.Some? && !Blank(tip.value) then tip.value else Genesis(c)
  }

  function Stamp(c: Codec, head: string, draft: AuditEntry): AuditEntry {
    var e := draft.(errorMessage := None, chainHash := "");
    e.(chainHash := c.digest(HashInput(c, head, e)))
  }

  /** The entry records the draft: the same in every field a caller gives. `append` takes no error message. */
  predicate Records(e: AuditEntry, d: AuditEntry) {
    && e.ts == d.ts
    && e.agent == d.agent
    && e.action == d.action
    && e.outcome == d.outcome
    && e.target == d.target
    && e.halScore == d.halScore
    && e.halLevel == d.halLevel
    && e.intentId == d.intentId
    && e.reversible == d.reversible
    && e.note == d.note
    && e.session == d.session
    && e.errorMessage == None
  }

  /** Stamping records the draft and hashes the record, printed with an empty hash field, onto the head. */
  lemma StampRecords(c: Codec, head: string, draft: AuditEntry)
    ensures var e := Stamp(c, head, draft);
            Records(e, draft) && e.chainHash == c.digest(head + c.toJson(e.(chainHash := "")))
  {
    StampLinks(c, head, draft);
  }

  /** Where log.j comes from when the files are shifted up by one and `current` becomes log.1. */
  function Shifted(slots: seq<Option<string>>, current: string): (r: seq<Option<string>>)
    requires |slots| == MAX_ROTATED_FILES
    ensures |r| == MAX_ROTATED_FILES
  {
    seq(MAX_ROTATED_FILES, j requires 0 <= j < MAX_ROTATED_FILES =>
      if j == 0 then Some(current)
      else if slots[j - 1].Some? then slots[j - 1]
      else if j == MAX_ROTATED_FILES - 1 then slots[j]
      else None)
  }

  predicate RotationDue(st: LogState) {
    ByteLen(st.current) > MAX_LOG_SIZE
  }

  function Flushed(c: Codec, st: LogState): LogState
    requires |st.slots| == MAX_ROTATED_FILES
  {
    if st.pending == [] then st
    else
      var kept := if RotationDue(st) then "" else st.current;
      var slots := if RotationDue(st) then Shifted(st.slots, st.current) else st.slots;
      st.(current := kept + Text(c, st.pending), slots := slots, pending := [], tip := Some(st.head))
  }

  function Pushed(c: Codec, st: LogState, e: AuditEntry, due: bool): LogState
    requires |st.slots| == MAX_ROTATED_FILES
  {
    var st1 := st.(pending := st.pending + [e]);
    if |st1.pending| >= FLUSH_ENTRY_COUNT || due then Flushed(c, st1) else st1
  }

  function Wiped(c: Codec, st: LogState): LogState {
    st.(pending := [], wiped := Some(st.current), current := "", head := Genesis(c), tip := None)
  }

  /** A drop loses memory; opening again reads the head back from the tip file. */
  function Reopened(c: Codec, st: LogState): LogState {
    st.(pending := [], head := LoadTip(c, st.tip))
  }

  function Fresh(c: Codec): LogState {
    LogState(Genesis(c), [], "", seq(MAX_ROTATED_FILES, _ => None), None, None)
  }

  // ---- The log object ----

  class AuditLog {
    const codec: Codec
    var head: string
    var pending: seq<AuditEntry>
    var current: string
    var slots: seq<Option<string>>
    var tip: Option<string>
    var wiped: Option<string>

    ghost predicate Valid()
      reads this
    {
      |slots| == MAX_ROTATED_FILES
    }

    ghost function State(): LogState
      reads this
    {
      LogState(head, pending, current, slots, tip, wiped)
    }

    /** `open_at` over the files found on disk. */
    constructor (codec: Codec, disk: LogState)
      requires |disk.slots| == MAX_ROTATED_FILES
      ensures Valid() && this.codec == codec && State() == Reopened(codec, disk)
    {
      this.codec := codec;
      head := LoadTip(codec, disk.tip);
      pending := [];
      current, slots, tip, wiped := disk.current, disk.slots, disk.tip, disk.wiped;
    }

    /** First lock of `append`: stamp a draft and advance the head. */
    method BuildEntry(draft: AuditEntry) returns (entry: AuditEntry)
      requires Valid()
      modifies this`head
      ensures Valid()
      ensures entry == Stamp(codec, old(head), draft)
      ensures State() == old(State()).(head := entry.chainHash)
    {
      entry := draft.(errorMessage := None, chainHash := "");
      var chainHash := codec.digest(head + codec.toJson(entry));
      entry := entry.(chainHash := chainHash);
      head := chainHash;
    }

    /** Second lock of `append`; `due` says whether the flush interval has elapsed. */
    method PushEntry(entry: AuditEntry, due: bool)
      requires Valid()
      modifies this
      ensures Valid() && State() == Pushed(codec, old(State()), entry, due)
    {
      pending := pending + [entry];
      if |pending| >= FLUSH_ENTRY_COUNT || due {
        FlushInner();
      }
    }

    method Append(draft: AuditEntry, due: bool)
      requires Valid()
      modifies this
      ensures Valid()
      ensures var e := Stamp(codec, old(head), draft);
              State() == Pushed(codec, old(State()).(head := e.chainHash), e, due)
    {
      var entry := BuildEntry(draft);
      PushEntry(entry, due);
    }

    method FlushInner()
      requires Valid()
      modifies this
      ensures Valid() && State() == Flushed(codec, old(State()))
    {
      if pending == [] {
        return;
      }
      if ByteLen(current) > MAX_LOG_SIZE {
        Rotate();
      }
      ghost var start := current;
      var i := 0;
      while i < |pending|
        invariant 0 <= i <= |pending|
        invariant pending == old(pending) && head == old(head) && wiped == old(wiped) && tip == old(tip)
        invariant slots == if RotationDue(old(State())) then Shifted(old(slots), old(current)) else old(slots)
        invariant current == start + Text(codec, pending[..i])
      {
        assert pending[..i + 1][..i] == pending[..i];
        current := current + codec.toJson(pending[i]) + "\n";
        i := i + 1;
      }
      assert pending[..i] == pending;
      pending := [];
      tip := Some(head);
    }

    /** `rotate_static`: log.4 to log.5 first, then down to log.1, then the current file. */
    method Rotate()
      requires Valid()
      modifies this`slots, this`current
      ensures Valid()
      ensures slots == Shifted(old(slots), old(current)) && current == ""
    {
      var i := MAX_ROTATED_FILES - 1;
      while i >= 1
        invariant 0 <= i <= MAX_ROTATED_FILES - 1
        invariant |slots| == MAX_ROTATED_FILES && current == old(current)
        invariant forall j :: 0 <= j < i ==> slots[j] == old(slots)[j]
        invariant i < MAX_ROTATED_FILES - 1 ==> slots[i] == None
        invariant i == MAX_ROTATED_FILES - 1 ==> slots == old(slots)
        invariant forall j :: i < j < MAX_ROTATED_FILES ==> slots[j] == Shifted(old(slots), current)[j]
      {
        if slots[i - 1].Some? {
          slots := slots[i := slots[i - 1]][i - 1 := None];
        }
        i := i - 1;
      }
      slots := slots[0 := Some(current)];
      assert slots == Shifted(old(slots), old(current));
      current := "";
    }

    method Wipe()
      requires Valid()
      modifies this
      ensures Valid() && State() == Wiped(codec, old(State()))
    {
      pending := [];
      wiped := Some(current);
      current := "";
      head := codec.digest(GENESIS_INPUT);
      tip := None;
    }

    /** `verify` up to its first unlocked read: flush, then read the current file. */
    method ReadLog() returns (content: string)
      requires Valid()
      modifies this
      ensures Valid() && State() == Flushed(codec, old(State())) && content == current
    {
      FlushInner();
      content := current;
    }

    /** The rest of `verify`, which reads the tip; other threads may have come between. */
    method CheckAgainstTip(content: string) returns (r: VerifyResult)
      ensures r.valid <==> Accepts(codec, Lines(content), LoadTip(codec, tip))
    {
      r := CheckChain(codec, Lines(content), LoadTip(codec, tip));
    }

    /** `verify` when no thread comes between. */
    method Verify() returns (r: VerifyResult)
      requires Valid()
      modifies this
      ensures Valid() && State() == Flushed(codec, old(State()))
      ensures r.valid <==> DiskAccepted(codec, State())
    {
      var content := ReadLog();
      r := CheckAgainstTip(content);
    }
  }

  // ---- Runs ----

  datatype Event =
    | Build(thread: nat, draft: AuditEntry)
    | Push(thread: nat, due: bool)
    | Flush
    | Wipe
    | Reopen

  /**
    What happened, told without looking at files. Apart from `retired` and
    `hashed`, each field speaks of the time since the last wipe:
    `built` are the stamped entries in stamping order, `sealed` is `built` as of
    the last flush that wrote, `written` is everything flushed, and `current` is
    what was flushed into the current file. `retired` lists the contents of the
    files ever rotated out, oldest first; `hashed` is every string ever hashed.
  */
  datatype History = History(
    built: seq<AuditEntry>,
    sealed: seq<AuditEntry>,
    written: seq<AuditEntry>,
    current: seq<AuditEntry>,
    retired: seq<seq<AuditEntry>>,
    hashed: set<string>)

  datatype World = World(log: LogState, inflight: map<nat, AuditEntry>, hist: History)

  ghost function Start(c: Codec): World {
    World(Fresh(c), map[], History([], [], [], [], [], {GENESIS_INPUT}))
  }

  ghost function NoteFlush(st: LogState, h: History): History {
    if st.pending == [] then h
    else h.(
         sealed := h.built,
         written := h.written + st.pending,
         current := (if RotationDue(st) then [] else h.current) + st.pending,
         retired := if RotationDue(st) then h.retired + [h.current] else h.retired)
  }

  ghost function Step(c: Codec, w: World, ev: Event): World
    requires |w.log.slots| == MAX_ROTATED_FILES
  {
    match ev
    case Build(t, draft) =>
      if t in w.inflight then w
      else
        var e := Stamp(c, w.log.head, draft);
        World(w.log.(head := e.chainHash), w.inflight[t := e],
              w.hist.(built := w.hist.built + [e], hashed := w.hist.hashed + {HashInput(c, w.log.head, e)}))
    case Push(t, due) =>
      if t !in w.inflight then w
      else
        var st := w.log.(pending := w.log.pending + [w.inflight[t]]);
        var h := if |st.pending| >= FLUSH_ENTRY_COUNT || due then NoteFlush(st, w.hist) else w.hist;
        World(Pushed(c, w.log, w.inflight[t], due), w.inflight - {t}, h)
    case Flush =>
      w.(log := Flushed(c, w.log), hist := NoteFlush(w.log, w.hist))
    case Wipe =>
      w.(log := Wiped(c, w.log), hist := w.hist.(built := [], sealed := [], written := [], current := []))
    case Reopen =>
      World(Reopened(c, w.log), map[], w.hist.(built := w.hist.sealed))
  }

  ghost function Run(c: Codec, events: seq<Event>): (w: World)
    ensures |w.log.slots| == MAX_ROTATED_FILES
  {
    if events == [] then Start(c) else Step(c, Run(c, events[..|events| - 1]), events[|events| - 1])
  }

  // ---- What every run keeps ----

  /** The entry's hash is the digest of a string that was hashed for it. */
  ghost predicate Stamped(c: Codec, hashed: set<string>, e: AuditEntry) {
    exists p :: |p| == 64 && HashInput(c, p, e) in hashed && e.chainHash == c.digest(HashInput(c, p, e))
  }

  ghost predicate AllStamped(c: Codec, hashed: set<string>, es: seq<AuditEntry>) {
    forall i :: 0 <= i < |es| ==> Stamped(c, hashed, es[i])
  }

  ghost predicate ChainOk(c: Codec, w: World) {
    && Linked(c, Genesis(c), w.hist.built)
    && Inputs(c, Genesis(c), w.hist.built) <= w.hist.hashed
    && GENESIS_INPUT in w.hist.hashed
    && w.log.head == LastHash(Genesis(c), w.hist.built)
    && w.hist.sealed <= w.hist.built
    && LoadTip(c, w.log.tip) == LastHash(Genesis(c), w.hist.sealed)
  }

  ghost predicate StampsOk(c: Codec, w: World) {
    && AllStamped(c, w.hist.hashed, w.hist.current)
    && AllStamped(c, w.hist.hashed, w.log.pending)
    && forall t :: t in w.inflight ==> Stamped(c, w.hist.hashed, w.inflight[t])
  }

  /** log.1, log.2, ... hold the most recently retired files, newest first; nothing else is kept. */
  ghost predicate SlotsOk(c: Codec, slots: seq<Option<string>>, retired: seq<seq<AuditEntry>>) {
    && |slots| == MAX_ROTATED_FILES
    && forall j :: 0 <= j < MAX_ROTATED_FILES ==>
      slots[j] == if j < |retired| then Some(Text(c, retired[|retired| - 1 - j])) else None
  }

  ghost predicate Inv(c: Codec, w: World) {
    && ChainOk(c, w) && StampsOk(c, w) && SlotsOk(c, w.log.slots, w.hist.retired)
    && w.log.current == Text(c, w.hist.current)
  }

  lemma StampLinks(c: Codec, head: string, draft: AuditEntry)
    ensures var e := Stamp(c, head, draft);
            e.chainHash == c.digest(HashInput(c, head, e))
  {
    var e := Stamp(c, head, draft);
    assert e.(chainHash := "") == draft.(errorMessage := None, chainHash := "");
  }

  lemma HeadIsDigest(c: Codec, w: World)
    requires ValidCodec(c) && ChainOk(c, w)
    ensures IsHexDigest(w.log.head)
  {
    var built := w.hist.built;
    if built != [] {
      assert LinkAt(c, Genesis(c), built, |built| - 1);
    }
  }

  lemma StampStays(c: Codec, small: set<string>, big: set<string>, e: AuditEntry)
    requires small <= big && Stamped(c, small, e)
    ensures Stamped(c, big, e)
  {
    var p :| |p| == 64 && HashInput(c, p, e) in small && e.chainHash == c.digest(HashInput(c, p, e));
    assert HashInput(c, p, e) in big;
  }

  lemma BuildKeepsChain(c: Codec, w: World, t: nat, draft: AuditEntry)
    requires ValidCodec(c) && ChainOk(c, w) && |w.log.slots| == MAX_ROTATED_FILES && t !in w.inflight
    ensures ChainOk(c, Step(c, w, Build(t, draft)))
  {
    StampLinks(c, w.log.head, draft);
    LinkedSnoc(c, Genesis(c), w.hist.built, Stamp(c, w.log.head, draft));
  }

  lemma StampsStay(c: Codec, hashed: set<string>, w: World)
    requires StampsOk(c, w) && w.hist.hashed <= hashed
    ensures StampsOk(c, w.(hist := w.hist.(hashed := hashed)))
  {
    forall e | Stamped(c, w.hist.hashed, e)
      ensures Stamped(c, hashed, e)
    {
      StampStays(c, w.hist.hashed, hashed, e);
    }
  }

  lemma BuildKeepsInv(c: Codec, w: World, t: nat, draft: AuditEntry)
    requires ValidCodec(c) && Inv(c, w) && t !in w.inflight
    ensures Inv(c, Step(c, w, Build(t, draft)))
  {
    var w' := Step(c, w, Build(t, draft));
    BuildKeepsChain(c, w, t, draft);
    StampsStay(c, w'.hist.hashed, w);
    HeadIsDigest(c, w);
    StampLinks(c, w.log.head, draft);
    assert Stamped(c, w'.hist.hashed, w'.inflight[t]);
  }

  lemma ShiftKeepsSlots(c: Codec, slots: seq<Option<string>>, retired: seq<seq<AuditEntry>>, es: seq<AuditEntry>)
    requires SlotsOk(c, slots, retired)
    ensures SlotsOk(c, Shifted(slots, Text(c, es)), retired + [es])
  {
  }

  lemma FlushKeepsFiles(c: Codec, w: World)
    requires Inv(c, w)
    ensures var w' := Step(c, w, Flush);
            SlotsOk(c, w'.log.slots, w'.hist.retired) && w'.log.current == Text(c, w'.hist.current)
  {
    if w.log.pending != [] {
      TextAppend(c, if RotationDue(w.log) then [] else w.hist.current, w.log.pending);
      assert "" + Text(c, w.log.pending) == Text(c, w.log.pending);
      assert Text(c, []) == "";
      ShiftKeepsSlots(c, w.log.slots, w.hist.retired, w.hist.current);
    }
  }

  lemma FlushKeepsInv(c: Codec, w: World)
    requires ValidCodec(c) && Inv(c, w)
    ensures Inv(c, Step(c, w, Flush))
  {
    FlushKeepsFiles(c, w);
    HeadIsDigest(c, w);
    DigestNotBlank(w.log.head);
  }

  lemma PushKeepsInv(c: Codec, w: World, t: nat, due: bool)
    requires ValidCodec(c) && Inv(c, w) && t in w.inflight
    ensures Inv(c, Step(c, w, Push(t, due)))
  {
    QueueKeepsInv(c, w, t);
    PushQueues(c, w, t, due);
    if Step(c, w, Push(t, due)) != Queued(w, t) {
      FlushKeepsInv(c, Queued(w, t));
    }
  }

  /** A push queues the entry and, when a flush is due, flushes. */
  lemma PushQueues(c: Codec, w: World, t: nat, due: bool)
    requires |w.log.slots| == MAX_ROTATED_FILES && t in w.inflight
    ensures Step(c, w, Push(t, due))
         == if due || |w.log.pending| + 1 >= FLUSH_ENTRY_COUNT then Step(c, Queued(w, t), Flush) else Queued(w, t)
  {
  }

  /** A push before any flush. */
  ghost function Queued(w: World, t: nat): World
    requires t in w.inflight
  {
    w.(log := w.log.(pending := w.log.pending + [w.inflight[t]]), inflight := w.inflight - {t})
  }

  lemma QueueKeepsInv(c: Codec, w: World, t: nat)
    requires Inv(c, w) && t in w.inflight
    ensures Inv(c, Queued(w, t))
  {
  }

  lemma ReopenKeepsInv(c: Codec, w: World)
    requires Inv(c, w)
    ensures Inv(c, Step(c, w, Reopen))
  {
    var n := |w.hist.sealed|;
    assert w.hist.sealed == w.hist.built[..n];
    LinkedPrefix(c, Genesis(c), w.hist.built, n);
  }

  lemma StepKeepsInv(c: Codec, w: World, ev: Event)
    requires ValidCodec(c) && Inv(c, w)
    ensures Inv(c, Step(c, w, ev))
  {
    match ev
    case Build(t, draft) =>
      if t !in w.inflight {
        BuildKeepsInv(c, w, t, draft);
      }
    case Push(t, due) =>
      if t in w.inflight {
        PushKeepsInv(c, w, t, due);
      }
    case Flush =>
      FlushKeepsInv(c, w);
    case Wipe =>
    case Reopen =>
      ReopenKeepsInv(c, w);
  }

  lemma {:induction false} RunKeepsInv(c: Codec, events: seq<Event>)
    requires ValidCodec(c)
    ensures Inv(c, Run(c, events))
  {
    if events != [] {
      RunKeepsInv(c, events[..|events| - 1]);
      StepKeepsInv(c, Run(c, events[..|events| - 1]), events[|events| - 1]);
    }
  }

  // ---- When the check accepts ----

  function NormalisedAll(es: seq<AuditEntry>): seq<AuditEntry> {
    seq(|es|, i requires 0 <= i < |es| => Normalised(es[i]))
  }

  /** Does `verify` accept what is on disk? */
  ghost predicate DiskAccepted(c: Codec, st: LogState) {
    Accepts(c, Lines(st.current), LoadTip(c, st.tip))
  }

  /** Everything hashed during the run or by checking its current file. */
  ghost function HashedInRun(c: Codec, w: World): set<string> {
    HashedReading(c, w, w)
  }

  /** The same for a check that reads the file at `w` and the tip, later, at `v`. */
  ghost function HashedReading(c: Codec, w: World, v: World): set<string> {
    v.hist.hashed + Inputs(c, Genesis(c), NormalisedAll(w.hist.current))
  }

  /** Does `verify` accept if it reads the file at `w` and the tip at `v`? */
  ghost predicate ReadsAccepted(c: Codec, w: World, v: World) {
    Accepts(c, Lines(w.log.current), LoadTip(c, v.log.tip))
  }

  lemma DiskReadsBack(c: Codec, w: World)
    requires ValidCodec(c) && Inv(c, w)
    ensures Parseable(c, Lines(w.log.current))
    ensures Parsed(c, Lines(w.log.current)) == NormalisedAll(w.hist.current)
  {
    LinesOfText(c, w.hist.current);
  }

  lemma FiniteReadsBackItself(es: seq<AuditEntry>)
    requires AllFinite(es)
    ensures NormalisedAll(es) == es
  {
  }

  /** A non-finite score cannot be read back as a differently printed entry with the same hash. */
  lemma NonFiniteCollides(c: Codec, hashed: set<string>, e: AuditEntry, start: string, es: seq<AuditEntry>, i: nat)
    requires ValidCodec(c) && Stamped(c, hashed, e) && !FiniteScore(e)
    requires i < |es| && es[i] == Normalised(e) && LinkAt(c, start, es, i) && InputAt(c, start, es, i) in hashed
    requires |PrevHash(start, es, i)| == 64
    ensures CollisionIn(c, hashed)
  {
    var p :| |p| == 64 && HashInput(c, p, e) in hashed && e.chainHash == c.digest(HashInput(c, p, e));
    var x, y := HashInput(c, p, e), InputAt(c, start, es, i);
    if x == y {
      HashInputInjective(c, p, e, PrevHash(start, es, i), es[i]);
      assert false;
    }
  }

  lemma {:induction false} HashedGrows(c: Codec, events: seq<Event>, more: seq<Event>)
    ensures Run(c, events).hist.hashed <= Run(c, events + more).hist.hashed
  {
    if more == [] {
      assert events + more == events;
    } else {
      assert (events + more)[..|events + more| - 1] == events + more[..|more| - 1];
      HashedGrows(c, events, more[..|more| - 1]);
    }
  }

  /**
    Main result, for every interleaving of stamps, pushes, flushes (with rotation
    whenever the size asks for it), wipes and restarts, also between the check's
    two unlocked reads: the file at the first and the tip at the second. The check
    accepts exactly when the file held precisely the entries stamped, up to the
    last flush that wrote before the second read and since the last wipe before
    it, in stamping order, and every score in it is finite. The one other way to
    be accepted is a digest collision among strings that were hashed.
  */
  lemma VerifyExactly(c: Codec, events: seq<Event>, more: seq<Event>)
    requires ValidCodec(c)
    ensures var w, v := Run(c, events), Run(c, events + more);
            && (w.hist.current == v.hist.sealed && AllFinite(w.hist.current) ==> ReadsAccepted(c, w, v))
            && (ReadsAccepted(c, w, v) ==>
                  || (w.hist.current == v.hist.sealed && AllFinite(w.hist.current))
                  || CollisionIn(c, HashedReading(c, w, v)))
  {
    var w, v := Run(c, events), Run(c, events + more);
    RunKeepsInv(c, events);
    RunKeepsInv(c, events + more);
    HashedGrows(c, events, more);
    DiskReadsBack(c, w);
    SealedChain(c, v);
    if AllFinite(w.hist.current) {
      FiniteReadsBackItself(w.hist.current);
    }
    if ReadsAccepted(c, w, v) && !CollisionIn(c, HashedReading(c, w, v)) {
      AcceptedOnlyIf(c, w, v);
    }
  }

  /** The same when nothing happens between the two reads. */
  lemma AcceptedExactly(c: Codec, events: seq<Event>)
    requires ValidCodec(c)
    ensures var w := Run(c, events);
            && (w.hist.current == w.hist.sealed && AllFinite(w.hist.current) ==> DiskAccepted(c, w.log))
            && (DiskAccepted(c, w.log) ==>
                  (w.hist.current == w.hist.sealed && AllFinite(w.hist.current)) || CollisionIn(c, HashedInRun(c, w)))
  {
    VerifyExactly(c, events, []);
    assert events + [] == events;
  }

  lemma SealedChain(c: Codec, v: World)
    requires ChainOk(c, v)
    ensures Linked(c, Genesis(c), v.hist.sealed)
    ensures Inputs(c, Genesis(c), v.hist.sealed) <= v.hist.hashed
  {
    assert v.hist.sealed == v.hist.built[..|v.hist.sealed|];
    LinkedPrefix(c, Genesis(c), v.hist.built, |v.hist.sealed|);
  }

  lemma AcceptedOnlyIf(c: Codec, w: World, v: World)
    requires ValidCodec(c) && Inv(c, w) && Inv(c, v) && w.hist.hashed <= v.hist.hashed
    requires ReadsAccepted(c, w, v) && !CollisionIn(c, HashedReading(c, w, v))
    ensures w.hist.current == v.hist.sealed && AllFinite(w.hist.current)
  {
    var g, read, hashed := Genesis(c), NormalisedAll(w.hist.current), HashedReading(c, w, v);
    DiskReadsBack(c, w);
    SealedChain(c, v);
    NoCollisionBelow(c, HashedBy(c, read, v.hist.sealed), hashed);
    TamperEvident(c, read, v.hist.sealed);
    FiniteShownEqual(read, v.hist.sealed);
    forall i | 0 <= i < |w.hist.current|
      ensures FiniteScore(w.hist.current[i])
    {
      if !FiniteScore(w.hist.current[i]) {
        StampsStay(c, hashed, w);
        assert LinkAt(c, g, read, i);
        assert InputAt(c, g, read, i) in Inputs(c, g, read);
        PrevHashIsDigest(c, read, i);
        NonFiniteCollides(c, hashed, w.hist.current[i], g, read, i);
      }
    }
    FiniteReadsBackItself(w.hist.current);
  }
}
