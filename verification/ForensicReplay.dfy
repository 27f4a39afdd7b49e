/**
  Replaying a chain (hal/src/forensic_replay.rs). Timestamps are nanoseconds.
*/
module ForensicReplay {
  import opened Common
  import opened AuditFormat
  import opened AuditChain
  import opened SetSum

  const HOUR := 3600 * 1000000000

  datatype ReplayEvent = ReplayEvent(
    seqNo: nat, ts: int, agent: string, action: string, halScore: Option<Score>, halLevel: Option<string>)

  datatype Snapshot = Snapshot(
    at: int,
    counts: map<string, nat>,
    last: map<string, ReplayEvent>,
    peak: Option<Score>,
    confirmOrBlock: nat)

  function EventOf(e: ChainedEntry): ReplayEvent {
    ReplayEvent(e.seqNo, e.entry.ts, e.entry.agent, e.entry.action, e.entry.halScore, e.entry.halLevel)
  }

  /** `replay_range`: filter by an inclusive window, then map. */
  function ReplayRange(es: seq<ChainedEntry>, from: int, to: int): seq<ReplayEvent> {
    if es == [] then []
    else
      var e := es[|es| - 1];
      ReplayRange(es[..|es| - 1], from, to) + if from <= e.entry.ts <= to then [EventOf(e)] else []
  }

  /** f32::max: a NaN operand gives way to the other one. Of the two zeros it may return either; here the first. */
  function MaxScore(p: Score, s: Score): Score {
    if p.NotANumber? then s
    else if s.NotANumber? then p
    else if AtMost(s, p) then p else s
  }

  /** The peak once a score is taken into account. */
  function Raised(peak: Option<Score>, score: Option<Score>): Option<Score> {
    if score == None then peak
    else if peak == None then score
    else Some(MaxScore(peak.value, score.value))
  }

  predicate Confirming(e: ChainedEntry) {
    e.entry.halLevel == Some("confirm") || e.entry.halLevel == Some("block")
  }

  // ---- What a snapshot has to say about the entries it covers ----

  function Occurrences(es: seq<ChainedEntry>, agent: string): nat {
    if es == [] then 0
    else Occurrences(es[..|es| - 1], agent) + if es[|es| - 1].entry.agent == agent then 1 else 0
  }

  ghost predicate CountsOk(es: seq<ChainedEntry>, counts: map<string, nat>) {
    && (forall a :: a in counts <==> Occurrences(es, a) > 0)
    && (forall a :: a in counts ==> counts[a] == Occurrences(es, a))
    && Total(counts) == |es|
  }

  ghost predicate IsLastOf(es: seq<ChainedEntry>, agent: string, j: nat) {
    && j < |es| && es[j].entry.agent == agent
    && forall i :: j < i < |es| ==> es[i].entry.agent != agent
  }

  ghost predicate HasLast(es: seq<ChainedEntry>, agent: string, ev: ReplayEvent) {
    exists j :: 0 <= j < |es| && IsLastOf(es, agent, j) && ev == EventOf(es[j])
  }

  ghost predicate LastOk(es: seq<ChainedEntry>, last: map<string, ReplayEvent>) {
    && (forall a :: a in last <==> Occurrences(es, a) > 0)
    && (forall a :: a in last ==> HasLast(es, a, last[a]))
  }

  /** Scores of the entries in the hour that ends at `at`, exclusive of its start. */
  ghost function RecentScores(es: seq<ChainedEntry>, at: int): set<Score> {
    set i | 0 <= i < |es| && es[i].entry.ts > at - HOUR && es[i].entry.halScore.Some? :: es[i].entry.halScore.value
  }

  ghost predicate PeakOk(scores: set<Score>, peak: Option<Score>) {
    match peak
    case None => scores == {}
    case Some(p) =>
      && p in scores
      && (p.NotANumber? ==> scores == {NotANumber})
      && (forall s :: s in scores && !s.NotANumber? ==> AtMost(s, p))
  }

  ghost function RecentConfirms(es: seq<ChainedEntry>, at: int): set<nat> {
    set i: nat | i < |es| && es[i].entry.ts > at - HOUR && Confirming(es[i])
  }

  /** The last hour's highest score and its number of confirmations and blocks. */
  ghost predicate RecentOk(es: seq<ChainedEntry>, s: Snapshot) {
    && PeakOk(RecentScores(es, s.at), s.peak)
    && s.confirmOrBlock == |RecentConfirms(es, s.at)|
  }

  ghost predicate Summarises(es: seq<ChainedEntry>, s: Snapshot) {
    && CountsOk(es, s.counts)
    && LastOk(es, s.last)
    && RecentOk(es, s)
  }

  // ---- One more entry ----

  lemma OccurrencesSnoc(es: seq<ChainedEntry>, e: ChainedEntry, a: string)
    ensures Occurrences(es + [e], a) == Occurrences(es, a) + if e.entry.agent == a then 1 else 0
  {
    assert (es + [e])[..|es|] == es;
  }

  lemma CountsSnoc(es: seq<ChainedEntry>, e: ChainedEntry, counts: map<string, nat>)
    requires CountsOk(es, counts)
    ensures var a := e.entry.agent;
            CountsOk(es + [e], counts[a := (if a in counts then counts[a] else 0) + 1])
  {
    var a := e.entry.agent;
    TotalPut(counts, a, (if a in counts then counts[a] else 0) + 1);
    forall b {
      OccurrencesSnoc(es, e, b);
    }
  }

  lemma LastSnoc(es: seq<ChainedEntry>, e: ChainedEntry, last: map<string, ReplayEvent>)
    requires LastOk(es, last)
    ensures LastOk(es + [e], last[e.entry.agent := EventOf(e)])
  {
    var es', last' := es + [e], last[e.entry.agent := EventOf(e)];
    forall b {
      OccurrencesSnoc(es, e, b);
    }
    forall a | a in last'
      ensures HasLast(es', a, last'[a])
    {
      if a == e.entry.agent {
        assert IsLastOf(es', a, |es|);
      } else {
        assert HasLast(es, a, last[a]);
        var j :| 0 <= j < |es| && IsLastOf(es, a, j) && last[a] == EventOf(es[j]);
        assert IsLastOf(es', a, j);
      }
    }
  }

  lemma ScoresSnoc(es: seq<ChainedEntry>, e: ChainedEntry, at: int)
    ensures RecentScores(es + [e], at) == RecentScores(es, at)
      + if e.entry.ts > at - HOUR && e.entry.halScore.Some? then {e.entry.halScore.value} else {}
  {
    var es' := es + [e];
    assert es'[|es|] == e;
    forall s | s in RecentScores(es, at)
      ensures s in RecentScores(es', at)
    {
      var i :| 0 <= i < |es| && es[i].entry.ts > at - HOUR && es[i].entry.halScore == Some(s);
      assert es'[i] == es[i];
    }
  }

  lemma ConfirmsSnoc(es: seq<ChainedEntry>, e: ChainedEntry, at: int)
    ensures |RecentConfirms(es + [e], at)|
         == |RecentConfirms(es, at)| + if e.entry.ts > at - HOUR && Confirming(e) then 1 else 0
  {
    var old', now := RecentConfirms(es, at), RecentConfirms(es + [e], at);
    if e.entry.ts > at - HOUR && Confirming(e) {
      assert now == old' + {|es|};
    } else {
      assert now == old';
    }
  }

  lemma PeakPut(scores: set<Score>, peak: Option<Score>, score: Score)
    requires PeakOk(scores, peak)
    ensures PeakOk(scores + {score}, Raised(peak, Some(score)))
  {
  }

  lemma RecentSnoc(es: seq<ChainedEntry>, e: ChainedEntry, at: int, peak: Option<Score>)
    requires PeakOk(RecentScores(es, at), peak)
    ensures var score := if e.entry.ts > at - HOUR then e.entry.halScore else None;
            PeakOk(RecentScores(es + [e], at), Raised(peak, score))
  {
    ScoresSnoc(es, e, at);
    if e.entry.halScore.Some? {
      PeakPut(RecentScores(es, at), peak, e.entry.halScore.value);
    }
  }

  // ---- The reconstruction loop ----

  /** Where the loop breaks: at the first entry later than `at`. */
  function Cut(es: seq<ChainedEntry>, at: int): (p: nat)
    ensures CutAt(es, at, p)
  {
    if es == [] || es[0].entry.ts > at then 0
    else
      assert es == [es[0]] + es[1..];
      1 + Cut(es[1..], at)
  }

  lemma CutUnique(es: seq<ChainedEntry>, at: int, p: nat, q: nat)
    requires CutAt(es, at, p) && CutAt(es, at, q)
    ensures p == q
  {
  }

  /** p is the length of the longest prefix with no timestamp after `at`. */
  ghost predicate CutAt(es: seq<ChainedEntry>, at: int, p: nat) {
    && p <= |es|
    && (forall i :: 0 <= i < p ==> es[i].entry.ts <= at)
    && (p < |es| ==> es[p].entry.ts > at)
  }

  /** The snapshot after one more entry. */
  ghost function Absorbed(s: Snapshot, e: ChainedEntry): Snapshot {
    var a, recent := e.entry.agent, e.entry.ts > s.at - HOUR;
    Snapshot(
      s.at,
      s.counts[a := (if a in s.counts then s.counts[a] else 0) + 1],
      s.last[a := EventOf(e)],
      Raised(s.peak, if recent then e.entry.halScore else None),
      s.confirmOrBlock + if recent && Confirming(e) then 1 else 0)
  }

  lemma CountsGrow(es: seq<ChainedEntry>, e: ChainedEntry, s: Snapshot)
    requires CountsOk(es, s.counts)
    ensures CountsOk(es + [e], Absorbed(s, e).counts)
  {
    CountsSnoc(es, e, s.counts);
  }

  lemma LastGrow(es: seq<ChainedEntry>, e: ChainedEntry, s: Snapshot)
    requires LastOk(es, s.last)
    ensures LastOk(es + [e], Absorbed(s, e).last)
  {
    LastSnoc(es, e, s.last);
  }

  lemma RecentGrow(es: seq<ChainedEntry>, e: ChainedEntry, s: Snapshot)
    requires RecentOk(es, s)
    ensures RecentOk(es + [e], Absorbed(s, e))
  {
    RecentSnoc(es, e, s.at, s.peak);
    ConfirmsSnoc(es, e, s.at);
  }

  lemma SummariesGrow(es: seq<ChainedEntry>, e: ChainedEntry, s: Snapshot)
    requires Summarises(es, s)
    ensures Summarises(es + [e], Absorbed(s, e))
  {
    CountsGrow(es, e, s);
    LastGrow(es, e, s);
    RecentGrow(es, e, s);
  }

  ghost function Folded(es: seq<ChainedEntry>, at: int): Snapshot {
    if es == [] then Snapshot(at, map[], map[], None, 0)
    else Absorbed(Folded(es[..|es| - 1], at), es[|es| - 1])
  }

  lemma FoldedSnoc(es: seq<ChainedEntry>, e: ChainedEntry, at: int)
    ensures Folded(es + [e], at) == Absorbed(Folded(es, at), e)
  {
    assert (es + [e])[..|es|] == es;
  }

  lemma FoldedEmpty(at: int)
    ensures Folded([], at).at == at && Summarises([], Folded([], at))
  {
    assert RecentConfirms([], at) == {};
  }

  lemma FoldGrow(es: seq<ChainedEntry>, e: ChainedEntry, at: int)
    requires Folded(es, at).at == at && Summarises(es, Folded(es, at))
    ensures Folded(es + [e], at).at == at && Summarises(es + [e], Folded(es + [e], at))
  {
    FoldedSnoc(es, e, at);
    SummariesGrow(es, e, Folded(es, at));
  }

  /** Folding entries one at a time gives the snapshot the counts, maxima and last events describe. */
  lemma {:induction false} FoldSummarises(es: seq<ChainedEntry>, at: int)
    ensures Folded(es, at).at == at && Summarises(es, Folded(es, at))
  {
    if es == [] {
      FoldedEmpty(at);
    } else {
      var front, e := es[..|es| - 1], es[|es| - 1];
      FoldSummarises(front, at);
      assert front + [e] == es;
      FoldGrow(front, e, at);
    }
  }

  lemma {:induction false} OccurrencesCount(es: seq<ChainedEntry>, agent: string)
    ensures Occurrences(es, agent) == |Places(es, agent)|
  {
    if es == [] {
      assert Places(es, agent) == {};
    } else {
      var n := |es| - 1;
      OccurrencesCount(es[..n], agent);
      assert Places(es, agent) == Places(es[..n], agent) + if es[n].entry.agent == agent then {n} else {};
    }
  }

  function Places(es: seq<ChainedEntry>, agent: string): set<nat> {
    set i: nat | i < |es| && es[i].entry.agent == agent
  }

  /** The snapshot's counts and last events said in the entries' own fields. */
  lemma SnapshotCounts(es: seq<ChainedEntry>, at: int, agent: string)
    ensures var s, here := Folded(es, at), Places(es, agent);
            && s.at == at
            && (agent in s.counts <==> here != {}) && (agent in s.last <==> here != {})
            && (agent in s.counts ==> s.counts[agent] == |here|)
            && (agent in s.last ==> exists j :: 0 <= j < |es| && IsLastOf(es, agent, j) && Shows(s.last[agent], es[j]))
  {
    FoldSummarises(es, at);
    OccurrencesCount(es, agent);
    LastShown(es, Folded(es, at).last, agent);
  }

  /** Of the last 3600 seconds: how many entries have level "confirm" or "block", and a highest score. */
  lemma SnapshotLastHour(es: seq<ChainedEntry>, at: int)
    ensures var s := Folded(es, at);
            && s.confirmOrBlock == |set i: nat | i < |es| && InLastHour(es[i], at) && Asked(es[i])|
            && (s.peak == None <==> forall i :: 0 <= i < |es| && InLastHour(es[i], at) ==> es[i].entry.halScore == None)
            && (s.peak.Some? ==>
                  && (exists i :: 0 <= i < |es| && InLastHour(es[i], at) && es[i].entry.halScore == s.peak)
                  && (forall i :: 0 <= i < |es| && InLastHour(es[i], at) && es[i].entry.halScore.Some? ==>
                        es[i].entry.halScore == Some(NotANumber) || AtMost(es[i].entry.halScore.value, s.peak.value)))
  {
    FoldSummarises(es, at);
    assert RecentConfirms(es, at) == set i: nat | i < |es| && InLastHour(es[i], at) && Asked(es[i]);
    PeakSays(es, at, Folded(es, at).peak);
  }

  /** Nanoseconds. */
  predicate InLastHour(e: ChainedEntry, at: int) {
    e.entry.ts > at - 3600 * 1_000_000_000
  }

  predicate Asked(e: ChainedEntry) {
    e.entry.halLevel in {Some("confirm"), Some("block")}
  }

  predicate Shows(ev: ReplayEvent, e: ChainedEntry) {
    && ev.seqNo == e.seqNo && ev.ts == e.entry.ts
    && ev.agent == e.entry.agent && ev.action == e.entry.action
    && ev.halScore == e.entry.halScore && ev.halLevel == e.entry.halLevel
  }

  lemma LastShown(es: seq<ChainedEntry>, last: map<string, ReplayEvent>, agent: string)
    requires LastOk(es, last)
    ensures agent in last ==> exists j :: 0 <= j < |es| && IsLastOf(es, agent, j) && Shows(last[agent], es[j])
  {
    if agent in last {
      assert HasLast(es, agent, last[agent]);
      var j :| 0 <= j < |es| && IsLastOf(es, agent, j) && last[agent] == EventOf(es[j]);
      assert Shows(last[agent], es[j]);
    }
  }

  lemma PeakSays(es: seq<ChainedEntry>, at: int, peak: Option<Score>)
    requires PeakOk(RecentScores(es, at), peak)
    ensures peak == None <==> forall i :: 0 <= i < |es| && InLastHour(es[i], at) ==> es[i].entry.halScore == None
    ensures peak.Some? ==>
              && (exists i :: 0 <= i < |es| && InLastHour(es[i], at) && es[i].entry.halScore == peak)
              && (forall i :: 0 <= i < |es| && InLastHour(es[i], at) && es[i].entry.halScore.Some? ==>
                    es[i].entry.halScore == Some(NotANumber) || AtMost(es[i].entry.halScore.value, peak.value))
  {
    forall i | 0 <= i < |es| && InLastHour(es[i], at) && es[i].entry.halScore.Some?
      ensures es[i].entry.halScore.value in RecentScores(es, at)
    {
    }
    if peak.Some? {
      var i :| 0 <= i < |es| && es[i].entry.ts > at - HOUR && es[i].entry.halScore == peak;
      assert InLastHour(es[i], at);
    }
  }

  lemma FoldTotal(es: seq<ChainedEntry>, at: int)
    ensures Total(Folded(es, at).counts) == |es|
  {
    FoldSummarises(es, at);
  }

  /** `reconstruct_state`: folds exactly the entries before the first one after `at`. */
  method ReconstructState(es: seq<ChainedEntry>, at: int) returns (s: Snapshot)
    ensures s == Folded(es[..Cut(es, at)], at)
  {
    var counts: map<string, nat> := map[];
    var last: map<string, ReplayEvent> := map[];
    var peak: Option<Score> := None;
    var confirms := 0;
    var hourAgo := at - HOUR;
    var k := 0;
    while k < |es|
      invariant 0 <= k <= |es|
      invariant forall i :: 0 <= i < k ==> es[i].entry.ts <= at
      invariant Folded(es[..k], at) == Snapshot(at, counts, last, peak, confirms)
    {
      var e := es[k];
      if e.entry.ts > at {
        break;
      }
      assert es[..k + 1][..k] == es[..k];
      var agent := e.entry.agent;
      counts := counts[agent := (if agent in counts then counts[agent] else 0) + 1];
      last := last[agent := EventOf(e)];
      if e.entry.ts > hourAgo {
        if e.entry.halScore.Some? {
          peak := Raised(peak, e.entry.halScore);
        }
        if Confirming(e) {
          confirms := confirms + 1;
        }
      }
      k := k + 1;
    }
    CutUnique(es, at, k, Cut(es, at));
    s := Snapshot(at, counts, last, peak, confirms);
  }

  // ---- Agreement with replay_range ----

  function EventsOf(es: seq<ChainedEntry>): seq<ReplayEvent> {
    seq(|es|, i requires 0 <= i < |es| => EventOf(es[i]))
  }

  lemma {:induction false} RangeSplit(a: seq<ChainedEntry>, b: seq<ChainedEntry>, from: int, to: int)
    ensures ReplayRange(a + b, from, to) == ReplayRange(a, from, to) + ReplayRange(b, from, to)
  {
    if b == [] {
      assert a + b == a;
    } else {
      var front := b[..|b| - 1];
      assert (a + b)[..|a + b| - 1] == a + front;
      RangeSplit(a, front, from, to);
    }
  }

  lemma {:induction false} RangeOfNone(es: seq<ChainedEntry>, from: int, to: int)
    ensures ReplayRange(es, from, to) == [] <==> forall i :: 0 <= i < |es| ==> !(from <= es[i].entry.ts <= to)
  {
    if es != [] {
      var n := |es| - 1;
      RangeOfNone(es[..n], from, to);
      assert forall i :: 0 <= i < n ==> es[..n][i] == es[i];
    }
  }

  lemma {:induction false} RangeOfAll(es: seq<ChainedEntry>, from: int, to: int)
    ensures |ReplayRange(es, from, to)| <= |es|
    ensures |ReplayRange(es, from, to)| == |es| <==> forall i :: 0 <= i < |es| ==> from <= es[i].entry.ts <= to
    ensures |ReplayRange(es, from, to)| == |es| ==> ReplayRange(es, from, to) == EventsOf(es)
  {
    if es != [] {
      var n := |es| - 1;
      RangeOfAll(es[..n], from, to);
      assert EventsOf(es) == EventsOf(es[..n]) + [EventOf(es[n])];
      assert forall i :: 0 <= i < n ==> es[..n][i] == es[i];
    }
  }

  lemma {:induction false} RangeInWindow(es: seq<ChainedEntry>, from: int, to: int)
    ensures forall j :: 0 <= j < |ReplayRange(es, from, to)| ==> from <= ReplayRange(es, from, to)[j].ts <= to
  {
    if es != [] {
      RangeInWindow(es[..|es| - 1], from, to);
    }
  }

  /**
    Which events a reconstruction misses: it stops at the first entry after `at`,
    while `replay_range` skips over such entries. So, for every window that ends
    at `at`, the entries before the stop yield all its events exactly when no
    entry from the stop on lies in the window.
  */
  lemma StopMissesExactly(es: seq<ChainedEntry>, from: int, at: int)
    ensures ReplayRange(es[..Cut(es, at)], from, at) == ReplayRange(es, from, at)
            <==> forall i :: Cut(es, at) <= i < |es| ==> !(from <= es[i].entry.ts <= at)
  {
    var p := Cut(es, at);
    assert es == es[..p] + es[p..];
    RangeSplit(es[..p], es[p..], from, at);
    NothingAdded(ReplayRange(es[..p], from, at), ReplayRange(es[p..], from, at));
    TailOutside(es, p, from, at);
  }

  lemma TailOutside(es: seq<ChainedEntry>, p: nat, from: int, to: int)
    requires p <= |es|
    ensures ReplayRange(es[p..], from, to) == [] <==> forall i :: p <= i < |es| ==> !(from <= es[i].entry.ts <= to)
  {
    var b := es[p..];
    RangeOfNone(b, from, to);
    if ReplayRange(b, from, to) == [] {
      forall i | p <= i < |es|
        ensures !(from <= es[i].entry.ts <= to)
      {
        assert es[i] == b[i - p];
      }
    }
  }

  /**
    And the snapshot covers exactly the window's events when, besides, the window
    starts no later than any entry before the stop.
  */
  lemma CoversReplayRange(es: seq<ChainedEntry>, from: int, at: int)
    ensures EventsOf(es[..Cut(es, at)]) == ReplayRange(es, from, at)
            <==>
            && (forall i :: 0 <= i < Cut(es, at) ==> from <= es[i].entry.ts)
            && (forall i :: Cut(es, at) <= i < |es| ==> !(from <= es[i].entry.ts <= at))
  {
    var p := Cut(es, at);
    var a := es[..p];
    StopMissesExactly(es, from, at);
    PrefixWithin(es, p, from, at);
    RangeInWindow(es, from, at);
    if EventsOf(a) == ReplayRange(es, from, at) {
      forall i | 0 <= i < p
        ensures from <= es[i].entry.ts
      {
        assert EventsOf(a)[i] == EventOf(es[i]);
      }
      assert ReplayRange(a, from, at) == EventsOf(a);
    }
  }

  lemma NothingAdded(x: seq<ReplayEvent>, y: seq<ReplayEvent>)
    ensures x == x + y <==> y == []
  {
    assert |x + y| == |x| + |y|;
    if y == [] {
      assert x + y == x;
    }
  }

  predicate TimeOrdered(es: seq<ChainedEntry>) {
    forall i, j :: 0 <= i < j < |es| ==> es[i].entry.ts <= es[j].entry.ts
  }

  /**
    In time order no window loses an event, and the snapshot's counts add up to the
    length of the replayed range exactly when the window starts no later than any
    entry the snapshot covers; then the snapshot describes just that range.
  */
  lemma OrderedAgreement(es: seq<ChainedEntry>, from: int, at: int)
    requires TimeOrdered(es)
    ensures ReplayRange(es[..Cut(es, at)], from, at) == ReplayRange(es, from, at)
    ensures Total(Folded(es[..Cut(es, at)], at).counts) == |ReplayRange(es, from, at)|
            <==> forall i :: 0 <= i < Cut(es, at) ==> from <= es[i].entry.ts
    ensures Total(Folded(es[..Cut(es, at)], at).counts) == |ReplayRange(es, from, at)|
            ==> EventsOf(es[..Cut(es, at)]) == ReplayRange(es, from, at)
  {
    var p := Cut(es, at);
    FoldTotal(es[..p], at);
    OrderedTail(es, at);
    StopMissesExactly(es, from, at);
    PrefixWithin(es, p, from, at);
  }

  lemma OrderedTail(es: seq<ChainedEntry>, at: int)
    requires TimeOrdered(es)
    ensures forall i :: Cut(es, at) <= i < |es| ==> es[i].entry.ts > at
  {
  }

  lemma PrefixWithin(es: seq<ChainedEntry>, p: nat, from: int, at: int)
    requires CutAt(es, at, p)
    ensures |ReplayRange(es[..p], from, at)| == p <==> forall i :: 0 <= i < p ==> from <= es[i].entry.ts
    ensures |ReplayRange(es[..p], from, at)| == p ==> ReplayRange(es[..p], from, at) == EventsOf(es[..p])
  {
    RangeOfAll(es[..p], from, at);
  }

  /** Out of time order the two differ: an early entry behind a late one is replayed but not reconstructed. */
  lemma UnorderedDiffers(early: ChainedEntry, late: ChainedEntry)
    requires early.entry.ts < late.entry.ts
    ensures var es, at := [late, early], early.entry.ts;
            EventsOf(es[..Cut(es, at)]) == [] && ReplayRange(es, at, at) == [EventOf(early)]
  {
    var es := [late, early];
    assert es[0] == late && Cut(es, early.entry.ts) == 0;
    assert es == [late] + [early];
    RangeSplit([late], [early], early.entry.ts, early.entry.ts);
    RangeOfNone([late], early.entry.ts, early.entry.ts);
    RangeOfAll([early], early.entry.ts, early.entry.ts);
  }
}
