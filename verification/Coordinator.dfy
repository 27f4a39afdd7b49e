/**
  Conflict resolution between proposed actions (agents/coordinator.py). Actions
  are objects whose flag and note the loop sets; it also logs each conflict.
*/
module Coordinator {
  import opened Common

  class ProposedAction {
    const action: string
    const target: string
    const agent: string
    const confidence: real
    var conflictFlag: bool
    var conflictNote: string

    constructor (action: string, target: string, agent: string, confidence: real)
      ensures this.action == action && this.target == target && this.agent == agent
      ensures this.confidence == confidence && !conflictFlag && conflictNote == ""
    {
      this.action, this.target, this.agent, this.confidence := action, target, agent, confidence;
      conflictFlag, conflictNote := false, "";
    }

    method Flag(note: string)
      modifies this
      ensures conflictFlag && conflictNote == note
    {
      conflictFlag, conflictNote := true, note;
    }
  }

  /** What an audit line about a conflict is made from: the holder of the target and the newcomer. */
  datatype Conflict = Conflict(holder: ProposedAction, newcomer: ProposedAction)

  function AlsoProposedBy(agent: string): string {
    "Also proposed by " + agent
  }

  function ConflictsWith(agent: string): string {
    "Conflicts with " + agent
  }

  predicate Distinct(s: seq<ProposedAction>) {
    forall i, j :: 0 <= i < j < |s| ==> s[i] != s[j]
  }

  predicate SameTarget(s: seq<ProposedAction>, i: nat, j: nat)
    requires i < |s| && j < |s|
  {
    s[i].target == s[j].target
  }

  /** No earlier proposal for the target is more confident. */
  predicate BestSoFar(s: seq<ProposedAction>, k: nat)
    requires k < |s|
  {
    forall j :: 0 <= j < k && SameTarget(s, j, k) ==> s[k].confidence >= s[j].confidence
  }

  /** Among the first n proposals: best so far, and every later one for the target is less confident. */
  predicate Kept(s: seq<ProposedAction>, n: nat, k: nat)
    requires k < n <= |s|
  {
    BestSoFar(s, k) && forall j :: k < j < n && SameTarget(s, j, k) ==> s[k].confidence > s[j].confidence
  }

  predicate HasRival(s: seq<ProposedAction>, n: nat, k: nat)
    requires k < n <= |s|
  {
    exists j :: 0 <= j < n && j != k && SameTarget(s, j, k)
  }

  /** The elements at the positions below m that satisfy p, in their order. */
  function Filter(s: seq<ProposedAction>, p: nat -> bool, m: nat): seq<ProposedAction>
    requires m <= |s|
  {
    if m == 0 then []
    else if p(m - 1) then Filter(s, p, m - 1) + [s[m - 1]]
    else Filter(s, p, m - 1)
  }

  function KeptBy(s: seq<ProposedAction>, n: nat): nat -> bool {
    (k: nat) => k < n <= |s| && Kept(s, n, k)
  }

  /** The kept ones of the first n proposals, in their order. */
  function Survivors(s: seq<ProposedAction>, n: nat): seq<ProposedAction>
    requires n <= |s|
  {
    Filter(s, KeptBy(s, n), n)
  }

  /** What resolution returns: the subsequence of all kept proposals. */
  function Resolution(s: seq<ProposedAction>): seq<ProposedAction> {
    Survivors(s, |s|)
  }

  function WithoutTarget(s: seq<ProposedAction>, t: string): seq<ProposedAction> {
    if s == [] then []
    else if s[|s| - 1].target != t then WithoutTarget(s[..|s| - 1], t) + [s[|s| - 1]]
    else WithoutTarget(s[..|s| - 1], t)
  }

  // ---- Filters ----

  lemma WithoutSnoc(a: seq<ProposedAction>, x: ProposedAction, t: string)
    ensures WithoutTarget(a + [x], t) == WithoutTarget(a, t) + if x.target != t then [x] else []
  {
    assert (a + [x])[..|a|] == a;
  }

  lemma {:induction false} FilterWithout(s: seq<ProposedAction>, p: nat -> bool, q: nat -> bool, t: string, m: nat)
    requires m <= |s| && forall k :: 0 <= k < m ==> (q(k) <==> p(k) && s[k].target != t)
    ensures Filter(s, q, m) == WithoutTarget(Filter(s, p, m), t)
  {
    if m > 0 {
      FilterWithout(s, p, q, t, m - 1);
      if p(m - 1) {
        WithoutSnoc(Filter(s, p, m - 1), s[m - 1], t);
      }
    }
  }

  lemma {:induction false} FilterSame(s: seq<ProposedAction>, p: nat -> bool, q: nat -> bool, m: nat)
    requires m <= |s| && forall k :: 0 <= k < m ==> p(k) == q(k)
    ensures Filter(s, p, m) == Filter(s, q, m)
  {
    if m > 0 {
      FilterSame(s, p, q, m - 1);
    }
  }

  lemma {:induction false} FilterMembers(s: seq<ProposedAction>, p: nat -> bool, m: nat, i: nat) returns (k: nat)
    requires m <= |s| && i < |Filter(s, p, m)|
    ensures k < m && p(k) && Filter(s, p, m)[i] == s[k]
  {
    if i < |Filter(s, p, m - 1)| {
      k := FilterMembers(s, p, m - 1, i);
    } else {
      k := m - 1;
    }
  }

  lemma {:induction false} FilterHas(s: seq<ProposedAction>, p: nat -> bool, m: nat, k: nat) returns (i: nat)
    requires k < m <= |s| && p(k)
    ensures i < |Filter(s, p, m)| && Filter(s, p, m)[i] == s[k]
  {
    if k == m - 1 {
      i := |Filter(s, p, m)| - 1;
    } else {
      i := FilterHas(s, p, m - 1, k);
    }
  }

  // ---- A newcomer ----

  lemma KeptStep(s: seq<ProposedAction>, n: nat, k: nat)
    requires k < n < |s|
    ensures Kept(s, n + 1, k) <==> Kept(s, n, k) && !(SameTarget(s, n, k) && s[n].confidence >= s[k].confidence)
  {
  }

  /** Two kept proposals never share a target. */
  lemma KeptUnique(s: seq<ProposedAction>, n: nat, i: nat, j: nat)
    requires i < n <= |s| && j < n && Kept(s, n, i) && Kept(s, n, j) && SameTarget(s, i, j)
    ensures i == j
  {
    if i < j {
      assert SameTarget(s, j, i);
    }
  }

  /** A newcomer that is best so far drives out whoever holds its target. */
  lemma WinStep(s: seq<ProposedAction>, n: nat)
    requires n < |s| && BestSoFar(s, n)
    ensures Survivors(s, n + 1) == WithoutTarget(Survivors(s, n), s[n].target) + [s[n]]
  {
    var p, q := KeptBy(s, n), KeptBy(s, n + 1);
    forall k | 0 <= k < n
      ensures q(k) <==> p(k) && s[k].target != s[n].target
    {
      KeptStep(s, n, k);
      assert SameTarget(s, n, k) <==> SameTarget(s, k, n);
    }
    FilterWithout(s, p, q, s[n].target, n);
    assert Kept(s, n + 1, n) && q(n);
  }

  /** A newcomer less confident than the holder of its target changes nothing. */
  lemma LoseStep(s: seq<ProposedAction>, n: nat, e: nat)
    requires e < n < |s| && Kept(s, n, e) && SameTarget(s, e, n) && s[n].confidence < s[e].confidence
    ensures Survivors(s, n + 1) == Survivors(s, n) && !BestSoFar(s, n)
  {
    var p, q := KeptBy(s, n), KeptBy(s, n + 1);
    forall k | 0 <= k < n
      ensures p(k) == q(k)
    {
      KeptStep(s, n, k);
      if Kept(s, n, k) && SameTarget(s, n, k) {
        assert SameTarget(s, k, e);
        KeptUnique(s, n, k, e);
      }
    }
    FilterSame(s, p, q, n);
    assert !Kept(s, n + 1, n) && !q(n);
  }

  /** A newcomer at least as confident as the holder of its target is best so far. */
  lemma HolderDecides(s: seq<ProposedAction>, n: nat, e: nat)
    requires e < n < |s| && Kept(s, n, e) && SameTarget(s, e, n) && s[n].confidence >= s[e].confidence
    ensures BestSoFar(s, n)
  {
    forall j | 0 <= j < n && SameTarget(s, j, n)
      ensures s[e].confidence >= s[j].confidence
    {
      assert SameTarget(s, j, e);
    }
  }

  // ---- The loop ----

  /** The loop's variables after some rounds; `at` and `flagged` tell the holders and the flagged ones by position. */
  datatype Loop = Loop(seen: map<string, ProposedAction>, resolved: seq<ProposedAction>,
                       at: map<string, nat>, flagged: set<nat>,
                       notes: map<ProposedAction, string>, log: seq<Conflict>)

  ghost function OneRound(l: Loop, n: nat, a: ProposedAction): Loop {
    var t := a.target;
    if t !in l.seen then
      l.(seen := l.seen[t := a], resolved := l.resolved + [a], at := l.at[t := n])
    else
      var e := if t in l.at then l.at[t] else 0;
      var existing := l.seen[t];
      var notes, log := l.notes[existing := AlsoProposedBy(a.agent)], l.log + [Conflict(existing, a)];
      if a.confidence >= existing.confidence then
        Loop(l.seen[t := a], WithoutTarget(l.resolved, t) + [a], l.at[t := n], l.flagged + {e, n},
             notes[a := ConflictsWith(existing.agent)], log)
      else
        l.(flagged := l.flagged + {e}, notes := notes, log := log)
  }

  ghost function Rounds(s: seq<ProposedAction>, n: nat): Loop
    requires n <= |s|
  {
    if n == 0 then Loop(map[], [], map[], {}, map[], []) else OneRound(Rounds(s, n - 1), n - 1, s[n - 1])
  }

  /** `e` is the position of the kept proposal for target t. */
  ghost predicate Holds(s: seq<ProposedAction>, n: nat, t: string, e: nat)
    requires n <= |s|
  {
    e < n && s[e].target == t && Kept(s, n, e)
  }

  ghost predicate SeenOk(s: seq<ProposedAction>, n: nat, l: Loop)
    requires n <= |s|
  {
    && l.seen.Keys == l.at.Keys
    && (forall t :: t in l.at ==> Holds(s, n, t, l.at[t]) && l.seen[t] == s[l.at[t]])
    && (forall k :: 0 <= k < n ==> Seen(s, l, k))
  }

  predicate Seen(s: seq<ProposedAction>, l: Loop, k: nat)
    requires k < |s|
  {
    s[k].target in l.at
  }

  lemma UnseenIsBest(s: seq<ProposedAction>, n: nat, l: Loop)
    requires n < |s| && SeenOk(s, n, l) && s[n].target !in l.at
    ensures forall k :: 0 <= k < n ==> !SameTarget(s, k, n)
    ensures BestSoFar(s, n)
  {
    forall k | 0 <= k < n
      ensures !SameTarget(s, k, n)
    {
      assert Seen(s, l, k);
    }
  }

  /** The holder of another target goes on holding it; so does a holder the newcomer does not beat. */
  lemma HolderStays(s: seq<ProposedAction>, n: nat, t: string, e: nat)
    requires n < |s| && Holds(s, n, t, e) && (s[n].target != t || s[n].confidence < s[e].confidence)
    ensures Holds(s, n + 1, t, e)
  {
    KeptStep(s, n, e);
  }

  lemma SeenStep(s: seq<ProposedAction>, n: nat, l: Loop)
    requires n < |s| && SeenOk(s, n, l)
    ensures SeenOk(s, n + 1, OneRound(l, n, s[n]))
  {
    var l', t0 := OneRound(l, n, s[n]), s[n].target;
    if t0 !in l.at {
      UnseenIsBest(s, n, l);
    } else if s[n].confidence >= s[l.at[t0]].confidence {
      HolderDecides(s, n, l.at[t0]);
    }
    forall t | t in l'.at
      ensures Holds(s, n + 1, t, l'.at[t]) && l'.seen[t] == s[l'.at[t]]
    {
      if l'.at[t] == n {
        assert t == t0 && Kept(s, n + 1, n);
      } else {
        HolderStays(s, n, t, l.at[t]);
      }
    }
    forall k | 0 <= k < n + 1
      ensures Seen(s, l', k)
    {
      assert k < n ==> Seen(s, l, k);
    }
  }

  lemma {:induction false} RoundsSeen(s: seq<ProposedAction>, n: nat)
    requires n <= |s|
    ensures SeenOk(s, n, Rounds(s, n))
  {
    if n > 0 {
      RoundsSeen(s, n - 1);
      SeenStep(s, n - 1, Rounds(s, n - 1));
    }
  }

  lemma ResolvedStep(s: seq<ProposedAction>, n: nat, l: Loop)
    requires n < |s| && SeenOk(s, n, l) && l.resolved == Survivors(s, n)
    ensures OneRound(l, n, s[n]).resolved == Survivors(s, n + 1)
  {
    var t := s[n].target;
    if t !in l.at {
      UnseenIsBest(s, n, l);
      WinStep(s, n);
      forall k | 0 <= k < n
        ensures s[k].target != t
      {
        assert !SameTarget(s, k, n);
      }
      FilterWithout(s, KeptBy(s, n), KeptBy(s, n), t, n);
    } else if s[n].confidence >= s[l.at[t]].confidence {
      HolderDecides(s, n, l.at[t]);
      WinStep(s, n);
    } else {
      LoseStep(s, n, l.at[t]);
    }
  }

  lemma {:induction false} RoundsResolve(s: seq<ProposedAction>, n: nat)
    requires n <= |s|
    ensures Rounds(s, n).resolved == Survivors(s, n)
  {
    if n > 0 {
      RoundsResolve(s, n - 1);
      RoundsSeen(s, n - 1);
      ResolvedStep(s, n - 1, Rounds(s, n - 1));
    }
  }

  // ---- Flags ----

  /** Among the first n: best so far, with a rival. */
  ghost predicate Flags(s: seq<ProposedAction>, n: nat, k: nat)
    requires k < |s| && n <= |s|
  {
    k < n && BestSoFar(s, k) && HasRival(s, n, k)
  }

  lemma RivalStep(s: seq<ProposedAction>, n: nat, k: nat)
    requires k < n < |s|
    ensures HasRival(s, n + 1, k) <==> HasRival(s, n, k) || SameTarget(s, n, k)
  {
    if HasRival(s, n, k) {
      var j :| 0 <= j < n && j != k && SameTarget(s, j, k);
      assert HasRival(s, n + 1, k);
    }
  }

  lemma FlagsStep(s: seq<ProposedAction>, n: nat, l: Loop, k: nat)
    requires n < |s| && k < |s| && SeenOk(s, n, l)
    requires k in l.flagged <==> Flags(s, n, k)
    ensures k in OneRound(l, n, s[n]).flagged <==> Flags(s, n + 1, k)
  {
    var t := s[n].target;
    if t !in l.at {
      UnseenIsBest(s, n, l);
      if k < n {
        RivalStep(s, n, k);
        assert SameTarget(s, n, k) <==> SameTarget(s, k, n);
      }
    } else {
      var e := l.at[t];
      assert Holds(s, n, t, e) && SameTarget(s, e, n) && SameTarget(s, n, e);
      if s[n].confidence >= s[e].confidence {
        HolderDecides(s, n, e);
      } else {
        LoseStep(s, n, e);
      }
      if k < n {
        RivalStep(s, n, k);
        if SameTarget(s, n, k) && k != e {
          assert SameTarget(s, e, k);
        }
      } else if k == n {
        assert HasRival(s, n + 1, n);
      }
    }
  }

  lemma FlagsRound(s: seq<ProposedAction>, n: nat, k: nat)
    requires n < |s| && k < |s|
    requires k in Rounds(s, n).flagged <==> Flags(s, n, k)
    ensures k in OneRound(Rounds(s, n), n, s[n]).flagged <==> Flags(s, n + 1, k)
  {
    RoundsSeen(s, n);
    FlagsStep(s, n, Rounds(s, n), k);
  }

  /** The loop flags exactly the proposals that were best so far and have a rival. */
  lemma {:induction false} FlagsExact(s: seq<ProposedAction>, n: nat, k: nat)
    requires n <= |s| && k < |s|
    ensures k in Rounds(s, n).flagged <==> Flags(s, n, k)
  {
    if n > 0 {
      FlagsExact(s, n - 1, k);
      FlagsRound(s, n - 1, k);
    }
  }

  // ---- Notes and the log ----

  /** When proposal j arrives, proposal e holds its target. */
  ghost predicate FindsHolding(s: seq<ProposedAction>, j: nat, e: nat)
    requires j < |s|
  {
    e < j && SameTarget(s, e, j) && Kept(s, j, e)
  }

  ghost function HolderFor(s: seq<ProposedAction>, j: nat): (e: Option<nat>)
    requires j < |s|
    ensures e.Some? ==> FindsHolding(s, j, e.value)
    ensures e == None ==> forall i: nat :: !FindsHolding(s, j, i)
  {
    if i: nat :| FindsHolding(s, j, i) then Some(i) else None
  }

  /** The last of the first n proposals that found proposal k holding its target. */
  ghost function LastFinder(s: seq<ProposedAction>, n: nat, k: nat): Option<nat>
    requires n <= |s|
  {
    if n == 0 then None else if FindsHolding(s, n - 1, k) then Some(n - 1) else LastFinder(s, n - 1, k)
  }

  /**
    The note of proposal k after n proposals: it names the last rival that came
    while k held the target, or else the holder that k itself beat.
  */
  ghost function NoteOf(s: seq<ProposedAction>, n: nat, k: nat): Option<string>
    requires n <= |s| && k < |s|
  {
    var j, e := LastFinder(s, n, k), HolderFor(s, k);
    if j.Some? && j.value < |s| then Some("Also proposed by " + s[j.value].agent)
    else if k < n && BestSoFar(s, k) && e.Some? then Some("Conflicts with " + s[e.value].agent)
    else None
  }

  ghost function ConflictLog(s: seq<ProposedAction>, n: nat): seq<Conflict>
    requires n <= |s|
  {
    if n == 0 then []
    else
      var e := HolderFor(s, n - 1);
      ConflictLog(s, n - 1) + if e.Some? then [Conflict(s[e.value], s[n - 1])] else []
  }

  /** The loop's dictionary knows the holder. */
  lemma HolderKnown(s: seq<ProposedAction>, n: nat)
    requires n < |s|
    ensures var l, t := Rounds(s, n), s[n].target;
            && HolderFor(s, n) == (if t in l.at then Some(l.at[t]) else None)
            && (t in l.at <==> t in l.seen)
            && (t in l.at ==> l.seen[t] == s[l.at[t]])
            && (t in l.at <==> exists k :: 0 <= k < n && SameTarget(s, k, n))
  {
    var l, t := Rounds(s, n), s[n].target;
    RoundsSeen(s, n);
    if t in l.at {
      assert FindsHolding(s, n, l.at[t]);
      KeptUnique(s, n, HolderFor(s, n).value, l.at[t]);
    } else {
      UnseenIsBest(s, n, l);
    }
  }

  /** Exactly the proposals whose target was proposed before are logged, in order, each against the holder it found. */
  lemma {:induction false} LogExact(s: seq<ProposedAction>, n: nat)
    requires n <= |s|
    ensures Rounds(s, n).log == ConflictLog(s, n)
    ensures forall j :: 0 <= j < n ==> (HolderFor(s, j).Some? <==> exists k :: 0 <= k < j && SameTarget(s, k, j))
  {
    if n > 0 {
      LogExact(s, n - 1);
      HolderKnown(s, n - 1);
    }
  }

  predicate NoteMatches(notes: map<ProposedAction, string>, a: ProposedAction, note: Option<string>) {
    if a in notes then note == Some(notes[a]) else note == None
  }

  lemma {:induction false} NoFinderYet(s: seq<ProposedAction>, n: nat, k: nat)
    requires n <= k + 1 && n <= |s|
    ensures LastFinder(s, n, k) == None
  {
    if n > 0 {
      NoFinderYet(s, n - 1, k);
    }
  }

  /** What a round writes into notes, and whether the newcomer wins. */
  lemma RoundNotes(s: seq<ProposedAction>, n: nat)
    requires n < |s|
    ensures var notes, notes', e := Rounds(s, n).notes, Rounds(s, n + 1).notes, HolderFor(s, n);
            match e
            case None => notes' == notes
            case Some(e) =>
              var noted := notes[s[e] := AlsoProposedBy(s[n].agent)];
              notes' == if BestSoFar(s, n) then noted[s[n] := ConflictsWith(s[e].agent)] else noted
  {
    var e := HolderFor(s, n);
    HolderKnown(s, n);
    if e.Some? {
      if s[n].confidence >= s[e.value].confidence {
        HolderDecides(s, n, e.value);
      } else {
        RoundsSeen(s, n);
        LoseStep(s, n, e.value);
      }
    }
  }

  lemma NoteRound(s: seq<ProposedAction>, n: nat, k: nat)
    requires Distinct(s) && n < |s| && k < |s| && NoteMatches(Rounds(s, n).notes, s[k], NoteOf(s, n, k))
    ensures NoteMatches(Rounds(s, n + 1).notes, s[k], NoteOf(s, n + 1, k))
  {
    var e := HolderFor(s, n);
    RoundNotes(s, n);
    NoteOfStep(s, n, k);
    if k != n {
      assert s[k] != s[n];
    }
    if e.Some? && k != e.value {
      assert s[k] != s[e.value];
    }
  }

  lemma NoteOfStep(s: seq<ProposedAction>, n: nat, k: nat)
    requires n < |s| && k < |s|
    ensures NoteOf(s, n + 1, k) ==
            if HolderFor(s, n) == Some(k) then Some(AlsoProposedBy(s[n].agent))
            else if k == n then
              if BestSoFar(s, n) && HolderFor(s, n).Some? then Some(ConflictsWith(s[HolderFor(s, n).value].agent))
              else None
            else NoteOf(s, n, k)
    ensures NoteOf(s, n, n) == None
  {
    NoFinderYet(s, n, n);
    if FindsHolding(s, n, k) {
      KeptUnique(s, n, k, HolderFor(s, n).value);
    }
    if k == n {
      NoFinderYet(s, n + 1, n);
    }
  }

  /** The notes, for distinct objects: each names a rival, as NoteOf says. */
  lemma {:induction false} NotesExact(s: seq<ProposedAction>, n: nat, k: nat)
    requires Distinct(s) && n <= |s| && k < |s|
    ensures NoteMatches(Rounds(s, n).notes, s[k], NoteOf(s, n, k))
  {
    if n > 0 {
      NotesExact(s, n - 1, k);
      NoteRound(s, n - 1, k);
    } else {
      NoFinderYet(s, 0, k);
    }
  }

  // ---- The method ----

  /** The flags are the old ones and those of `flagged`. */
  twostate predicate FlagsAre(s: seq<ProposedAction>, flagged: set<nat>)
    reads s
  {
    forall k :: 0 <= k < |s| ==> s[k].conflictFlag == (old(s[k].conflictFlag) || k in flagged)
  }

  /** The same, told by object, as a list may name one object twice. */
  twostate predicate MarksAre(s: seq<ProposedAction>, new marked: set<ProposedAction>)
    reads s
  {
    forall a {:trigger a.conflictFlag} :: a in s ==> a.conflictFlag == (old(a.conflictFlag) || a in marked)
  }

  function NoteLeft(a: ProposedAction, notes: map<ProposedAction, string>, before: string): string {
    if a in notes then notes[a] else before
  }

  /** A proposal has the note that was written last, if any was. */
  twostate predicate NotesAre(s: seq<ProposedAction>, new notes: map<ProposedAction, string>)
    reads s
  {
    forall a {:trigger a.conflictNote} :: a in s ==> NoteLeft(a, notes, old(a.conflictNote)) == a.conflictNote
  }

  ghost function AtPositions(s: seq<ProposedAction>, ks: set<nat>): set<ProposedAction> {
    set k | k in ks && k < |s| :: s[k]
  }

  /** Whom a round marks: the present holder of the target, and the newcomer if it wins. */
  lemma RoundMarks(s: seq<ProposedAction>, n: nat)
    requires n < |s|
    ensures var l, a := Rounds(s, n), s[n];
            AtPositions(s, OneRound(l, n, a).flagged) == AtPositions(s, l.flagged)
              + if a.target !in l.seen then {}
                else if a.confidence >= l.seen[a.target].confidence then {l.seen[a.target], a}
                else {l.seen[a.target]}
    ensures s[n].target in Rounds(s, n).seen ==> Rounds(s, n).seen[s[n].target] in s
  {
    RoundsSeen(s, n);
  }

  lemma PositionsTold(s: seq<ProposedAction>, ks: set<nat>)
    ensures Distinct(s) ==> forall k :: 0 <= k < |s| ==> (s[k] in AtPositions(s, ks) <==> k in ks)
  {
  }

  /**
    `_resolve_conflicts`: returns the kept proposals in order, adds the flags and
    notes that FlagsExact and NotesExact describe, and logs what LogExact describes.
  */
  method ResolveConflicts(actions: seq<ProposedAction>)
    returns (resolved: seq<ProposedAction>, log: seq<Conflict>)
    modifies set a | a in actions
    ensures resolved == Resolution(actions)
    ensures MarksAre(actions, AtPositions(actions, Rounds(actions, |actions|).flagged))
    ensures NotesAre(actions, Rounds(actions, |actions|).notes)
    ensures Distinct(actions) ==> FlagsAre(actions, Rounds(actions, |actions|).flagged)
    ensures log == Rounds(actions, |actions|).log
  {
    var seen: map<string, ProposedAction> := map[];
    resolved, log := [], [];
    ghost var l, marked, notes := Rounds(actions, 0), {}, map[];
    var i := 0;
    while i < |actions|
      invariant 0 <= i <= |actions|
      invariant l == Rounds(actions, i)
      invariant seen == l.seen && resolved == l.resolved && log == l.log
      invariant marked == AtPositions(actions, l.flagged)
      invariant MarksAre(actions, marked)
      invariant NotesAre(actions, notes) && notes == l.notes
    {
      var action := actions[i];
      RoundMarks(actions, i);
      if action.target in seen {
        var existing := seen[action.target];
        log := log + [Conflict(existing, action)];
        if action.confidence >= existing.confidence {
          existing.Flag(AlsoProposedBy(action.agent));
          action.Flag(ConflictsWith(existing.agent));
          marked := marked + {existing, action};
          notes := notes[existing := AlsoProposedBy(action.agent)][action := action.conflictNote];
          seen := seen[action.target := action];
          resolved := WithoutTarget(resolved, action.target);
          resolved := resolved + [action];
        } else {
          existing.Flag(AlsoProposedBy(action.agent));
          marked := marked + {existing};
          notes := notes[existing := existing.conflictNote];
        }
      } else {
        seen := seen[action.target := action];
        resolved := resolved + [action];
      }
      l := OneRound(l, i, action);
      i := i + 1;
    }
    PositionsTold(actions, l.flagged);
    RoundsResolve(actions, i);
  }

  // ---- What the resolution is like ----

  predicate TargetsDistinct(r: seq<ProposedAction>) {
    forall i, j :: 0 <= i < j < |r| ==> r[i].target != r[j].target
  }

  /** Every proposed target keeps exactly one proposal. */
  lemma OnePerTarget(s: seq<ProposedAction>, k: nat)
    requires k < |s|
    ensures TargetsDistinct(Resolution(s))
    ensures exists i :: 0 <= i < |Resolution(s)| && Resolution(s)[i].target == s[k].target
  {
    FilterDistinct(s, |s|, |s|);
    var e := HolderOf(s, k);
    var i := FilterHas(s, KeptBy(s, |s|), |s|, e);
  }

  lemma HolderOf(s: seq<ProposedAction>, k: nat) returns (e: nat)
    requires k < |s|
    ensures Holds(s, |s|, s[k].target, e)
  {
    RoundsSeen(s, |s|);
    assert Seen(s, Rounds(s, |s|), k);
    e := Rounds(s, |s|).at[s[k].target];
  }

  lemma {:induction false} FilterDistinct(s: seq<ProposedAction>, n: nat, m: nat)
    requires m <= n <= |s|
    ensures TargetsDistinct(Filter(s, KeptBy(s, n), m))
  {
    if m > 0 {
      var p := KeptBy(s, n);
      var front := Filter(s, p, m - 1);
      FilterDistinct(s, n, m - 1);
      if p(m - 1) {
        forall i | 0 <= i < |front|
          ensures front[i].target != s[m - 1].target
        {
          var k := FilterMembers(s, p, m - 1, i);
          if SameTarget(s, k, m - 1) {
            KeptUnique(s, n, k, m - 1);
          }
        }
        DistinctSnoc(front, s[m - 1]);
      }
    }
  }

  lemma DistinctSnoc(r: seq<ProposedAction>, x: ProposedAction)
    requires TargetsDistinct(r) && forall i :: 0 <= i < |r| ==> r[i].target != x.target
    ensures TargetsDistinct(r + [x])
  {
  }

  lemma {:induction false} FilterAll(s: seq<ProposedAction>, p: nat -> bool, m: nat)
    requires m <= |s| && forall k :: 0 <= k < m ==> p(k)
    ensures Filter(s, p, m) == s[..m]
  {
    if m > 0 {
      FilterAll(s, p, m - 1);
      assert s[..m] == s[..m - 1] + [s[m - 1]];
    }
  }

  /** Resolving a resolution changes nothing. */
  lemma ResolutionIdempotent(s: seq<ProposedAction>)
    ensures Resolution(Resolution(s)) == Resolution(s)
  {
    var r := Resolution(s);
    FilterDistinct(s, |s|, |s|);
    forall k | 0 <= k < |r|
      ensures KeptBy(r, |r|)(k)
    {
      assert Kept(r, |r|, k);
    }
    FilterAll(r, KeptBy(r, |r|), |r|);
    assert r[..|r|] == r;
  }

  /** A kept proposal is flagged exactly when its target had several proposals. */
  lemma KeptFlagged(s: seq<ProposedAction>, k: nat)
    requires k < |s| && Kept(s, |s|, k)
    ensures k in Rounds(s, |s|).flagged <==> HasRival(s, |s|, k)
  {
    FlagsExact(s, |s|, k);
  }

  /**
    The docstring promises that both sides of a conflict are flagged. The code
    flags every proposal that has a rival exactly when none of them is less
    confident than an earlier rival: such a late loser stays unflagged.
  */
  lemma AllRivalsFlaggedExactly(s: seq<ProposedAction>)
    ensures (forall k :: 0 <= k < |s| && HasRival(s, |s|, k) ==> Flags(s, |s|, k))
            <==> forall i, j :: 0 <= i < j < |s| && SameTarget(s, i, j) ==> s[j].confidence >= s[i].confidence
  {
    var n := |s|;
    if forall k :: 0 <= k < n && HasRival(s, n, k) ==> Flags(s, n, k) {
      forall i, j | 0 <= i < j < n && SameTarget(s, i, j)
        ensures s[j].confidence >= s[i].confidence
      {
        assert HasRival(s, n, j);
        assert Flags(s, n, j);
      }
    }
    if forall i, j :: 0 <= i < j < n && SameTarget(s, i, j) ==> s[j].confidence >= s[i].confidence {
      forall k | 0 <= k < n && HasRival(s, n, k)
        ensures Flags(s, n, k)
      {
        assert BestSoFar(s, k);
      }
    }
  }
}
