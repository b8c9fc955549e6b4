/** The escalation supervisor: stall, retry and oscillation detection over an ordered ladder. */
module Supervisor {
  import opened Arith
  import opened Wrappers

  type Hash = nat

  datatype Outcome = Progressed | NoChange | Failed | PerceptionBlind | Done

  datatype TierKind = Model | Sense | Human

  datatype Tier = Tier(name: string, kind: TierKind)

  datatype Directive =
    | Continue
    | ResetFromBoard
    | Escalate(tier: Tier)
    | Finished
    | Abort(reason: string)
  {
    // the loop must leave its current tier
    predicate LeavesTier() {
      Escalate? || Abort?
    }
  }

  // What the governor hands over once; never changed afterwards.
  datatype Limits = Limits(ladder: seq<Tier>, maxRetries: nat, maxStall: nat, threshold: nat, window: nat)

  datatype State = State(
    tierIdx: nat, retries: nat, stalls: nat, recent: seq<Hash>, lastHash: Option<Hash>)

  datatype Observation = Observation(outcome: Outcome, hash: Hash)

  const FRESH := State(0, 0, 0, [], None)

  function Max1(n: nat): nat { if n == 0 then 1 else n }

  function Occurrences(xs: seq<Hash>, h: Hash): nat {
    if xs == [] then 0 else (if xs[0] == h then 1 else 0) + Occurrences(xs[1..], h)
  }

  // ---------- specification of one observation ----------

  function LadderAt(lim: Limits, i: nat): Directive {
    if i < |lim.ladder| then Escalate(lim.ladder[i]) else Abort("escalation ladder exhausted")
  }

  function Escalated(s: State): State {
    s.(tierIdx := s.tierIdx + 1, retries := 0, stalls := 0, recent := [])
  }

  function Recorded(lim: Limits, recent: seq<Hash>, h: Hash): seq<Hash> {
    (if |recent| == lim.window && recent != [] then recent[1..] else recent) + [h]
  }

  // The state the outcome is judged in, and whether the hash closes a loop.
  function Noted(lim: Limits, s: State, h: Hash): (State, bool) {
    if s.lastHash == Some(h) then (s, false)
    else
      (s.(lastHash := Some(h), recent := Recorded(lim, s.recent, h)),
       Occurrences(s.recent, h) >= lim.threshold)
  }

  function Judged(lim: Limits, s: State, o: Outcome): State
    requires o != Done && o != PerceptionBlind
  {
    match o
    case Progressed => s.(retries := 0, stalls := 0)
    case NoChange => if s.stalls + 1 >= lim.maxStall then Escalated(s) else s.(stalls := s.stalls + 1)
    case Failed => if s.retries + 1 >= lim.maxRetries then Escalated(s) else s.(retries := s.retries + 1)
  }

  function Next(lim: Limits, s: State, ob: Observation): State {
    if ob.outcome == Done then s
    else if ob.outcome == PerceptionBlind then Escalated(s)
    else
      var (noted, loops) := Noted(lim, s, ob.hash);
      if loops then Escalated(noted) else Judged(lim, noted, ob.outcome)
  }

  function Answer(lim: Limits, s: State, ob: Observation): Directive {
    if ob.outcome == Done then Finished
    else if Next(lim, s, ob).tierIdx > s.tierIdx then LadderAt(lim, s.tierIdx + 1)
    else if ob.outcome == Progressed then Continue
    else ResetFromBoard
  }

  // ---------- the object ----------

  class Supervisor {
    const lim: Limits
    var tierIdx: nat
    var retries: nat
    var stalls: nat
    var recent: seq<Hash>
    var lastHash: Option<Hash>

    ghost function Now(): State
      reads this
    {
      State(tierIdx, retries, stalls, recent, lastHash)
    }

    constructor (lim: Limits)
      ensures this.lim == lim && Now() == FRESH
    {
      this.lim := lim;
      tierIdx, retries, stalls := 0, 0, 0;
      recent, lastHash := [], None;
    }

    method Observe(outcome: Outcome, hash: Hash) returns (d: Directive)
      modifies this
      ensures Now() == Next(lim, old(Now()), Observation(outcome, hash))
      ensures d == Answer(lim, old(Now()), Observation(outcome, hash))
    {
      if outcome == Done {
        return Finished;
      }
      if outcome == PerceptionBlind {
        d := EscalateTier();
        return;
      }
      var isTransition := Some(hash) != lastHash;
      lastHash := Some(hash);
      if isTransition {
        var revisits := Occurrences(recent, hash);
        Record(hash);
        if revisits >= lim.threshold {
          d := EscalateTier();
          return;
        }
      }
      match outcome {
        case Progressed =>
          retries, stalls := 0, 0;
          d := Continue;
        case NoChange =>
          stalls := stalls + 1;
          if stalls >= lim.maxStall {
            d := EscalateTier();
          } else {
            d := ResetFromBoard;
          }
        case Failed =>
          retries := retries + 1;
          if retries >= lim.maxRetries {
            d := EscalateTier();
          } else {
            d := ResetFromBoard;
          }
      }
    }

    method Record(h: Hash)
      modifies this`recent
      ensures recent == Recorded(lim, old(recent), h)
    {
      if |recent| == lim.window {
        if recent != [] {
          recent := recent[1..];
        }
      }
      recent := recent + [h];
    }

    method EscalateTier() returns (d: Directive)
      modifies this
      ensures Now() == Escalated(old(Now()))
      ensures d == LadderAt(lim, old(tierIdx) + 1)
    {
      retries, stalls := 0, 0;
      recent := [];
      tierIdx := tierIdx + 1;
      d := if tierIdx < |lim.ladder| then Escalate(lim.ladder[tierIdx])
      else Abort("escalation ladder exhausted");
    }
  }

  // ---------- whole runs ----------

  function After(lim: Limits, s: State, obs: seq<Observation>): State {
    if obs == [] then s
    else Next(lim, After(lim, s, obs[..|obs| - 1]), obs[|obs| - 1])
  }

  // The directive given for observation i of the run.
  function DirectiveAt(lim: Limits, s: State, obs: seq<Observation>, i: nat): Directive
    requires i < |obs|
  {
    Answer(lim, After(lim, s, obs[..i]), obs[i])
  }

  // The directives of a run that move the loop off its tier, in order.
  function Moves(lim: Limits, s: State, obs: seq<Observation>): seq<Directive> {
    if obs == [] then []
    else
      var d := DirectiveAt(lim, s, obs, |obs| - 1);
      Moves(lim, s, obs[..|obs| - 1]) + (if d.LeavesTier() then [d] else [])
  }

  lemma {:induction false} PrefixStep(lim: Limits, s: State, obs: seq<Observation>, i: nat)
    requires i < |obs|
    ensures After(lim, s, obs[..i + 1]) == Next(lim, After(lim, s, obs[..i]), obs[i])
  {
    assert obs[..i + 1][..i] == obs[..i];
  }

  // Adjacent remembered hashes differ, the newest is the last hash seen, and neither counter has
  // reached its limit, so the 32-bit counters cannot overflow.
  ghost predicate Inv(lim: Limits, s: State) {
    && s.stalls < Max1(lim.maxStall)
    && s.retries < Max1(lim.maxRetries)
    && (lim.window >= 1 ==> |s.recent| <= lim.window)
    && (forall i | 0 < i < |s.recent| :: s.recent[i - 1] != s.recent[i])
    && (s.recent != [] ==> s.lastHash == Some(s.recent[|s.recent| - 1]))
  }

  lemma {:induction false} RecordedKeepsInv(lim: Limits, s: State, h: Hash)
    requires Inv(lim, s) && s.lastHash != Some(h)
    ensures Inv(lim, s.(lastHash := Some(h), recent := Recorded(lim, s.recent, h)))
  {
  }

  lemma {:induction false} StepKeepsInv(lim: Limits, s: State, ob: Observation)
    requires Inv(lim, s)
    ensures Inv(lim, Next(lim, s, ob))
  {
    if s.lastHash != Some(ob.hash) {
      RecordedKeepsInv(lim, s, ob.hash);
    }
  }

  lemma {:induction false} InvHoldsThroughoutEveryRun(lim: Limits, s: State, obs: seq<Observation>)
    requires Inv(lim, s)
    ensures Inv(lim, After(lim, s, obs))
  {
    if obs == [] {
    } else {
      InvHoldsThroughoutEveryRun(lim, s, obs[..|obs| - 1]);
      StepKeepsInv(lim, After(lim, s, obs[..|obs| - 1]), obs[|obs| - 1]);
    }
  }

  lemma {:induction false} StepMoves(lim: Limits, s: State, ob: Observation)
    ensures var d := Answer(lim, s, ob);
            && Next(lim, s, ob).tierIdx == s.tierIdx + (if d.LeavesTier() then 1 else 0)
            && (d.LeavesTier() ==> d == LadderAt(lim, s.tierIdx + 1))
  {
  }

  /** The ladder is walked rung by rung: whatever is observed, the directives that leave a tier are
      exactly the next rungs in order, and Abort for every move past the end. */
  lemma {:induction false} TiersHandedOutInOrder(lim: Limits, s: State, obs: seq<Observation>)
    ensures After(lim, s, obs).tierIdx == s.tierIdx + |Moves(lim, s, obs)|
    ensures forall j | 0 <= j < |Moves(lim, s, obs)| ::
              Moves(lim, s, obs)[j] == LadderAt(lim, s.tierIdx + 1 + j)
  {
    if obs == [] {
    } else {
      TiersHandedOutInOrder(lim, s, obs[..|obs| - 1]);
      StepMoves(lim, After(lim, s, obs[..|obs| - 1]), obs[|obs| - 1]);
    }
  }

  // ---------- what decides a directive ----------

  // The directives of a run, one for each observation.
  function Directives(lim: Limits, obs: seq<Observation>): (ds: seq<Directive>)
    ensures |ds| == |obs|
  {
    seq(|obs|, i requires 0 <= i < |obs| => DirectiveAt(lim, FRESH, obs, i))
  }

  // How many of this outcome came since the last progress or tier change.
  function Tally(obs: seq<Observation>, ds: seq<Directive>, o: Outcome): nat
    requires |obs| == |ds|
  {
    if obs == [] then 0
    else
      var n := |obs| - 1;
      if ds[n].LeavesTier() || obs[n].outcome == Progressed then 0
      else Tally(obs[..n], ds[..n], o) + (if obs[n].outcome == o then 1 else 0)
  }

  function Left(ds: seq<Directive>): nat {
    if ds == [] then 0 else Left(ds[..|ds| - 1]) + (if ds[|ds| - 1].LeavesTier() then 1 else 0)
  }

  // The hash is looked at.
  predicate Seen(ob: Observation) {
    ob.outcome != Done && ob.outcome != PerceptionBlind
  }

  function LastSeen(obs: seq<Observation>): Option<Hash> {
    if obs == [] then None
    else if Seen(obs[|obs| - 1]) then Some(obs[|obs| - 1].hash)
    else LastSeen(obs[..|obs| - 1])
  }

  // The hashes that differ from the one seen before them, since the last tier change.
  function Turns(obs: seq<Observation>, ds: seq<Directive>): seq<Hash>
    requires |obs| == |ds|
  {
    if obs == [] then []
    else
      var n := |obs| - 1;
      if ds[n].LeavesTier() then []
      else if Seen(obs[n]) && LastSeen(obs[..n]) != Some(obs[n].hash) then Turns(obs[..n], ds[..n]) + [obs[n].hash]
      else Turns(obs[..n], ds[..n])
  }

  // The last of them, as many as the window takes; a window of none takes all.
  function InWindow(hs: seq<Hash>, window: nat): seq<Hash> {
    if window == 0 || |hs| <= window then hs else hs[|hs| - window..]
  }

  // The screen changed to one that stands in the window often enough.
  predicate ClosesLoop(lim: Limits, obs: seq<Observation>, ds: seq<Directive>, ob: Observation)
    requires |obs| == |ds|
  {
    && Seen(ob) && LastSeen(obs) != Some(ob.hash)
    && multiset(InWindow(Turns(obs, ds), lim.window))[ob.hash] >= lim.threshold
  }

  // The observation ends its tier: no perception, a loop, or one stall or failure too many.
  predicate EndsTier(lim: Limits, obs: seq<Observation>, ds: seq<Directive>, ob: Observation)
    requires |obs| == |ds|
  {
    || ob.outcome == PerceptionBlind
    || ClosesLoop(lim, obs, ds, ob)
    || (ob.outcome == NoChange && Tally(obs, ds, NoChange) + 1 >= lim.maxStall)
    || (ob.outcome == Failed && Tally(obs, ds, Failed) + 1 >= lim.maxRetries)
  }

  // The state that a history amounts to.
  function StateOf(lim: Limits, obs: seq<Observation>, ds: seq<Directive>): State
    requires |obs| == |ds|
  {
    State(Left(ds), Tally(obs, ds, Failed), Tally(obs, ds, NoChange), InWindow(Turns(obs, ds), lim.window),
          LastSeen(obs))
  }

  lemma {:induction false} OccurrencesCount(xs: seq<Hash>, h: Hash)
    ensures Occurrences(xs, h) == multiset(xs)[h]
  {
    if xs == [] {
    } else {
      OccurrencesCount(xs[1..], h);
      assert xs == [xs[0]] + xs[1..];
    }
  }

  lemma {:induction false} WindowMoves(lim: Limits, hs: seq<Hash>, h: Hash)
    ensures Recorded(lim, InWindow(hs, lim.window), h) == InWindow(hs + [h], lim.window)
  {
  }

  lemma {:induction false} DirectivesPrefix(lim: Limits, obs: seq<Observation>, n: nat)
    requires n <= |obs|
    ensures Directives(lim, obs[..n]) == Directives(lim, obs)[..n]
  {
    forall i | 0 <= i < n ensures obs[..n][..i] == obs[..i] {
    }
  }

  lemma {:induction false} EndsTierExactly(lim: Limits, obs: seq<Observation>, ds: seq<Directive>, ob: Observation)
    requires |obs| == |ds|
    ensures Answer(lim, StateOf(lim, obs, ds), ob).LeavesTier() <==> EndsTier(lim, obs, ds, ob)
  {
    OccurrencesCount(InWindow(Turns(obs, ds), lim.window), ob.hash);
  }

  lemma {:induction false} HistoryStep(lim: Limits, obs: seq<Observation>, ds: seq<Directive>, ob: Observation)
    requires |obs| == |ds|
    ensures var s := StateOf(lim, obs, ds);
            Next(lim, s, ob) == StateOf(lim, obs + [ob], ds + [Answer(lim, s, ob)])
  {
    var all, out := obs + [ob], ds + [Answer(lim, StateOf(lim, obs, ds), ob)];
    assert all[..|obs|] == obs && out[..|ds|] == ds;
    EndsTierExactly(lim, obs, ds, ob);
    WindowMoves(lim, Turns(obs, ds), ob.hash);
  }

  lemma {:induction false} HistoryGivesState(lim: Limits, obs: seq<Observation>)
    ensures After(lim, FRESH, obs) == StateOf(lim, obs, Directives(lim, obs))
  {
    if obs == [] {
    } else {
      var n := |obs| - 1;
      HistoryGivesState(lim, obs[..n]);
      HistoryStep(lim, obs[..n], Directives(lim, obs[..n]), obs[n]);
      DirectivesPrefix(lim, obs, n);
      assert obs[..n] + [obs[n]] == obs;
      assert Directives(lim, obs) == Directives(lim, obs)[..n] + [DirectiveAt(lim, FRESH, obs, n)];
    }
  }

  /** Over every run each directive follows from the observations and directives before it. The tier is left
      exactly when perception is blind, the hash closes a loop, or the stalls or the failures since the last
      progress or tier change reach their limit, this one included; it is left for the next rung, and past the
      last one for good. Otherwise progress goes on, a task that is done is finished, and a stall or a failure
      starts over from the board. */
  lemma {:induction false} DirectivesExactly(lim: Limits, obs: seq<Observation>, i: nat)
    requires i < |obs|
    ensures var (before, ds, o) := (obs[..i], Directives(lim, obs)[..i], obs[i].outcome);
            Directives(lim, obs)[i]
            == if o == Done then Finished
               else if EndsTier(lim, before, ds, obs[i]) then
                 var k := Left(ds) + 1;
                 if k < |lim.ladder| then Escalate(lim.ladder[k]) else Abort("escalation ladder exhausted")
               else if o == Progressed then Continue
               else ResetFromBoard
  {
    HistoryGivesState(lim, obs[..i]);
    DirectivesPrefix(lim, obs, i);
    EndsTierExactly(lim, obs[..i], Directives(lim, obs[..i]), obs[i]);
  }

  // ---------- the window bound ----------

  function Counting(n: nat): seq<Observation> {
    seq(n, i requires 0 <= i => Observation(Progressed, i))
  }

  lemma {:induction false} NotOccurring(xs: seq<Hash>, h: Hash)
    requires h !in xs
    ensures Occurrences(xs, h) == 0
  {
    if xs == [] {
    } else {
      NotOccurring(xs[1..], h);
    }
  }

  lemma {:induction false} WindowZeroNeverForgets(lim: Limits, n: nat)
    requires lim.window == 0 && lim.threshold >= 1
    ensures After(lim, FRESH, Counting(n)).recent == seq(n, i requires 0 <= i => i)
    ensures n > 0 ==> After(lim, FRESH, Counting(n)).lastHash == Some(n - 1)
    ensures n == 0 ==> After(lim, FRESH, Counting(n)).lastHash == None
  {
    if n > 0 {
      WindowZeroNeverForgets(lim, n - 1);
      assert Counting(n)[..n - 1] == Counting(n - 1);
      NotOccurring(After(lim, FRESH, Counting(n - 1)).recent, n - 1);
    }
  }

  lemma {:induction false} ThresholdZeroEmptiesWindow(lim: Limits, obs: seq<Observation>)
    requires lim.threshold == 0
    ensures After(lim, FRESH, obs).recent == []
  {
    if obs == [] {
    } else {
      ThresholdZeroEmptiesWindow(lim, obs[..|obs| - 1]);
    }
  }

  /** A positive window bounds the remembered hashes in every run. A zero window does not: the trim
      compares lengths for equality and is never met again after the first push. */
  lemma {:induction false} WindowBoundExactly(lim: Limits)
    ensures (forall obs :: |After(lim, FRESH, obs).recent| <= lim.window)
            <==> (lim.window >= 1 || lim.threshold == 0)
  {
    if lim.window >= 1 {
      forall obs ensures |After(lim, FRESH, obs).recent| <= lim.window {
        InvHoldsThroughoutEveryRun(lim, FRESH, obs);
      }
    } else if lim.threshold == 0 {
      forall obs ensures |After(lim, FRESH, obs).recent| <= lim.window {
        ThresholdZeroEmptiesWindow(lim, obs);
      }
    } else {
      WindowZeroNeverForgets(lim, 1);
      assert |After(lim, FRESH, Counting(1)).recent| > lim.window;
    }
  }

  // ---------- runs without progress end ----------

  predicate Blocked(ob: Observation) {
    ob.outcome == NoChange || ob.outcome == Failed || ob.outcome == PerceptionBlind
  }

  // The most observations one rung can absorb.
  function PerTier(lim: Limits): nat {
    Max1(lim.maxStall) + Max1(lim.maxRetries) - 1
  }

  function Spent(lim: Limits, s: State): nat {
    s.tierIdx * PerTier(lim) + s.stalls + s.retries
  }

  lemma {:induction false} BlockedStepSpends(lim: Limits, s: State, ob: Observation)
    requires Inv(lim, s) && Blocked(ob)
    ensures Spent(lim, Next(lim, s, ob)) > Spent(lim, s)
  {
    var e := Next(lim, s, ob);
    if e.tierIdx == s.tierIdx + 1 {
      assert e.stalls == e.retries == 0;
      assert (s.tierIdx + 1) * PerTier(lim) == s.tierIdx * PerTier(lim) + PerTier(lim);
    }
  }

  lemma {:induction false} BlockedRunsSpend(lim: Limits, s: State, obs: seq<Observation>)
    requires Inv(lim, s)
    requires forall ob | ob in obs :: Blocked(ob)
    ensures Spent(lim, After(lim, s, obs)) >= Spent(lim, s) + |obs|
  {
    if obs == [] {
    } else {
      var front := obs[..|obs| - 1];
      BlockedRunsSpend(lim, s, front);
      InvHoldsThroughoutEveryRun(lim, s, front);
      BlockedStepSpends(lim, After(lim, s, front), obs[|obs| - 1]);
    }
  }

  lemma {:induction false} BoundsQuotient(t: nat, tiers: nat, per: nat, rest: nat)
    requires rest < per && t * per + rest >= tiers * per
    ensures t >= tiers
  {
    assert (t + 1) * per == t * per + per;
    if t < tiers {
      MulMono(t + 1, tiers, per);
    }
  }

  lemma {:induction false} SpentBoundsTier(lim: Limits, s: State, tiers: nat)
    requires Inv(lim, s) && Spent(lim, s) >= tiers * PerTier(lim)
    ensures s.tierIdx >= tiers
  {
    BoundsQuotient(s.tierIdx, tiers, PerTier(lim), s.stalls + s.retries);
  }

  lemma {:induction false} ClimbPassesAbort(lim: Limits, s: State, obs: seq<Observation>) returns (i: nat)
    requires s.tierIdx < |lim.ladder| <= After(lim, s, obs).tierIdx
    ensures i < |obs| && DirectiveAt(lim, s, obs, i).Abort?
  {
    var front := obs[..|obs| - 1];
    if After(lim, s, front).tierIdx >= |lim.ladder| {
      i := ClimbPassesAbort(lim, s, front);
      assert front[..i] == obs[..i];
    } else {
      i := |obs| - 1;
    }
  }

  /** A run without progress is given up within ladder length times (stall limit + retry limit - 1)
      observations, whatever the hashes. */
  lemma {:induction false} BlockedRunsAbort(lim: Limits, obs: seq<Observation>) returns (i: nat)
    requires |lim.ladder| >= 1
    requires forall ob | ob in obs :: Blocked(ob)
    requires |obs| >= |lim.ladder| * PerTier(lim)
    ensures i < |lim.ladder| * PerTier(lim) && i < |obs| && DirectiveAt(lim, FRESH, obs, i).Abort?
  {
    var n := |lim.ladder| * PerTier(lim);
    BlockedRunsSpend(lim, FRESH, obs[..n]);
    InvHoldsThroughoutEveryRun(lim, FRESH, obs[..n]);
    SpentBoundsTier(lim, After(lim, FRESH, obs[..n]), |lim.ladder|);
    i := ClimbPassesAbort(lim, FRESH, obs[..n]);
    assert obs[..n][..i] == obs[..i];
  }

  // Stalls up to one short of the limit, then failures, over an unchanging screen.
  function Slowest(lim: Limits, n: nat): seq<Observation> {
    seq(n, i requires 0 <= i =>
      Observation(if i % PerTier(lim) < Max1(lim.maxStall) - 1 then NoChange else Failed, 0))
  }

  lemma {:induction false} SlowestState(lim: Limits, n: nat)
    requires lim.threshold >= 1
    ensures var (e, r) := (After(lim, FRESH, Slowest(lim, n)), n % PerTier(lim));
            && e.tierIdx == n / PerTier(lim)
            && e.stalls == (if r < Max1(lim.maxStall) - 1 then r else Max1(lim.maxStall) - 1)
            && e.retries == r - e.stalls
            && (n > 0 ==> e.lastHash == Some(0))
            && (n == 0 ==> e == FRESH)
  {
    if n > 0 {
      SlowestState(lim, n - 1);
      assert Slowest(lim, n)[..n - 1] == Slowest(lim, n - 1);
      NextInBlock(n - 1, PerTier(lim));
    }
  }

  lemma {:induction false} LowTierNeverAborts(lim: Limits, s: State, obs: seq<Observation>, i: nat)
    requires i < |obs| && After(lim, s, obs[..i + 1]).tierIdx < |lim.ladder|
    ensures !DirectiveAt(lim, s, obs, i).Abort?
  {
    PrefixStep(lim, s, obs, i);
  }

  /** No smaller bound would do: some blocked run one observation shorter never aborts. */
  lemma {:induction false} BlockedBoundIsExact(lim: Limits, i: nat)
    requires |lim.ladder| >= 1 && lim.threshold >= 1
    requires i < |lim.ladder| * PerTier(lim) - 1
    ensures var run := Slowest(lim, |lim.ladder| * PerTier(lim) - 1);
            && (forall ob | ob in run :: Blocked(ob))
            && !DirectiveAt(lim, FRESH, run, i).Abort?
  {
    var run := Slowest(lim, |lim.ladder| * PerTier(lim) - 1);
    assert run[..i + 1] == Slowest(lim, i + 1);
    SlowestState(lim, i + 1);
    QuotientReaches(i + 1, PerTier(lim), |lim.ladder|);
    LowTierNeverAborts(lim, FRESH, run, i);
  }

  // ---------- cycles of states ----------

  ghost predicate Distinct(hs: seq<Hash>) {
    forall i, j | 0 <= i < j < |hs| :: hs[i] != hs[j]
  }

  // n observations of steady progress around the cycle hs.
  function Cycling(hs: seq<Hash>, n: nat): seq<Observation>
    requires hs != []
  {
    seq(n, i requires 0 <= i => Observation(Progressed, hs[i % |hs|]))
  }

  // The m states of the cycle up to, not including, position p.
  function Trail(hs: seq<Hash>, p: nat, m: nat): seq<Hash>
    requires hs != [] && m <= p
  {
    seq(m, j requires 0 <= j < m => hs[(p - m + j) % |hs|])
  }

  lemma {:induction false} TrailSplits(hs: seq<Hash>, p: nat, m: nat)
    requires hs != [] && Distinct(hs) && 0 < m <= p
    ensures Trail(hs, p, m) == [hs[(p - m) % |hs|]] + Trail(hs, p, m - 1)
    ensures hs[(p - m) % |hs|] == hs[p % |hs|] <==> m % |hs| == 0
  {
    SameResidue(p - m, m, |hs|);
  }

  lemma {:induction false} OccurrencesCons(x: Hash, xs: seq<Hash>, h: Hash)
    ensures Occurrences([x] + xs, h) == (if x == h then 1 else 0) + Occurrences(xs, h)
  {
    assert ([x] + xs)[1..] == xs;
  }

  function Multiples(m: nat, k: nat): nat
    requires k > 0
  {
    if m == 0 then 0 else Multiples(m - 1, k) + (if m % k == 0 then 1 else 0)
  }

  lemma {:induction false} MultiplesIsQuotient(m: nat, k: nat)
    requires k > 0
    ensures Multiples(m, k) == m / k
  {
    if m > 0 {
      MultiplesIsQuotient(m - 1, k);
      NextInBlock(m - 1, k);
    } else {
      DivModUnique(0, k, 0, 0);
    }
  }

  lemma {:induction false} TrailOccurrences(hs: seq<Hash>, p: nat, m: nat)
    requires hs != [] && Distinct(hs) && m <= p
    ensures Occurrences(Trail(hs, p, m), hs[p % |hs|]) == Multiples(m, |hs|)
  {
    if m == 0 {
    } else {
      TrailOccurrences(hs, p, m - 1);
      TrailSplits(hs, p, m);
      OccurrencesCons(hs[(p - m) % |hs|], Trail(hs, p, m - 1), hs[p % |hs|]);
    }
  }

  lemma {:induction false} TrailGrows(lim: Limits, hs: seq<Hash>, n: nat, since: nat)
    requires hs != [] && since <= n && lim.window >= 1
    ensures Recorded(lim, Trail(hs, n, Least(since, lim.window)), hs[n % |hs|])
            == Trail(hs, n + 1, Least(since + 1, lim.window))
  {
  }

  // n observations into the cycle, since of them after the last escalation
  ghost predicate OnCycle(lim: Limits, hs: seq<Hash>, n: nat, since: nat, s: State)
    requires |hs| >= 2
  {
    && since <= n
    && s.recent == Trail(hs, n, Least(since, lim.window))
    && s.lastHash == (if n == 0 then None else Some(hs[(n - 1) % |hs|]))
  }

  lemma {:induction false} CycleStep(lim: Limits, hs: seq<Hash>, n: nat, since: nat, s: State)
    requires |hs| >= 2 && Distinct(hs) && lim.window >= 1 && OnCycle(lim, hs, n, since, s)
    ensures var ob := Observation(Progressed, hs[n % |hs|]);
            var (e, loops) := (Next(lim, s, ob), Least(since, lim.window) >= lim.threshold * |hs|);
            && OnCycle(lim, hs, n + 1, if loops then 0 else since + 1, e)
            && e.tierIdx == s.tierIdx + (if loops then 1 else 0)
            && Answer(lim, s, ob) == (if loops then LadderAt(lim, s.tierIdx + 1) else Continue)
  {
    var h, seen := hs[n % |hs|], Least(since, lim.window);
    if n > 0 {
      SameResidue(n - 1, 1, |hs|);
      assert s.lastHash != Some(h);
    }
    TrailOccurrences(hs, n, seen);
    MultiplesIsQuotient(seen, |hs|);
    QuotientReaches(seen, |hs|, lim.threshold);
    TrailGrows(lim, hs, n, since);
  }

  // Observations since the last escalation, and escalations so far; a turn is threshold full rounds.
  function Since(lim: Limits, turn: nat, n: nat): nat {
    if turn <= lim.window then n % (turn + 1) else n
  }

  function Moved(lim: Limits, turn: nat, n: nat): nat {
    if turn <= lim.window then n / (turn + 1) else 0
  }

  lemma {:induction false} SinceNext(lim: Limits, turn: nat, n: nat)
    ensures Since(lim, turn, n) <= n
    ensures var loops := Least(Since(lim, turn, n), lim.window) >= turn;
            && (loops <==> turn <= lim.window && (n + 1) % (turn + 1) == 0)
            && Since(lim, turn, n + 1) == (if loops then 0 else Since(lim, turn, n) + 1)
            && Moved(lim, turn, n + 1) == Moved(lim, turn, n) + (if loops then 1 else 0)
  {
    NextInBlock(n, turn + 1);
    if n < turn + 1 {
      DivModUnique(n, turn + 1, 0, n);
    }
  }

  lemma {:induction false} CycleAfter(lim: Limits, hs: seq<Hash>, n: nat)
    requires |hs| >= 2
    ensures After(lim, FRESH, Cycling(hs, n + 1))
            == Next(lim, After(lim, FRESH, Cycling(hs, n)), Observation(Progressed, hs[n % |hs|]))
  {
    assert Cycling(hs, n + 1)[..n] == Cycling(hs, n);
  }

  lemma {:induction false} CycleTurns(lim: Limits, hs: seq<Hash>, turn: nat, n: nat, s: State)
    requires |hs| >= 2 && Distinct(hs) && lim.window >= 1 && turn == lim.threshold * |hs|
    requires OnCycle(lim, hs, n, Since(lim, turn, n), s) && s.tierIdx == Moved(lim, turn, n)
    ensures var e := Next(lim, s, Observation(Progressed, hs[n % |hs|]));
            OnCycle(lim, hs, n + 1, Since(lim, turn, n + 1), e) && e.tierIdx == Moved(lim, turn, n + 1)
  {
    SinceNext(lim, turn, n);
    CycleStep(lim, hs, n, Since(lim, turn, n), s);
  }

  lemma {:induction false} CycleStates(lim: Limits, hs: seq<Hash>, turn: nat, n: nat)
    requires |hs| >= 2 && Distinct(hs) && lim.window >= 1 && turn == lim.threshold * |hs|
    ensures var s := After(lim, FRESH, Cycling(hs, n));
            && OnCycle(lim, hs, n, Since(lim, turn, n), s)
            && s.tierIdx == Moved(lim, turn, n)
  {
    if n > 0 {
      var s := After(lim, FRESH, Cycling(hs, n - 1));
      CycleStates(lim, hs, turn, n - 1);
      CycleAfter(lim, hs, n - 1);
      CycleTurns(lim, hs, turn, n - 1, s);
    } else {
      DivModUnique(0, turn + 1, 0, 0);
    }
  }

  /** Exact cycle detection: fed steady progress around a cycle of k >= 2 distinct states, a fresh
      supervisor leaves its tier if and only if the window can hold threshold full rounds, and then at
      precisely every (k * threshold + 1)-th observation; every other answer is Continue. */
  lemma {:induction false} CycleDetectedExactly(lim: Limits, hs: seq<Hash>, n: nat, i: nat)
    requires |hs| >= 2 && Distinct(hs) && lim.window >= 1 && i < n
    ensures var d, turn := DirectiveAt(lim, FRESH, Cycling(hs, n), i), lim.threshold * |hs|;
            && (d.LeavesTier() <==> turn <= lim.window && (i + 1) % (turn + 1) == 0)
            && (d.LeavesTier() || d == Continue)
  {
    var turn := lim.threshold * |hs|;
    CycleStates(lim, hs, turn, i);
    assert Cycling(hs, n)[..i] == Cycling(hs, i);
    SinceNext(lim, turn, i);
    CycleStep(lim, hs, i, Since(lim, turn, i), After(lim, FRESH, Cycling(hs, i)));
  }

  /** The first escalation of a detectable cycle is at observation k * threshold + 1. */
  lemma {:induction false} FirstCycleEscalation(lim: Limits, hs: seq<Hash>, i: nat)
    requires |hs| >= 2 && Distinct(hs) && 1 <= lim.window && lim.threshold * |hs| <= lim.window
    requires i <= lim.threshold * |hs|
    ensures DirectiveAt(lim, FRESH, Cycling(hs, lim.threshold * |hs| + 1), i).LeavesTier()
            <==> i == lim.threshold * |hs|
  {
    var turn := lim.threshold * |hs|;
    CycleDetectedExactly(lim, hs, turn + 1, i);
    if i < turn {
      DivModUnique(i + 1, turn + 1, 0, i + 1);
    } else {
      DivModUnique(turn + 1, turn + 1, 1, 0);
    }
  }

  lemma {:induction false} ConstantStates(lim: Limits, h: Hash, n: nat)
    requires lim.threshold >= 1
    ensures var s := After(lim, FRESH, Cycling([h], n));
            s.tierIdx == 0 && (n > 0 ==> s.lastHash == Some(h)) && (n == 0 ==> s == FRESH)
  {
    if n == 0 {
    } else {
      ConstantStates(lim, h, n - 1);
      assert Cycling([h], n)[..n - 1] == Cycling([h], n - 1);
    }
  }

  /** An unchanging screen is never read as a loop, however long the command chain. */
  lemma {:induction false} ConstantHashNeverEscalates(lim: Limits, h: Hash, n: nat, i: nat)
    requires lim.threshold >= 1 && i < n
    ensures DirectiveAt(lim, FRESH, Cycling([h], n), i) == Continue
  {
    ConstantStates(lim, h, i);
    assert Cycling([h], n)[..i] == Cycling([h], i);
  }
}
