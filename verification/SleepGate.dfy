/** The sleep gate: consolidation cycles over the memory tiers, as locked steps between which the agent
    may push and reinforce memories. A run starts with what the table holds when it is opened; a write that
    fails as a whole is no event, and the failures that leave a step half done are part of its event. */
module SleepGate {
  import opened MemoryTiers
  import opened Text
  import opened Wrappers

  const DECAY: real := 0.05
  const CONSOLIDATION_THRESHOLD: real := 0.5
  const BATCH_SIZE: nat := 8
  const MAX_WARM_ENTRIES: nat := 10_000

  // ---------- events ----------

  // Everything that touches the memory: the agent's own writes and the steps of a cycle.
  datatype Event =
    | Push(id: Id, text: string, now: int)
    | Episode(id: Id, stored: string, now: int)
    | Reinforce(id: Id, now: int)
    | Decay(updateOk: bool, deleteOk: bool)
    | Drain
    | Summarise(id: Id, summary: string, now: int)
    | Prune(ids: seq<Id>, now: int, faults: Faults)

  datatype Phase = Idle | Cooling | Consolidating

  datatype Gate = Gate(mem: Memory, phase: Phase)

  // One cycle at a time, its steps in order; the agent writes whenever it likes.
  ghost predicate Enabled(g: Gate, ev: Event) {
    match ev
    case Decay(_, _) => g.phase == Idle
    case Drain => g.phase == Cooling
    case Summarise(_, _, _) => g.phase == Consolidating
    case Prune(ids, _, faults) => g.phase == Consolidating && ListsWarm(ids, g.mem.rows, faults.unreadable)
    case _ => true
  }

  function Next(g: Gate, ev: Event, worth: Worth): Gate
    requires ev.Prune? ==> forall id | id in ev.ids :: id in g.mem.rows
  {
    match ev
    case Push(id, text, now) => g.(mem := Pushed(g.mem, id, text, now))
    case Episode(id, stored, now) => g.(mem := Inserted(g.mem, id, Row(stored, Cold, 1.0, now, 0)))
    case Reinforce(id, now) => g.(mem := Reinforced(g.mem, id, now))
    case Decay(updateOk, deleteOk) => Gate(Decayed(g.mem, DECAY, updateOk, deleteOk), Cooling)
    case Drain => Gate(g.mem.(hot := AtLeast(g.mem.hot, CONSOLIDATION_THRESHOLD)), Consolidating)
    case Summarise(id, summary, now) => g.(mem := Inserted(g.mem, id, Row(summary, Warm, 0.8, now, 0)))
    case Prune(ids, now, faults) => Gate(Pruned(g.mem, ids, MAX_WARM_ENTRIES, now, worth, faults), Idle)
  }

  // Nothing is hot when the memory is opened; the table may hold anything.
  function Opened(rows: Table): Gate {
    Gate(Memory([], rows), Idle)
  }

  ghost function Stepped(o: Option<Gate>, ev: Event, worth: Worth): Option<Gate> {
    match o
    case None => None
    case Some(g) =>
      if Enabled(g, ev) then
        assert ev.Prune? ==> forall id | id in ev.ids :: id in WarmIds(g.mem.rows);
        Some(Next(g, ev, worth))
      else None
  }

  // The gate these events lead to, if every one of them was enabled when it came.
  ghost function Replay(g: Gate, steps: seq<Event>, worth: Worth): Option<Gate> {
    if steps == [] then Some(g) else Stepped(Replay(g, steps[..|steps| - 1], worth), steps[|steps| - 1], worth)
  }

  ghost function After(rows: Table, run: seq<Event>, worth: Worth): Option<Gate> {
    Replay(Opened(rows), run, worth)
  }

  function PushesOf(run: seq<Event>): seq<Id> {
    if run == [] then []
    else
      var front := PushesOf(run[..|run| - 1]);
      if run[|run| - 1].Push? then front + [run[|run| - 1].id] else front
  }

  // Identifiers are never reused.
  ghost predicate FreshIds(run: seq<Event>) {
    forall i, j | 0 <= i < j < |PushesOf(run)| :: PushesOf(run)[i] != PushesOf(run)[j]
  }

  // ---------- hot entries ----------

  function LowestTemp(p: Phase): real {
    if p == Cooling then 0.475 else 0.5
  }

  ghost predicate StaysHot(g: Gate) {
    forall e | e in g.mem.hot :: LowestTemp(g.phase) <= e.temp <= 1.0
  }

  lemma {:induction false} AtLeastKeepsAll(es: seq<Entry>, temp: real)
    requires forall e | e in es :: e.temp >= temp
    ensures AtLeast(es, temp) == es
  {
    if es == [] {
    } else {
      AtLeastKeepsAll(es[..|es| - 1], temp);
      assert es == es[..|es| - 1] + [es[|es| - 1]];
      assert es[|es| - 1] in es;
    }
  }

  /** No decay step drops a hot entry: the cut-off at 0.05 is never met. */
  lemma {:induction false} DecayDropsNothing(g: Gate, ev: Event, worth: Worth)
    requires StaysHot(g) && g.phase == Idle && ev.Decay?
    ensures Next(g, ev, worth).mem.hot == Cooled(g.mem.hot, DECAY)
    ensures StaysHot(Next(g, ev, worth))
  {
    forall e | e in Cooled(g.mem.hot, DECAY) ensures 0.475 <= e.temp <= 1.0 {
      var i :| 0 <= i < |g.mem.hot| && Cooled(g.mem.hot, DECAY)[i] == e;
      assert g.mem.hot[i] in g.mem.hot;
    }
    AtLeastKeepsAll(Cooled(g.mem.hot, DECAY), FLOOR);
  }

  lemma {:induction false} StepStaysHot(g: Gate, ev: Event, worth: Worth)
    requires StaysHot(g) && Enabled(g, ev)
    requires ev.Prune? ==> forall id | id in ev.ids :: id in g.mem.rows
    ensures StaysHot(Next(g, ev, worth))
  {
    if ev.Decay? {
      DecayDropsNothing(g, ev, worth);
    } else if ev.Drain? {
      forall e | e in AtLeast(g.mem.hot, CONSOLIDATION_THRESHOLD) ensures 0.5 <= e.temp <= 1.0 {
        AtLeastSelects(g.mem.hot, CONSOLIDATION_THRESHOLD, e);
      }
    } else if ev.Reinforce? && IndexOf(g.mem.hot, ev.id).Some? {
      var i := IndexOf(g.mem.hot, ev.id).value;
      assert g.mem.hot[i] in g.mem.hot;
    }
  }

  lemma {:induction false} HotThroughoutEveryRun(rows: Table, run: seq<Event>, worth: Worth)
    requires After(rows, run, worth).Some?
    ensures StaysHot(After(rows, run, worth).value)
  {
    if run == [] {
    } else {
      HotThroughoutEveryRun(rows, run[..|run| - 1], worth);
      StepStaysHot(After(rows, run[..|run| - 1], worth).value, run[|run| - 1], worth);
    }
  }

  // ---------- conservation ----------

  // The entries drained in a run, in order.
  ghost function DrainedIn(rows: Table, run: seq<Event>, worth: Worth): seq<Id>
    requires After(rows, run, worth).Some?
  {
    if run == [] then []
    else
      var front := DrainedIn(rows, run[..|run| - 1], worth);
      if run[|run| - 1].Drain?
      then front + Ids(Below(After(rows, run[..|run| - 1], worth).value.mem.hot, CONSOLIDATION_THRESHOLD))
      else front
  }

  lemma {:induction false} IdsAppend(es: seq<Entry>, e: Entry)
    ensures Ids(es + [e]) == Ids(es) + [e.id]
  {
  }

  lemma {:induction false} PartitionKeepsIds(es: seq<Entry>, temp: real)
    ensures multiset(Ids(es)) == multiset(Ids(AtLeast(es, temp))) + multiset(Ids(Below(es, temp)))
  {
    if es == [] {
    } else {
      var front, last := es[..|es| - 1], es[|es| - 1];
      PartitionKeepsIds(front, temp);
      assert es == front + [last];
      IdsAppend(front, last);
      IdsAppend(AtLeast(front, temp), last);
      IdsAppend(Below(front, temp), last);
    }
  }

  lemma {:induction false} StepIds(g: Gate, ev: Event, worth: Worth)
    requires StaysHot(g) && Enabled(g, ev)
    requires ev.Prune? ==> forall id | id in ev.ids :: id in g.mem.rows
    ensures ev.Push? ==> Ids(Next(g, ev, worth).mem.hot) == Ids(g.mem.hot) + [ev.id]
    ensures !ev.Push? && !ev.Drain? ==> Ids(Next(g, ev, worth).mem.hot) == Ids(g.mem.hot)
  {
    if ev.Decay? {
      DecayDropsNothing(g, ev, worth);
    } else if ev.Push? {
      IdsAppend(g.mem.hot, Entry(ev.id, ev.text, 1.0, ev.now, 0));
    }
  }

  /** Every entry ever pushed is still hot or was drained, and was drained once at most: nothing leaves
      the hot tier by any other way. */
  lemma {:induction false} PushedIsHotOrDrained(rows: Table, run: seq<Event>, worth: Worth)
    requires After(rows, run, worth).Some?
    ensures multiset(PushesOf(run))
            == multiset(Ids(After(rows, run, worth).value.mem.hot)) + multiset(DrainedIn(rows, run, worth))
  {
    if run == [] {
    } else {
      var front, ev := run[..|run| - 1], run[|run| - 1];
      var g := After(rows, front, worth).value;
      PushedIsHotOrDrained(rows, front, worth);
      HotThroughoutEveryRun(rows, front, worth);
      StepIds(g, ev, worth);
      if ev.Drain? {
        PartitionKeepsIds(g.mem.hot, CONSOLIDATION_THRESHOLD);
      }
    }
  }

  // ---------- batches ----------

  function Chunks(es: seq<Entry>, size: nat): seq<seq<Entry>>
    requires size > 0
  {
    if es == [] then [] else if |es| <= size then [es] else [es[..size]] + Chunks(es[size..], size)
  }

  function Flat(ess: seq<seq<Entry>>): seq<Entry> {
    if ess == [] then [] else ess[0] + Flat(ess[1..])
  }

  lemma {:induction false} FlatCons(b: seq<Entry>, rest: seq<seq<Entry>>)
    ensures Flat([b] + rest) == b + Flat(rest)
  {
    assert ([b] + rest)[1..] == rest;
  }

  /** The batches are the drained entries in order, each in exactly one, none empty, none over size. */
  lemma {:induction false} ChunksCover(es: seq<Entry>, size: nat)
    requires size > 0
    ensures Flat(Chunks(es, size)) == es
    ensures forall b | b in Chunks(es, size) :: 1 <= |b| <= size
    decreases |es|
  {
    if |es| > size {
      var head, rest := es[..size], es[size..];
      assert es == head + rest;
      ChunksCover(rest, size);
      FlatCons(head, Chunks(rest, size));
    } else if es != [] {
      FlatCons(es, []);
    }
  }

  // ---------- how long an entry stays ----------

  function Pow95(n: nat): real {
    if n == 0 then 1.0 else 0.95 * Pow95(n - 1)
  }

  // Decay steps since the entry was pushed.
  function DecaysOf(run: seq<Event>, id: Id): nat {
    if run == [] then 0
    else
      var ev := run[|run| - 1];
      if ev.Push? && ev.id == id then 0
      else DecaysOf(run[..|run| - 1], id) + (if ev.Decay? then 1 else 0)
  }

  predicate Untouched(run: seq<Event>, id: Id) {
    if run == [] then true
    else
      var ev := run[|run| - 1];
      (ev.Push? && ev.id == id) || (!(ev.Reinforce? && ev.id == id) && Untouched(run[..|run| - 1], id))
  }

  // As it was pushed, but for the decays since.
  ghost predicate AsPushed(run: seq<Event>, e: Entry) {
    && Push(e.id, e.text, e.accessedAt) in run
    && e.accesses == 0 && e.temp == Pow95(DecaysOf(run, e.id))
  }

  ghost predicate TempTellsAge(run: seq<Event>, hot: seq<Entry>) {
    forall e | e in hot && Untouched(run, e.id) :: AsPushed(run, e)
  }

  lemma {:induction false} FreshPrefix(run: seq<Event>)
    requires run != [] && FreshIds(run)
    ensures FreshIds(run[..|run| - 1])
    ensures run[|run| - 1].Push? ==> run[|run| - 1].id !in PushesOf(run[..|run| - 1])
  {
    var front := PushesOf(run[..|run| - 1]);
    forall i, j | 0 <= i < j < |front| ensures front[i] != front[j] {
      assert PushesOf(run)[i] == front[i] && PushesOf(run)[j] == front[j];
    }
    if run[|run| - 1].Push? {
      forall i | 0 <= i < |front| ensures front[i] != run[|run| - 1].id {
        assert PushesOf(run)[i] == front[i] && PushesOf(run)[|front|] == run[|run| - 1].id;
      }
    }
  }

  lemma {:induction false} HotWasPushed(rows: Table, run: seq<Event>, e: Entry, worth: Worth)
    requires After(rows, run, worth).Some? && e in After(rows, run, worth).value.mem.hot
    ensures e.id in PushesOf(run)
  {
    var hot := After(rows, run, worth).value.mem.hot;
    PushedIsHotOrDrained(rows, run, worth);
    var i :| 0 <= i < |hot| && hot[i] == e;
    assert Ids(hot)[i] == e.id;
    assert e.id in multiset(PushesOf(run));
  }

  // One step: what the last event does to the decay count and to the temperature of an entry.
  lemma {:induction false} AgePush(rows: Table, run: seq<Event>, g: Gate, e: Entry, worth: Worth)
    requires run != [] && FreshIds(run) && run[|run| - 1].Push?
    requires After(rows, run[..|run| - 1], worth) == Some(g) && TempTellsAge(run[..|run| - 1], g.mem.hot)
    requires e in Next(g, run[|run| - 1], worth).mem.hot && Untouched(run, e.id)
    ensures AsPushed(run, e)
  {
    FreshPrefix(run);
    if e in g.mem.hot {
      HotWasPushed(rows, run[..|run| - 1], e, worth);
      assert e.id != run[|run| - 1].id;
    }
  }

  lemma {:induction false} AgeDecay(run: seq<Event>, g: Gate, e: Entry, worth: Worth)
    requires run != [] && run[|run| - 1].Decay? && StaysHot(g) && g.phase == Idle
    requires TempTellsAge(run[..|run| - 1], g.mem.hot)
    requires e in Next(g, run[|run| - 1], worth).mem.hot && Untouched(run, e.id)
    ensures AsPushed(run, e)
  {
    DecayDropsNothing(g, run[|run| - 1], worth);
    var i :| 0 <= i < |g.mem.hot| && Cooled(g.mem.hot, DECAY)[i] == e;
    assert g.mem.hot[i] in g.mem.hot;
  }

  lemma {:induction false} AgeOther(run: seq<Event>, g: Gate, e: Entry, worth: Worth)
    requires run != [] && !run[|run| - 1].Decay? && !run[|run| - 1].Push?
    requires TempTellsAge(run[..|run| - 1], g.mem.hot)
    requires run[|run| - 1].Prune? ==> forall id | id in run[|run| - 1].ids :: id in g.mem.rows
    requires e in Next(g, run[|run| - 1], worth).mem.hot && Untouched(run, e.id)
    ensures AsPushed(run, e)
  {
    var ev := run[|run| - 1];
    if ev.Drain? {
      AtLeastSelects(g.mem.hot, CONSOLIDATION_THRESHOLD, e);
    }
    assert e in g.mem.hot;
  }

  lemma {:induction false} AgeStep(rows: Table, run: seq<Event>, g: Gate, worth: Worth)
    requires run != [] && FreshIds(run) && StaysHot(g)
    requires After(rows, run[..|run| - 1], worth) == Some(g) && Enabled(g, run[|run| - 1])
    requires TempTellsAge(run[..|run| - 1], g.mem.hot)
    ensures After(rows, run, worth).Some? && TempTellsAge(run, After(rows, run, worth).value.mem.hot)
  {
    var ev := run[|run| - 1];
    assert ev.Prune? ==> forall id | id in ev.ids :: id in WarmIds(g.mem.rows);
    forall e | e in Next(g, ev, worth).mem.hot && Untouched(run, e.id)
      ensures AsPushed(run, e)
    {
      if ev.Push? {
        AgePush(rows, run, g, e, worth);
      } else if ev.Decay? {
        AgeDecay(run, g, e, worth);
      } else {
        AgeOther(run, g, e, worth);
      }
    }
  }

  lemma {:induction false} AgesThroughoutEveryRun(rows: Table, run: seq<Event>, worth: Worth)
    requires After(rows, run, worth).Some? && FreshIds(run)
    ensures TempTellsAge(run, After(rows, run, worth).value.mem.hot)
  {
    if run == [] {
    } else {
      FreshPrefix(run);
      AgesThroughoutEveryRun(rows, run[..|run| - 1], worth);
      HotThroughoutEveryRun(rows, run[..|run| - 1], worth);
      AgeStep(rows, run, After(rows, run[..|run| - 1], worth).value, worth);
    }
  }

  lemma {:induction false} PowFalls(m: nat, n: nat)
    requires m <= n
    ensures 0.0 < Pow95(n) <= Pow95(m)
    decreases n
  {
    if m < n {
      PowFalls(m, n - 1);
    } else if n > 0 {
      PowFalls(n - 1, n - 1);
    }
  }

  lemma {:induction false} HalfLife()
    ensures Pow95(13) >= 0.5 > Pow95(14)
  {
    assert Pow95(4) == 0.95 * 0.95 * 0.95 * 0.95;
    assert 0.8145 <= Pow95(4) <= 0.8146;
    assert Pow95(8) == 0.95 * (0.95 * (0.95 * (0.95 * Pow95(4))));
    assert 0.6634 <= Pow95(8) <= 0.6635;
    assert Pow95(12) == 0.95 * (0.95 * (0.95 * (0.95 * Pow95(8))));
    assert 0.5403 <= Pow95(12) <= 0.5405;
    assert Pow95(14) == 0.95 * (0.95 * Pow95(12));
  }

  lemma {:induction false} BelowHalfExactly(n: nat)
    ensures Pow95(n) < 0.5 <==> n >= 14
  {
    HalfLife();
    if n >= 14 {
      PowFalls(14, n);
    } else {
      PowFalls(n, 13);
    }
  }

  /** An unreinforced entry is drained in exactly the cycle of its 14th decay: never earlier, never
      later. */
  lemma {:induction false} DrainedAtFourteen(rows: Table, run: seq<Event>, g: Gate, e: Entry, worth: Worth)
    requires run != [] && run[|run| - 1].Drain? && After(rows, run[..|run| - 1], worth) == Some(g)
    requires Enabled(g, Drain) && FreshIds(run) && e in g.mem.hot && Untouched(run, e.id)
    ensures e in Below(g.mem.hot, CONSOLIDATION_THRESHOLD) <==> DecaysOf(run, e.id) >= 14
    ensures e in Next(g, Drain, worth).mem.hot <==> DecaysOf(run, e.id) <= 13
  {
    FreshPrefix(run);
    AgesThroughoutEveryRun(rows, run[..|run| - 1], worth);
    AtLeastSelects(g.mem.hot, CONSOLIDATION_THRESHOLD, e);
    BelowHalfExactly(DecaysOf(run, e.id));
  }

  // ---------- entries that are come back to ----------

  lemma {:induction false} SameIds(es: seq<Entry>, fs: seq<Entry>, id: Id)
    requires |es| == |fs| && forall i | 0 <= i < |es| :: es[i].id == fs[i].id
    ensures IndexOf(es, id) == IndexOf(fs, id)
  {
    if es == [] {
    } else {
      SameIds(es[1..], fs[1..], id);
    }
  }

  lemma {:induction false} OneBehind(es: seq<Entry>, e: Entry, id: Id)
    ensures IndexOf(es + [e], id)
            == if IndexOf(es, id).Some? then IndexOf(es, id) else if e.id == id then Some(|es|) else None
  {
    if es == [] {
      assert es + [e] == [e];
    } else {
      assert (es + [e])[1..] == es[1..] + [e];
      OneBehind(es[1..], e, id);
    }
  }

  // The first entry of the identifier, if it is warm enough, is still the first.
  lemma {:induction false} FirstStays(es: seq<Entry>, temp: real, id: Id)
    ensures IndexOf(es, id).None? ==> IndexOf(AtLeast(es, temp), id).None?
    ensures IndexOf(es, id).Some? && es[IndexOf(es, id).value].temp >= temp ==>
              var (kept, j) := (AtLeast(es, temp), IndexOf(AtLeast(es, temp), id));
              j.Some? && kept[j.value] == es[IndexOf(es, id).value]
  {
    if es == [] {
    } else {
      var front, last := es[..|es| - 1], es[|es| - 1];
      assert es == front + [last];
      FirstStays(front, temp, id);
      OneBehind(front, last, id);
      OneBehind(AtLeast(front, temp), last, id);
    }
  }

  // The first entry of the identifier is warm for having been come back to, so many decays ago.
  ghost predicate WarmSince(hot: seq<Entry>, id: Id, decays: nat) {
    var i := IndexOf(hot, id);
    i.Some? && hot[i.value].temp >= 0.7 * Pow95(decays)
  }

  function SinceTouch(run: seq<Event>, id: Id): nat {
    if run == [] then 0
    else
      var ev := run[|run| - 1];
      if ev.Reinforce? && ev.id == id then 0
      else SinceTouch(run[..|run| - 1], id) + (if ev.Decay? then 1 else 0)
  }

  // Never more than six decays without it being reinforced.
  ghost predicate Regular(run: seq<Event>, id: Id) {
    forall i | 0 <= i <= |run| :: SinceTouch(run[..i], id) <= 6
  }

  lemma {:induction false} SixDecays(n: nat)
    requires n <= 6
    ensures 0.7 * Pow95(n) >= 0.5
  {
    PowFalls(n, 6);
    assert Pow95(3) == 0.857375;
    assert Pow95(6) == 0.95 * (0.95 * (0.95 * Pow95(3)));
  }

  lemma {:induction false} ReinforceKeepsWarm(g: Gate, ev: Event, worth: Worth, id: Id, n: nat)
    requires ev.Reinforce? && WarmSince(g.mem.hot, id, n) && n <= 6
    ensures WarmSince(Next(g, ev, worth).mem.hot, id, if ev.id == id then 0 else n)
  {
    var hot, after := g.mem.hot, Next(g, ev, worth).mem.hot;
    SixDecays(n);
    assert Pow95(0) == 1.0;
    SameIds(hot, after, id);
  }

  lemma {:induction false} DecayKeepsWarm(g: Gate, ev: Event, worth: Worth, id: Id, n: nat)
    requires ev.Decay? && StaysHot(g) && g.phase == Idle && WarmSince(g.mem.hot, id, n)
    ensures WarmSince(Next(g, ev, worth).mem.hot, id, n + 1)
  {
    DecayDropsNothing(g, ev, worth);
    SameIds(g.mem.hot, Next(g, ev, worth).mem.hot, id);
    assert Pow95(n + 1) == 0.95 * Pow95(n);
  }

  lemma {:induction false} StepKeepsWarm(g: Gate, ev: Event, worth: Worth, id: Id, n: nat)
    requires Enabled(g, ev) && StaysHot(g) && WarmSince(g.mem.hot, id, n) && n <= 6
    requires ev.Prune? ==> forall k | k in ev.ids :: k in g.mem.rows
    ensures WarmSince(Next(g, ev, worth).mem.hot, id,
                      if ev.Reinforce? && ev.id == id then 0 else n + (if ev.Decay? then 1 else 0))
  {
    if ev.Reinforce? {
      ReinforceKeepsWarm(g, ev, worth, id, n);
    } else if ev.Decay? {
      DecayKeepsWarm(g, ev, worth, id, n);
    } else if ev.Drain? {
      SixDecays(n);
      FirstStays(g.mem.hot, CONSOLIDATION_THRESHOLD, id);
    } else if ev.Push? {
      OneBehind(g.mem.hot, Entry(ev.id, ev.text, 1.0, ev.now, 0), id);
    }
  }

  lemma {:induction false} StretchStaysHot(g: Gate, run: seq<Event>, worth: Worth)
    requires StaysHot(g) && Replay(g, run, worth).Some?
    ensures StaysHot(Replay(g, run, worth).value)
  {
    if run == [] {
    } else {
      var front, ev := run[..|run| - 1], run[|run| - 1];
      var h := Replay(g, front, worth).value;
      assert ev.Prune? ==> forall id | id in ev.ids :: id in WarmIds(h.mem.rows);
      StretchStaysHot(g, front, worth);
      StepStaysHot(h, ev, worth);
    }
  }

  lemma {:induction false} RegularFront(run: seq<Event>, id: Id)
    requires run != [] && Regular(run, id)
    ensures Regular(run[..|run| - 1], id) && SinceTouch(run[..|run| - 1], id) <= 6
  {
    var front := run[..|run| - 1];
    forall i | 0 <= i <= |front| ensures SinceTouch(front[..i], id) <= 6 {
      assert front[..i] == run[..i];
    }
    assert front[..|front|] == front;
  }

  lemma {:induction false} RegularsWarm(g: Gate, run: seq<Event>, worth: Worth, id: Id)
    requires StaysHot(g) && WarmSince(g.mem.hot, id, 0) && Regular(run, id) && Replay(g, run, worth).Some?
    ensures WarmSince(Replay(g, run, worth).value.mem.hot, id, SinceTouch(run, id))
  {
    if run == [] {
    } else {
      var front, ev := run[..|run| - 1], run[|run| - 1];
      var h := Replay(g, front, worth).value;
      assert ev.Prune? ==> forall k | k in ev.ids :: k in WarmIds(h.mem.rows);
      RegularFront(run, id);
      RegularsWarm(g, front, worth, id);
      StretchStaysHot(g, front, worth);
      StepKeepsWarm(h, ev, worth, id, SinceTouch(front, id));
    }
  }

  /** An entry that is reinforced at least once in six decays is never drained, however long this goes on. */
  lemma {:induction false} RegularsStay(g: Gate, run: seq<Event>, worth: Worth, id: Id)
    requires StaysHot(g) && WarmSince(g.mem.hot, id, 0) && Regular(run, id) && Replay(g, run, worth).Some?
    ensures exists e :: e in Replay(g, run, worth).value.mem.hot && e.id == id && e.temp >= 0.5
  {
    var hot := Replay(g, run, worth).value.mem.hot;
    RegularsWarm(g, run, worth, id);
    assert run[..|run|] == run;
    SixDecays(SinceTouch(run, id));
    assert hot[IndexOf(hot, id).value] in hot;
  }

  // ---------- how long a summary stays ----------

  lemma {:induction false} PowAdds(m: nat, n: nat)
    ensures Pow95(m + n) == Pow95(m) * Pow95(n)
    decreases m
  {
    if m == 0 {
    } else {
      PowAdds(m - 1, n);
      assert 0.95 * (Pow95(m - 1) * Pow95(n)) == (0.95 * Pow95(m - 1)) * Pow95(n);
    }
  }

  lemma {:induction false} Squared(p: real, low: real, high: real)
    requires 0.0 < low <= p <= high
    ensures low * low <= p * p <= high * high
  {
    assert p * p - low * low == (p - low) * (p + low);
    assert high * high - p * p == (high - p) * (high + p);
  }

  lemma {:induction false} PowDoubles(n: nat, low: real, high: real)
    requires 0.0 < low <= Pow95(n) <= high
    ensures low * low <= Pow95(n + n) <= high * high
  {
    PowAdds(n, n);
    Squared(Pow95(n), low, high);
  }

  lemma {:induction false} PowSteps(n: nat)
    ensures Pow95(n + 4) == 0.81450625 * Pow95(n)
  {
    assert Pow95(n + 2) == 0.95 * (0.95 * Pow95(n));
    assert Pow95(n + 4) == 0.95 * (0.95 * Pow95(n + 2));
  }

  // 0.8 * 0.95 to the power n passes 0.05 at the 55th power.
  lemma {:induction false} SixteenthPassed()
    ensures Pow95(54) >= 0.0625 > Pow95(55)
  {
    PowSteps(0);
    PowDoubles(4, 0.81450625, 0.81450625);
    PowDoubles(8, 0.66342, 0.663421);
    PowDoubles(16, 0.440126, 0.440128);
    PowSteps(32);
    PowSteps(36);
    PowSteps(40);
    PowSteps(44);
    PowSteps(48);
    assert Pow95(54) == 0.95 * (0.95 * Pow95(52));
  }

  // Decays that reached the rows.
  function UpdatesOf(run: seq<Event>): nat {
    if run == [] then 0
    else
      var ev := run[|run| - 1];
      UpdatesOf(run[..|run| - 1]) + (if ev.Decay? && ev.updateOk then 1 else 0)
  }

  // Nothing is written to this row, and none is inserted under its identifier.
  predicate Avoids(ev: Event, id: Id) {
    match ev
    case Episode(other, _, _) => other != id
    case Reinforce(other, _) => other != id
    case Summarise(other, _, _) => other != id
    case _ => true
  }

  predicate LeavesAlone(run: seq<Event>, id: Id) {
    forall ev | ev in run :: Avoids(ev, id)
  }

  lemma {:induction false} RowStep(g: Gate, ev: Event, worth: Worth, id: Id)
    requires Enabled(g, ev) && Avoids(ev, id)
    requires ev.Prune? ==> forall k | k in ev.ids :: k in g.mem.rows
    ensures var rows := Next(g, ev, worth).mem.rows;
            && (id in rows ==> id in g.mem.rows)
            && (id in rows ==>
                  rows[id] == if ev.Decay? && ev.updateOk && g.mem.rows[id].tier == Warm
                              then g.mem.rows[id].(temp := Less(g.mem.rows[id].temp, 0.05)) else g.mem.rows[id])
  {
    if ev.Decay? {
      RowsDecayedExactly(g.mem, DECAY, ev.updateOk, ev.deleteOk, id);
    } else if ev.Reinforce? {
      ReinforcedExactly(g.mem, ev.id, ev.now);
    }
  }

  // The row of a summary, so many decays later.
  function SummaryRow(summary: string, now: int, decays: nat): Row {
    Row(summary, Warm, 0.8 * Pow95(decays), now, 0)
  }

  lemma {:induction false} SummaryStep(
    g: Gate, ev: Event, worth: Worth, id: Id, summary: string, now: int, decays: nat)
    requires Enabled(g, ev) && Avoids(ev, id)
    requires ev.Prune? ==> forall k | k in ev.ids :: k in g.mem.rows
    requires id in g.mem.rows ==> g.mem.rows[id] == SummaryRow(summary, now, decays)
    ensures var (rows, more) := (Next(g, ev, worth).mem.rows, if ev.Decay? && ev.updateOk then 1 else 0);
            id in rows ==> rows[id] == SummaryRow(summary, now, decays + more)
  {
    RowStep(g, ev, worth, id);
  }

  lemma {:induction false} SummaryAges(
    g: Gate, id: Id, summary: string, now: int, run: seq<Event>, worth: Worth)
    requires g.phase == Consolidating && id !in g.mem.rows && LeavesAlone(run, id)
    requires Replay(Next(g, Summarise(id, summary, now), worth), run, worth).Some?
    ensures var rows := Replay(Next(g, Summarise(id, summary, now), worth), run, worth).value.mem.rows;
            id in rows ==> rows[id] == SummaryRow(summary, now, UpdatesOf(run))
  {
    if run == [] {
    } else {
      var front, ev := run[..|run| - 1], run[|run| - 1];
      var start := Next(g, Summarise(id, summary, now), worth);
      var h := Replay(start, front, worth).value;
      assert run == front + [ev] && ev in run && forall e | e in front :: e in run;
      assert ev.Prune? ==> forall k | k in ev.ids :: k in WarmIds(h.mem.rows);
      SummaryAges(g, id, summary, now, front, worth);
      SummaryStep(h, ev, worth, id, summary, now, UpdatesOf(front));
    }
  }

  /** A summary nobody comes back to cools with every decay and fades in its 55th, unless it is pruned before: as long
      as it is there its temperature is 0.8 times 0.95 to the number of decays, and of a decay that completes it
      is left over exactly up to the 54th. */
  lemma {:induction false} SummaryFadesAtFiftyFive(
    g: Gate, id: Id, summary: string, now: int, run: seq<Event>, worth: Worth)
    requires g.phase == Consolidating && id !in g.mem.rows && LeavesAlone(run, id)
    requires run != [] && run[|run| - 1] == Decay(true, true)
    requires Replay(Next(g, Summarise(id, summary, now), worth), run, worth).Some?
    requires var start := Next(g, Summarise(id, summary, now), worth);
             id in Replay(start, run[..|run| - 1], worth).value.mem.rows
    ensures var rows := Replay(Next(g, Summarise(id, summary, now), worth), run, worth).value.mem.rows;
            && (id in rows <==> UpdatesOf(run) <= 54)
            && (id in rows ==> rows[id] == SummaryRow(summary, now, UpdatesOf(run)))
  {
    var front, n := run[..|run| - 1], UpdatesOf(run);
    var h := Replay(Next(g, Summarise(id, summary, now), worth), front, worth).value;
    assert run == front + [Decay(true, true)] && forall e | e in front :: e in run;
    SummaryAges(g, id, summary, now, front, worth);
    SummaryAges(g, id, summary, now, run, worth);
    RowsDecayedExactly(h.mem, DECAY, true, true, id);
    SixteenthPassed();
    assert Pow95(n) == 0.95 * Pow95(n - 1);
    if n <= 54 {
      PowFalls(n, 54);
    } else {
      PowFalls(55, n);
    }
  }

  // ---------- cold rows ----------

  ghost predicate InRange(rows: Table) {
    forall id | id in rows :: 0.0 <= rows[id].temp <= 1.0
  }

  ghost predicate ColdKept(m: Memory, n: Memory) {
    forall id | id in m.rows && m.rows[id].tier == Cold ::
      && id in n.rows && n.rows[id].tier == Cold
      && n.rows[id].text == m.rows[id].text && n.rows[id].temp >= m.rows[id].temp
  }

  lemma {:induction false} StepKeepsCold(g: Gate, ev: Event, worth: Worth)
    requires InRange(g.mem.rows) && Enabled(g, ev)
    requires ev.Prune? ==> forall id | id in ev.ids :: id in g.mem.rows
    ensures ColdKept(g.mem, Next(g, ev, worth).mem) && InRange(Next(g, ev, worth).mem.rows)
  {
    if ev.Prune? {
      PruneKeepsTheBest(g.mem, ev.ids, MAX_WARM_ENTRIES, ev.now, worth, ev.faults);
    }
  }

  lemma {:induction false} RowsThroughoutEveryRun(rows: Table, run: seq<Event>, worth: Worth)
    requires InRange(rows) && After(rows, run, worth).Some?
    ensures InRange(After(rows, run, worth).value.mem.rows)
  {
    if run == [] {
    } else {
      RowsThroughoutEveryRun(rows, run[..|run| - 1], worth);
      StepKeepsCold(After(rows, run[..|run| - 1], worth).value, run[|run| - 1], worth);
    }
  }

  /** The vault only grows: over any stretch of any run from any stored table, whatever fails, no cold row is
      removed, demoted, rewritten or cooled. */
  lemma {:induction false} VaultNeverCools(rows: Table, run: seq<Event>, i: nat, worth: Worth)
    requires InRange(rows) && After(rows, run, worth).Some? && i <= |run|
    ensures After(rows, run[..i], worth).Some?
    ensures ColdKept(After(rows, run[..i], worth).value.mem, After(rows, run, worth).value.mem)
    decreases |run|
  {
    if i == |run| {
      assert run[..i] == run;
    } else {
      var front := run[..|run| - 1];
      VaultNeverCools(rows, front, i, worth);
      assert front[..i] == run[..i];
      RowsThroughoutEveryRun(rows, front, worth);
      StepKeepsCold(After(rows, front, worth).value, run[|run| - 1], worth);
    }
  }

  /** Each prune step leaves at most 10000 warm rows if and only if there were no more before, or its
      count and its query succeed, enough of the surplus is readable and as many deletions succeed; and no
      readable row it leaves is worth less than one it removed. */
  lemma {:induction false} PruneStepBounds(g: Gate, ids: seq<Id>, now: int, worth: Worth, faults: Faults)
    requires Enabled(g, Prune(ids, now, faults))
    ensures forall id | id in ids :: id in g.mem.rows
    ensures var (e, before) := (Next(g, Prune(ids, now, faults), worth).mem, |WarmIds(g.mem.rows)|);
            && (|WarmIds(e.rows)| <= 10_000
                <==> before <= 10_000
                     || (faults.countOk && faults.selectOk && before - 10_000 <= |ids|
                         && (faults.deletes.Some? ==> before - 10_000 <= faults.deletes.value)))
            && forall p, s | p in WarmIds(g.mem.rows) - WarmIds(e.rows) && s in WarmIds(e.rows) - faults.unreadable ::
                 Holds(g.mem.rows[p], now, worth) <= Holds(g.mem.rows[s], now, worth)
  {
    forall id | id in ids ensures id in g.mem.rows {
      assert id in WarmIds(g.mem.rows);
    }
    PruneBoundExactly(g.mem, ids, MAX_WARM_ENTRIES, now, worth, faults);
    PruneKeepsTheBest(g.mem, ids, MAX_WARM_ENTRIES, now, worth, faults);
  }

  lemma {:induction false} ColdStep(g: Gate, ev: Event, worth: Worth, id: Id)
    requires Enabled(g, ev) && Avoids(ev, id) && id in g.mem.rows && g.mem.rows[id].tier == Cold
    requires ev.Prune? ==> forall k | k in ev.ids :: k in g.mem.rows
    ensures id in Next(g, ev, worth).mem.rows && Next(g, ev, worth).mem.rows[id] == g.mem.rows[id]
  {
    if ev.Prune? {
      PruneKeepsTheBest(g.mem, ev.ids, MAX_WARM_ENTRIES, ev.now, worth, ev.faults);
    } else {
      RowStep(g, ev, worth, id);
    }
  }

  /** An episode stays in the vault as it was written, at full temperature, through any run that does not touch it. */
  lemma {:induction false} EpisodeStays(
    g: Gate, id: Id, stored: string, now: int, run: seq<Event>, worth: Worth)
    requires id !in g.mem.rows && LeavesAlone(run, id)
    requires Replay(Next(g, Episode(id, stored, now), worth), run, worth).Some?
    ensures var rows := Replay(Next(g, Episode(id, stored, now), worth), run, worth).value.mem.rows;
            id in rows && rows[id] == Row(stored, Cold, 1.0, now, 0)
  {
    if run == [] {
    } else {
      var front, ev := run[..|run| - 1], run[|run| - 1];
      var h := Replay(Next(g, Episode(id, stored, now), worth), front, worth).value;
      assert run == front + [ev] && ev in run && forall e | e in front :: e in run;
      assert ev.Prune? ==> forall k | k in ev.ids :: k in WarmIds(h.mem.rows);
      EpisodeStays(g, id, stored, now, front, worth);
      ColdStep(h, ev, worth, id);
    }
  }

  // ---------- one uninterrupted cycle ----------

  lemma {:induction false} ReplayOne(g: Gate, steps: seq<Event>, ev: Event, worth: Worth)
    requires Replay(g, steps, worth).Some? && Enabled(Replay(g, steps, worth).value, ev)
    requires ev.Prune? ==> forall id | id in ev.ids :: id in Replay(g, steps, worth).value.mem.rows
    ensures Replay(g, steps + [ev], worth) == Some(Next(Replay(g, steps, worth).value, ev, worth))
  {
    assert (steps + [ev])[..|steps|] == steps;
  }

  // What the model answers to a batch, the identifier and the clock for a row, and which inserts succeed.
  datatype Oracle = Oracle(
    summarise: seq<Entry> -> Option<string>, freshIds: nat -> Id, now: int, insertOk: nat -> bool)

  // The answer to this batch is there and not blank, and its insert succeeds.
  predicate BatchStored(batch: seq<Entry>, i: nat, o: Oracle) {
    match o.summarise(batch)
    case None => false
    case Some(text) => Trim(text) != "" && o.insertOk(i)
  }

  function Summary(batch: seq<Entry>, i: nat, o: Oracle): Event
    requires BatchStored(batch, i, o)
  {
    Summarise(o.freshIds(i), Trim(o.summarise(batch).value), o.now)
  }

  // The warm rows the summaries of the batches become.
  function Summaries(batches: seq<seq<Entry>>, o: Oracle): seq<Event> {
    if batches == [] then []
    else
      var n := |batches| - 1;
      Summaries(batches[..n], o) + (if BatchStored(batches[n], n, o) then [Summary(batches[n], n, o)] else [])
  }

  lemma {:induction false} ReplayJoins(g: Gate, steps: seq<Event>, more: seq<Event>, worth: Worth)
    requires Replay(g, steps, worth).Some?
    ensures Replay(g, steps + more, worth) == Replay(Replay(g, steps, worth).value, more, worth)
    decreases |more|
  {
    if more == [] {
      assert steps + more == steps;
    } else {
      var n := |more| - 1;
      ReplayJoins(g, steps, more[..n], worth);
      assert (steps + more)[..|steps + more| - 1] == steps + more[..n];
      assert (steps + more)[|steps + more| - 1] == more[n];
    }
  }

  lemma {:induction false} SummariesGrow(g: Gate, batches: seq<seq<Entry>>, i: nat, o: Oracle, worth: Worth)
    requires i < |batches|
    requires var h := Replay(g, Summaries(batches[..i], o), worth); h.Some? && h.value.phase == Consolidating
    ensures var h := Replay(g, Summaries(batches[..i], o), worth).value;
            Replay(g, Summaries(batches[..i + 1], o), worth)
            == Some(if BatchStored(batches[i], i, o) then Next(h, Summary(batches[i], i, o), worth) else h)
  {
    var steps := Summaries(batches[..i], o);
    assert batches[..i + 1][..i] == batches[..i];
    if BatchStored(batches[i], i, o) {
      ReplayOne(g, steps, Summary(batches[i], i, o), worth);
    } else {
      assert steps + [] == steps;
    }
  }

  // One batch: a usable answer becomes a warm row, when the insert succeeds.
  method PromoteBatch(mem: MemoryTiers, batch: seq<Entry>, i: nat, o: Oracle, worth: Worth)
    modifies mem
    ensures var g := Gate(old(mem.Now()), Consolidating);
            Gate(mem.Now(), Consolidating)
            == if BatchStored(batch, i, o) then Next(g, Summary(batch, i, o), worth) else g
  {
    var summary := o.summarise(batch);
    if summary.Some? {
      var trimmed := Trim(summary.value);
      if trimmed != "" {
        var _ := mem.PromoteWarmSummary(o.freshIds(i), trimmed, o.now, o.insertOk(i));
      }
    }
  }

  // The stored summaries of the batches, each a warm row.
  method PromoteBatches(mem: MemoryTiers, batches: seq<seq<Entry>>, o: Oracle, worth: Worth)
    modifies mem
    ensures Replay(Gate(old(mem.Now()), Consolidating), Summaries(batches, o), worth)
            == Some(Gate(mem.Now(), Consolidating))
  {
    ghost var start := Gate(mem.Now(), Consolidating);
    var i := 0;
    while i < |batches|
      invariant 0 <= i <= |batches|
      invariant Replay(start, Summaries(batches[..i], o), worth) == Some(Gate(mem.Now(), Consolidating))
    {
      SummariesGrow(start, batches, i, o, worth);
      PromoteBatch(mem, batches[i], i, o, worth);
      i := i + 1;
    }
    assert batches[..i] == batches;
  }

  /** A cycle is Decay, Drain, one Summarise per stored summary of a batch of the drained entries, Prune, as far
      as the database lets it: the object's memory is the one these events lead to. */
  method RunCycle(mem: MemoryTiers, o: Oracle, updateOk: bool, deleteOk: bool, faults: Faults, worth: Worth)
    returns (ghost steps: seq<Event>, cool: seq<Entry>, ids: seq<Id>)
    modifies mem
    ensures cool == Below(Decayed(old(mem.Now()), 0.05, updateOk, deleteOk).hot, 0.5)
    ensures steps == [Decay(updateOk, deleteOk), Drain] + Summaries(Chunks(cool, 8), o)
                     + [Prune(ids, o.now, faults)]
    ensures Replay(Gate(old(mem.Now()), Idle), steps, worth) == Some(Gate(mem.Now(), Idle))
  {
    ghost var start := Gate(mem.Now(), Idle);
    var decay := Decay(updateOk, deleteOk);
    var _ := mem.DecayAll(DECAY, updateOk, deleteOk);
    ReplayOne(start, [], decay, worth);
    assert [] + [decay] == [decay];
    cool := mem.DrainCoolHot(CONSOLIDATION_THRESHOLD);
    ReplayOne(start, [decay], Drain, worth);
    assert [decay] + [Drain] == [decay, Drain];
    var batches := Chunks(cool, BATCH_SIZE);
    PromoteBatches(mem, batches, o, worth);
    ReplayJoins(start, [decay, Drain], Summaries(batches, o), worth);
    steps := [decay, Drain] + Summaries(batches, o);
    ids := PruneStep(mem, o.now, worth, faults);
    ReplayJoins(start, steps, [Prune(ids, o.now, faults)], worth);
    steps := steps + [Prune(ids, o.now, faults)];
  }

  method PruneStep(mem: MemoryTiers, now: int, worth: Worth, faults: Faults) returns (ids: seq<Id>)
    modifies mem
    ensures Replay(Gate(old(mem.Now()), Consolidating), [Prune(ids, now, faults)], worth) == Some(Gate(mem.Now(), Idle))
  {
    ghost var before := mem.Now();
    var pruned;
    pruned, ids := mem.EntropyPruneWarm(MAX_WARM_ENTRIES, now, worth, faults);
    forall id | id in ids ensures id in before.rows {
      assert id in WarmIds(before.rows);
    }
    ReplayOne(Gate(before, Consolidating), [], Prune(ids, now, faults), worth);
    assert [] + [Prune(ids, now, faults)] == [Prune(ids, now, faults)];
  }

  // ---------- what becomes of a batch ----------

  ghost predicate NewIds(rows: Table, n: nat, o: Oracle) {
    && (forall i | 0 <= i < n :: o.freshIds(i) !in rows)
    && forall i, j | 0 <= i < j < n :: o.freshIds(i) != o.freshIds(j)
  }

  // The rows that the batches leave behind: one for each stored summary, and those there were.
  ghost predicate BatchRows(rows: Table, batches: seq<seq<Entry>>, o: Oracle, after: Table) {
    && (forall id | id in rows :: id in after && after[id] == rows[id])
    && (forall i | 0 <= i < |batches| && BatchStored(batches[i], i, o) ::
          o.freshIds(i) in after
          && after[o.freshIds(i)] == Row(Trim(o.summarise(batches[i]).value), Warm, 0.8, o.now, 0))
    && (forall id | id in after && id !in rows ::
          exists i :: 0 <= i < |batches| && BatchStored(batches[i], i, o) && o.freshIds(i) == id)
  }

  lemma {:induction false} BatchRowsGrow(
    rows: Table, batches: seq<seq<Entry>>, o: Oracle, before: Table, after: Table)
    requires batches != [] && NewIds(rows, |batches|, o)
    requires BatchRows(rows, batches[..|batches| - 1], o, before)
    requires var n := |batches| - 1;
             after == if BatchStored(batches[n], n, o)
                      then before[o.freshIds(n) := Row(Trim(o.summarise(batches[n]).value), Warm, 0.8, o.now, 0)]
                      else before
    ensures BatchRows(rows, batches, o, after)
  {
    var n, front := |batches| - 1, batches[..|batches| - 1];
    forall i | 0 <= i < n ensures front[i] == batches[i] {
    }
    forall id | id in after && id !in rows
      ensures exists i :: 0 <= i < |batches| && BatchStored(batches[i], i, o) && o.freshIds(i) == id
    {
      if id in before {
        var i :| 0 <= i < n && BatchStored(front[i], i, o) && o.freshIds(i) == id;
        assert BatchStored(batches[i], i, o);
      } else {
        assert BatchStored(batches[n], n, o) && o.freshIds(n) == id;
      }
    }
  }

  lemma {:induction false} BatchesLeave(g: Gate, batches: seq<seq<Entry>>, o: Oracle, worth: Worth)
    requires g.phase == Consolidating && NewIds(g.mem.rows, |batches|, o)
    ensures var h := Replay(g, Summaries(batches, o), worth);
            && h.Some? && h.value.phase == Consolidating && h.value.mem.hot == g.mem.hot
            && BatchRows(g.mem.rows, batches, o, h.value.mem.rows)
    decreases |batches|
  {
    if batches == [] {
    } else {
      var n, front := |batches| - 1, batches[..|batches| - 1];
      BatchesLeave(g, front, o, worth);
      var h := Replay(g, Summaries(front, o), worth).value;
      LastIdIsNew(g.mem.rows, batches, o, h.mem.rows);
      SummariesGrow(g, batches, n, o, worth);
      assert batches[..n + 1] == batches;
      BatchRowsGrow(g.mem.rows, batches, o, h.mem.rows, Replay(g, Summaries(batches, o), worth).value.mem.rows);
    }
  }

  lemma {:induction false} LastIdIsNew(rows: Table, batches: seq<seq<Entry>>, o: Oracle, before: Table)
    requires batches != [] && NewIds(rows, |batches|, o) && BatchRows(rows, batches[..|batches| - 1], o, before)
    ensures o.freshIds(|batches| - 1) !in before
  {
  }

  /** What a batch leaves behind: the row of its summary, if and only if the answer to it was usable and the
      insert succeeded. The entries of any other batch are gone from the hot tier and nowhere else. */
  lemma {:induction false} BatchSurvivesExactly(g: Gate, batches: seq<seq<Entry>>, o: Oracle, worth: Worth, i: nat)
    requires g.phase == Consolidating && NewIds(g.mem.rows, |batches|, o) && i < |batches|
    ensures var h := Replay(g, Summaries(batches, o), worth);
            && h.Some? && h.value.mem.hot == g.mem.hot
            && (o.freshIds(i) in h.value.mem.rows
                <==> o.summarise(batches[i]).Some? && Trim(o.summarise(batches[i]).value) != "" && o.insertOk(i))
            && (o.freshIds(i) in h.value.mem.rows ==>
                  h.value.mem.rows[o.freshIds(i)] == Row(Trim(o.summarise(batches[i]).value), Warm, 0.8, o.now, 0))
  {
    BatchesLeave(g, batches, o, worth);
    var after := Replay(g, Summaries(batches, o), worth).value.mem.rows;
    if o.freshIds(i) in after {
      var j :| 0 <= j < |batches| && BatchStored(batches[j], j, o) && o.freshIds(j) == o.freshIds(i);
      assert i == j;
    }
  }
}
