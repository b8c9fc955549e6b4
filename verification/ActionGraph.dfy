/** The action graph: an edge table with a per-state answer cache in front of it.
    SQL results, the clock and database failures are inputs; the table is a map. */
module ActionGraph {
  import opened Wrappers

  datatype Key = Key(state: string, action: string)

  datatype Edge = Edge(successes: nat, failures: nat, lastUsed: real)

  type Table = map<Key, Edge>

  // One row of the per-state query, and what the cache keeps.
  datatype Entry = Entry(action: string, edge: Edge)

  type Cache = map<string, seq<Entry>>

  function Probability(e: Edge): real {
    if e.successes + e.failures == 0 then 0.0
    else e.successes as real / (e.successes + e.failures) as real
  }

  // Strictly better: higher probability, then more recent use.
  predicate Outranks(a: Edge, b: Edge) {
    Probability(a) > Probability(b) || (Probability(a) == Probability(b) && a.lastUsed > b.lastUsed)
  }

  // ---------- what the database guarantees ----------

  // rows is some ordering of the edges of this state, most recent first; ties come in any order.
  ghost predicate IsSelect(rows: seq<Entry>, t: Table, state: string) {
    && (forall i, j | 0 <= i < j < |rows| :: rows[i].action != rows[j].action)
    && (forall i, j | 0 <= i < j < |rows| :: rows[i].edge.lastUsed >= rows[j].edge.lastUsed)
    && (forall e | e in rows :: Key(state, e.action) in t && t[Key(state, e.action)] == e.edge)
    && (forall k | k in t && k.state == state :: Entry(k.action, t[k]) in rows)
  }

  function Bumped(t: Table, k: Key, now: real): Table {
    if k in t then t[k := t[k].(lastUsed := now)] else t
  }

  function Upserted(t: Table, k: Key, success: bool, now: real): Table {
    var e := if k in t then t[k] else Edge(0, 0, now);
    t[k := if success then Edge(e.successes + 1, e.failures, now) else Edge(e.successes, e.failures + 1, now)]
  }

  function Pruned(t: Table, threshold: real): Table {
    map k | k in t && !(t[k].successes + t[k].failures > 0 && Probability(t[k]) < threshold) :: t[k]
  }

  // ---------- the answer ----------

  // The last maximal entry among those confident enough, as the iterator's max_by leaves it.
  function Top(entries: seq<Entry>, confidence: real): Option<Entry> {
    if entries == [] then None
    else
      var best := Top(entries[..|entries| - 1], confidence);
      var e := entries[|entries| - 1];
      if Probability(e.edge) < confidence then best
      else if best.Some? && Outranks(best.value.edge, e.edge) then best
      else Some(e)
  }

  function BestFromEntries(entries: seq<Entry>, confidence: real): Option<string> {
    match Top(entries, confidence)
    case None => None
    case Some(e) => Some(e.action)
  }

  // What an answer must be, said of the table alone.
  ghost predicate IsBest(t: Table, state: string, confidence: real, answer: Option<string>) {
    match answer
    case None => forall k | k in t && k.state == state :: Probability(t[k]) < confidence
    case Some(a) =>
      && Key(state, a) in t && Probability(t[Key(state, a)]) >= confidence
      && forall k | k in t && k.state == state :: !Outranks(t[k], t[Key(state, a)])
  }

  lemma {:induction false} TopIsMaximal(entries: seq<Entry>, confidence: real)
    ensures var top := Top(entries, confidence);
            && (top.None? ==> forall e | e in entries :: Probability(e.edge) < confidence)
            && (top.Some? ==>
                  && top.value in entries && Probability(top.value.edge) >= confidence
                  && forall e | e in entries :: !Outranks(e.edge, top.value.edge))
  {
    if entries == [] {
    } else {
      var front := entries[..|entries| - 1];
      TopIsMaximal(front, confidence);
      assert entries == front + [entries[|entries| - 1]];
    }
  }

  /** Answering from the rows of the query is answering from the table. */
  lemma {:induction false} RowsAnswerForTable(rows: seq<Entry>, t: Table, state: string, confidence: real)
    requires IsSelect(rows, t, state)
    ensures IsBest(t, state, confidence, BestFromEntries(rows, confidence))
  {
    TopIsMaximal(rows, confidence);
    var top := Top(rows, confidence);
    forall k | k in t && k.state == state
      ensures top.None? ==> Probability(t[k]) < confidence
      ensures top.Some? ==> !Outranks(t[k], t[Key(state, top.value.action)])
    {
      assert Entry(k.action, t[k]) in rows;
    }
  }

  // The confidence only decides whether the one winner of the list is given.
  lemma {:induction false} OneWinnerPerList(entries: seq<Entry>, c: real, d: real)
    requires c <= d
    ensures Top(entries, c).None? ==> Top(entries, d).None?
    ensures var top := Top(entries, c);
            top.Some? ==> Top(entries, d) == (if Probability(top.value.edge) >= d then top else None)
  {
    if entries == [] {
    } else {
      var front := entries[..|entries| - 1];
      OneWinnerPerList(front, c, d);
      TopIsMaximal(front, c);
      TopIsMaximal(front, d);
    }
  }

  // ---------- cache coherence ----------

  ghost predicate ClockAtLeast(t: Table, now: real) {
    forall k | k in t :: t[k].lastUsed <= now
  }

  // Every cached list, at every confidence, answers as the table would.
  ghost predicate Coherent(t: Table, cache: Cache) {
    forall state, c: real | state in cache :: IsBest(t, state, c, BestFromEntries(cache[state], c))
  }

  /** The bump after a miss leaves the cached entry's time stale, yet no answer changes. */
  lemma {:induction false} StaleRowsStillAnswer(rows: seq<Entry>, t: Table, state: string, c: real, d: real, now: real)
    requires IsSelect(rows, t, state) && ClockAtLeast(t, now)
    requires BestFromEntries(rows, c).Some?
    ensures IsBest(Bumped(t, Key(state, BestFromEntries(rows, c).value), now), state, d, BestFromEntries(rows, d))
  {
    RowsAnswerForTable(rows, t, state, d);
    RowsAnswerForTable(rows, t, state, c);
    if c <= d {
      OneWinnerPerList(rows, c, d);
    } else {
      OneWinnerPerList(rows, d, c);
    }
  }

  /** Pruning at a threshold changes no answer at that confidence or above. */
  lemma {:induction false} PruningKeepsConfidentAnswers(
    t: Table, threshold: real, state: string, c: real, answer: Option<string>)
    requires c >= threshold
    ensures IsBest(Pruned(t, threshold), state, c, answer) <==> IsBest(t, state, c, answer)
  {
    var p := Pruned(t, threshold);
    if IsBest(p, state, c, answer) {
      forall k | k in t && k.state == state
        ensures answer.None? ==> Probability(t[k]) < c
        ensures answer.Some? ==> !Outranks(t[k], t[Key(state, answer.value)])
      {
        if k in p {
          assert p[k] == t[k];
        }
      }
    }
  }

  // With times all different there is one best answer.
  ghost predicate TimesDiffer(t: Table) {
    forall k, l | k in t && l in t && k != l :: t[k].lastUsed != t[l].lastUsed
  }

  lemma {:induction false} BestIsUnique(t: Table, state: string, c: real, a: Option<string>, b: Option<string>)
    requires TimesDiffer(t) && IsBest(t, state, c, a) && IsBest(t, state, c, b)
    ensures a == b
  {
    if a.Some? && b.Some? {
      assert !Outranks(t[Key(state, a.value)], t[Key(state, b.value)]);
      assert !Outranks(t[Key(state, b.value)], t[Key(state, a.value)]);
    }
  }

  // ---------- specification of the operations ----------

  datatype Graph = Graph(edges: Table, cache: Cache)

  datatype Op =
    | Get(state: string, confidence: real, rows: seq<Entry>, loadOk: bool, updateOk: bool)
    | Record(state: string, action: string, success: bool, writeOk: bool)
    | Prune(threshold: real, writeOk: bool)

  datatype Reply = Failed | Done | Deleted(count: int) | Answered(answer: Option<string>)

  const EMPTY := Graph(map[], map[])

  function Next(g: Graph, op: Op, now: real): Graph {
    match op
    case Get(state, c, rows, loadOk, updateOk) =>
      if state in g.cache || !loadOk then g
      else
        var best := BestFromEntries(rows, c);
        Graph(if best.Some? && updateOk then Bumped(g.edges, Key(state, best.value), now) else g.edges,
              g.cache[state := rows])
    case Record(state, action, success, writeOk) =>
      if !writeOk then g
      else Graph(Upserted(g.edges, Key(state, action), success, now), g.cache - {state})
    case Prune(threshold, writeOk) =>
      if !writeOk then g else Graph(Pruned(g.edges, threshold), map[])
  }

  function ReplyOf(g: Graph, op: Op): Reply {
    match op
    case Get(state, c, rows, loadOk, updateOk) =>
      if state in g.cache then Answered(BestFromEntries(g.cache[state], c))
      else if !loadOk || (BestFromEntries(rows, c).Some? && !updateOk) then Failed
      else Answered(BestFromEntries(rows, c))
    case Record(_, _, _, writeOk) => if writeOk then Done else Failed
    case Prune(threshold, writeOk) =>
      if writeOk then Deleted(|g.edges| - |Pruned(g.edges, threshold)|) else Failed
  }

  class ActionGraph {
    var edges: Table
    var cache: Cache

    ghost function Now(): Graph
      reads this
    {
      Graph(edges, cache)
    }

    constructor ()
      ensures Now() == EMPTY
    {
      edges, cache := map[], map[];
    }

    method GetBestAction(state: string, confidence: real, rows: seq<Entry>, loadOk: bool, updateOk: bool, now: real)
      returns (reply: Reply)
      modifies this
      ensures Now() == Next(old(Now()), Get(state, confidence, rows, loadOk, updateOk), now)
      ensures reply == ReplyOf(old(Now()), Get(state, confidence, rows, loadOk, updateOk))
    {
      if state in cache {
        return Answered(BestFromEntries(cache[state], confidence));
      }
      if !loadOk {
        return Failed;
      }
      var best := BestFromEntries(rows, confidence);
      cache := cache[state := rows];
      if best.Some? {
        if !updateOk {
          return Failed;
        }
        edges := Bumped(edges, Key(state, best.value), now);
      }
      return Answered(best);
    }

    method RecordOutcome(state: string, action: string, success: bool, writeOk: bool, now: real) returns (reply: Reply)
      modifies this
      ensures Now() == Next(old(Now()), Record(state, action, success, writeOk), now)
      ensures reply == ReplyOf(old(Now()), Record(state, action, success, writeOk))
    {
      if !writeOk {
        return Failed;
      }
      edges := Upserted(edges, Key(state, action), success, now);
      cache := cache - {state};
      return Done;
    }

    method PruneLowProbability(threshold: real, writeOk: bool, now: real) returns (reply: Reply)
      modifies this
      ensures Now() == Next(old(Now()), Prune(threshold, writeOk), now)
      ensures reply == ReplyOf(old(Now()), Prune(threshold, writeOk))
    {
      if !writeOk {
        return Failed;
      }
      reply := Deleted(|edges| - |Pruned(edges, threshold)|);
      edges := Pruned(edges, threshold);
      cache := map[];
    }
  }

  // ---------- whole runs ----------

  datatype Event = Event(op: Op, now: real)

  function After(g: Graph, run: seq<Event>): Graph {
    if run == [] then g else Next(After(g, run[..|run| - 1]), run[|run| - 1].op, run[|run| - 1].now)
  }

  // Queries return what the table holds at that moment, and the clock never goes back.
  ghost predicate Legal(g: Graph, run: seq<Event>) {
    forall i {:trigger run[i]} | 0 <= i < |run| ::
      && ClockAtLeast(After(g, run[..i]).edges, run[i].now)
      && (run[i].op.Get? ==> IsSelect(run[i].op.rows, After(g, run[..i]).edges, run[i].op.state))
  }

  // The clock is strictly ahead of every stored time.
  ghost predicate Ticking(g: Graph, run: seq<Event>) {
    forall i, k {:trigger run[i], After(g, run[..i]).edges[k]}
      | 0 <= i < |run| && k in After(g, run[..i]).edges :: After(g, run[..i]).edges[k].lastUsed < run[i].now
  }

  lemma {:induction false} OtherStatesUntouched(t: Table, u: Table, state: string, c: real, answer: Option<string>)
    requires forall k: Key | k.state == state :: (k in t <==> k in u) && (k in t ==> t[k] == u[k])
    requires IsBest(t, state, c, answer)
    ensures IsBest(u, state, c, answer)
  {
  }

  lemma {:induction false} MissKeepsCoherence(g: Graph, op: Op, now: real)
    requires Coherent(g.edges, g.cache) && ClockAtLeast(g.edges, now)
    requires op.Get? && op.state !in g.cache && op.loadOk && IsSelect(op.rows, g.edges, op.state)
    ensures Coherent(Next(g, op, now).edges, Next(g, op, now).cache)
  {
    var e := Next(g, op, now);
    forall state, c: real | state in e.cache
      ensures IsBest(e.edges, state, c, BestFromEntries(e.cache[state], c))
    {
      if state != op.state {
        OtherStatesUntouched(g.edges, e.edges, state, c, BestFromEntries(g.cache[state], c));
      } else if e.edges != g.edges {
        StaleRowsStillAnswer(op.rows, g.edges, state, op.confidence, c, now);
      } else {
        RowsAnswerForTable(op.rows, g.edges, state, c);
      }
    }
  }

  lemma {:induction false} StepKeepsCoherence(g: Graph, op: Op, now: real)
    requires Coherent(g.edges, g.cache) && ClockAtLeast(g.edges, now)
    requires op.Get? ==> IsSelect(op.rows, g.edges, op.state)
    ensures Coherent(Next(g, op, now).edges, Next(g, op, now).cache)
  {
    var e := Next(g, op, now);
    if op.Get? && op.state !in g.cache && op.loadOk {
      MissKeepsCoherence(g, op, now);
    } else if op.Record? && op.writeOk {
      forall state, c: real | state in e.cache
        ensures IsBest(e.edges, state, c, BestFromEntries(e.cache[state], c))
      {
        OtherStatesUntouched(g.edges, e.edges, state, c, BestFromEntries(g.cache[state], c));
      }
    }
  }

  lemma {:induction false} CoherentThroughoutEveryRun(g: Graph, run: seq<Event>)
    requires Coherent(g.edges, g.cache) && Legal(g, run)
    ensures Coherent(After(g, run).edges, After(g, run).cache)
  {
    if run == [] {
    } else {
      var n := |run| - 1;
      var front := run[..n];
      forall i | 0 <= i < n ensures front[..i] == run[..i] && front[i] == run[i] {
      }
      CoherentThroughoutEveryRun(g, front);
      assert run[n] == run[|run| - 1];
      StepKeepsCoherence(After(g, front), run[n].op, run[n].now);
    }
  }

  /** Cache refinement: in every run, including failed reads and writes, whatever a query answers is a
      best action of the table as it stands at that moment. */
  lemma {:induction false} AnswersAreBest(g: Graph, run: seq<Event>, i: nat)
    requires Coherent(g.edges, g.cache) && Legal(g, run) && i < |run| && run[i].op.Get?
    ensures var (now, op) := (After(g, run[..i]), run[i].op);
            ReplyOf(now, op).Answered? ==> IsBest(now.edges, op.state, op.confidence, ReplyOf(now, op).answer)
  {
    var front := run[..i];
    forall j | 0 <= j < i ensures front[..j] == run[..j] && front[j] == run[j] {
    }
    CoherentThroughoutEveryRun(g, front);
    RowsAnswerForTable(run[i].op.rows, After(g, front).edges, run[i].op.state, run[i].op.confidence);
  }

  lemma {:induction false} TimesStayDifferent(g: Graph, run: seq<Event>)
    requires TimesDiffer(g.edges) && Ticking(g, run)
    ensures TimesDiffer(After(g, run).edges)
  {
    if run == [] {
    } else {
      var n := |run| - 1;
      var front := run[..n];
      forall i, k | 0 <= i < n && k in After(g, front[..i]).edges
        ensures After(g, front[..i]).edges[k].lastUsed < front[i].now
      {
        assert front[..i] == run[..i];
        assert After(g, run[..i]).edges[k].lastUsed < run[i].now;
      }
      TimesStayDifferent(g, front);
      forall k | k in After(g, front).edges ensures After(g, front).edges[k].lastUsed < run[n].now {
        assert After(g, run[..n]).edges[k].lastUsed < run[n].now;
      }
    }
  }

  /** Under a strictly advancing clock the cached answer is the answer of the table, exactly: any fresh
      query of the table at that moment would give the same. */
  lemma {:induction false} AnswersEqualTheTables(g: Graph, run: seq<Event>, i: nat, freshRows: seq<Entry>)
    requires Coherent(g.edges, g.cache) && TimesDiffer(g.edges) && Legal(g, run) && Ticking(g, run)
    requires i < |run| && run[i].op.Get?
    requires IsSelect(freshRows, After(g, run[..i]).edges, run[i].op.state)
    ensures var (now, op) := (After(g, run[..i]), run[i].op);
            ReplyOf(now, op).Answered? ==> ReplyOf(now, op).answer == BestFromEntries(freshRows, op.confidence)
  {
    var (now, op) := (After(g, run[..i]), run[i].op);
    if ReplyOf(now, op).Answered? {
      AnswersAreBest(g, run, i);
      var front := run[..i];
      forall j, k | 0 <= j < i && k in After(g, front[..j]).edges
        ensures After(g, front[..j]).edges[k].lastUsed < front[j].now
      {
        assert front[..j] == run[..j];
        assert After(g, run[..j]).edges[k].lastUsed < run[j].now;
      }
      TimesStayDifferent(g, front);
      RowsAnswerForTable(freshRows, now.edges, op.state, op.confidence);
      BestIsUnique(now.edges, op.state, op.confidence, ReplyOf(now, op).answer,
                   BestFromEntries(freshRows, op.confidence));
    }
  }

  // ---------- nothing recorded is lost ----------

  function Tally(t: Table, k: Key, success: bool): nat {
    if k !in t then 0 else if success then t[k].successes else t[k].failures
  }

  // How often this outcome was written for this edge.
  function Told(run: seq<Event>, k: Key, success: bool): nat {
    if run == [] then 0
    else
      var op := run[|run| - 1].op;
      Told(run[..|run| - 1], k, success)
      + (if op.Record? && op.writeOk && Key(op.state, op.action) == k && op.success == success then 1 else 0)
  }

  lemma {:induction false} StepTallies(g: Graph, op: Op, now: real, k: Key, success: bool)
    requires !(op.Prune? && op.writeOk)
    ensures var told := op.Record? && op.writeOk && Key(op.state, op.action) == k;
            && Tally(Next(g, op, now).edges, k, success)
               == Tally(g.edges, k, success) + (if told && op.success == success then 1 else 0)
            && (k in Next(g, op, now).edges <==> k in g.edges || told)
  {
  }

  /** Between prunes every written outcome is counted once, on its own edge and on no other; queries,
      cache hits and failed writes count nothing. */
  lemma {:induction false} OutcomesCounted(g: Graph, run: seq<Event>, k: Key, success: bool)
    requires forall ev | ev in run :: !(ev.op.Prune? && ev.op.writeOk)
    ensures Tally(After(g, run).edges, k, success) == Tally(g.edges, k, success) + Told(run, k, success)
    ensures k in After(g, run).edges <==> k in g.edges || Told(run, k, true) + Told(run, k, false) > 0
  {
    if run == [] {
    } else {
      var n := |run| - 1;
      assert run[n] in run;
      OutcomesCounted(g, run[..n], k, success);
      StepTallies(After(g, run[..n]), run[n].op, run[n].now, k, success);
    }
  }

  // ---------- answers and prunes in counts ----------

  function Tries(e: Edge): nat {
    e.successes + e.failures
  }

  // An untried edge weighs as one attempt without success.
  function Weight(e: Edge): nat {
    if Tries(e) == 0 then 1 else Tries(e)
  }

  lemma {:induction false} QuotientAtLeast(s: real, n: real, c: real)
    requires n > 0.0
    ensures s / n >= c <==> s >= c * n
  {
    assert s / n * n == s;
    if s / n >= c {
      assert (s / n - c) * n >= 0.0;
    } else {
      assert (c - s / n) * n > 0.0;
    }
  }

  lemma {:induction false} QuotientsCompare(s: real, n: real, u: real, m: real)
    requires n > 0.0 && m > 0.0
    ensures s / n >= u / m <==> s * m >= u * n
  {
    QuotientAtLeast(s, n, u / m);
    QuotientAtLeast(s * m, m, u / m * n);
    assert s * m / m == s;
    assert u / m * n * m == u / m * m * n == u * n;
  }

  lemma {:induction false} ProductReal(a: nat, b: nat)
    ensures (a * b) as real == a as real * b as real
  {
  }

  lemma {:induction false} CountsCompare(s: nat, n: nat, u: nat, m: nat)
    requires n > 0 && m > 0
    ensures s as real / n as real >= u as real / m as real <==> s * m >= u * n
  {
    QuotientsCompare(s as real, n as real, u as real, m as real);
    ProductReal(s, m);
    ProductReal(u, n);
  }

  lemma {:induction false} ProbabilityIsShare(e: Edge)
    ensures Weight(e) > 0 && Probability(e) == e.successes as real / Weight(e) as real
  {
  }

  // The share of successes reaches the confidence.
  predicate Reaches(e: Edge, confidence: real) {
    e.successes as real >= confidence * Weight(e) as real
  }

  // No smaller share of successes, and with the same share used at least as late.
  predicate AtLeastAsGood(a: Edge, b: Edge) {
    var x, y := a.successes * Weight(b), b.successes * Weight(a);
    x > y || (x == y && a.lastUsed >= b.lastUsed)
  }

  // What an answer must be, in what was counted.
  ghost predicate BestInCounts(t: Table, state: string, confidence: real, answer: Option<string>) {
    match answer
    case None => forall k | k in t && k.state == state :: !Reaches(t[k], confidence)
    case Some(a) =>
      && Key(state, a) in t && Reaches(t[Key(state, a)], confidence)
      && (confidence > 0.0 ==> Tries(t[Key(state, a)]) > 0)
      && forall k | k in t && k.state == state :: AtLeastAsGood(t[Key(state, a)], t[k])
  }

  lemma {:induction false} ReachesExactly(e: Edge, c: real)
    ensures Probability(e) >= c <==> Reaches(e, c)
    ensures c > 0.0 && Reaches(e, c) ==> Tries(e) > 0
  {
    ProbabilityIsShare(e);
    QuotientAtLeast(e.successes as real, Weight(e) as real, c);
  }

  lemma {:induction false} OutranksExactly(a: Edge, b: Edge)
    ensures !Outranks(b, a) <==> AtLeastAsGood(a, b)
  {
    ProbabilityIsShare(a);
    ProbabilityIsShare(b);
    CountsCompare(a.successes, Weight(a), b.successes, Weight(b));
    CountsCompare(b.successes, Weight(b), a.successes, Weight(a));
  }

  /** A best answer is one whose edge has, of its attempts, at least the wanted share of successes, and no smaller
      share than any other edge of the state. */
  lemma {:induction false} BestExactly(t: Table, state: string, confidence: real, answer: Option<string>)
    ensures IsBest(t, state, confidence, answer) <==> BestInCounts(t, state, confidence, answer)
  {
    forall e: Edge ensures (Probability(e) >= confidence <==> Reaches(e, confidence))
                           && (confidence > 0.0 && Reaches(e, confidence) ==> Tries(e) > 0) {
      ReachesExactly(e, confidence);
    }
    forall a, b ensures !Outranks(b, a) <==> AtLeastAsGood(a, b) {
      OutranksExactly(a, b);
    }
    match answer
    case None =>
    case Some(a) =>
  }

  /** A query is answered unless its state must be loaded and cannot be, or an edge reaches the confidence and its
      time cannot be written. Whatever it answers, from the cache or from the table, is best in what the table has
      counted by then. */
  lemma {:induction false} AnswersBestInCounts(g: Graph, run: seq<Event>, i: nat)
    requires Coherent(g.edges, g.cache) && Legal(g, run) && i < |run| && run[i].op.Get?
    ensures var (now, op) := (After(g, run[..i]), run[i].op);
            && (ReplyOf(now, op).Answered? ==>
                  BestInCounts(now.edges, op.state, op.confidence, ReplyOf(now, op).answer))
            && (ReplyOf(now, op).Answered?
                <==> op.state in now.cache
                     || (op.loadOk && (op.updateOk || !SomeReaches(now.edges, op.state, op.confidence))))
            && (!ReplyOf(now, op).Answered? ==> ReplyOf(now, op) == Failed)
  {
    var (now, op) := (After(g, run[..i]), run[i].op);
    var best := BestFromEntries(op.rows, op.confidence);
    AnswersAreBest(g, run, i);
    RowsAnswerForTable(op.rows, now.edges, op.state, op.confidence);
    BestExactly(now.edges, op.state, op.confidence, best);
    BestDecides(now.edges, op.state, op.confidence, best);
    if ReplyOf(now, op).Answered? {
      BestExactly(now.edges, op.state, op.confidence, ReplyOf(now, op).answer);
    }
  }

  ghost predicate SomeReaches(t: Table, state: string, confidence: real) {
    exists k :: k in t && k.state == state && Reaches(t[k], confidence)
  }

  lemma {:induction false} BestDecides(t: Table, state: string, confidence: real, answer: Option<string>)
    requires BestInCounts(t, state, confidence, answer)
    ensures answer.Some? <==> SomeReaches(t, state, confidence)
  {
  }

  // The state was loaded, and no outcome for it and no prune came since.
  predicate Kept(run: seq<Event>, state: string, before: bool) {
    if run == [] then before
    else
      var op := run[|run| - 1].op;
      var was := Kept(run[..|run| - 1], state, before);
      match op
      case Get(queried, _, _, loadOk, _) => was || (queried == state && loadOk)
      case Record(recorded, _, _, writeOk) => was && !(recorded == state && writeOk)
      case Prune(_, writeOk) => was && !writeOk
  }

  /** The cache holds exactly the states that were loaded since they were last written to and since the last
      prune. */
  lemma {:induction false} CachedExactly(g: Graph, run: seq<Event>, state: string)
    ensures state in After(g, run).cache <==> Kept(run, state, state in g.cache)
  {
    if run == [] {
    } else {
      CachedExactly(g, run[..|run| - 1], state);
    }
  }

  /** A prune keeps exactly the edges that are untried or have at least that share of successes, as they are. */
  lemma {:induction false} PrunedExactly(t: Table, threshold: real, k: Key)
    ensures k in Pruned(t, threshold)
            <==> k in t && (Tries(t[k]) == 0 || t[k].successes as real >= threshold * Tries(t[k]) as real)
    ensures k in Pruned(t, threshold) ==> Pruned(t, threshold)[k] == t[k]
  {
    if k in t {
      ReachesExactly(t[k], threshold);
    }
  }

  /** A write that fails changes nothing and says so. An outcome is acknowledged; a prune reports how many edges
      it took out. */
  lemma {:induction false} WritesAnswered(g: Graph, op: Op, now: real)
    requires !op.Get?
    ensures !op.writeOk ==> ReplyOf(g, op) == Failed && Next(g, op, now) == g
    ensures op.writeOk && op.Record? ==> ReplyOf(g, op) == Done
    ensures op.writeOk && op.Prune? ==>
              ReplyOf(g, op) == Deleted(|set k | k in g.edges && k !in Next(g, op, now).edges|)
  {
    if op.writeOk && op.Prune? {
      var kept := Pruned(g.edges, op.threshold);
      var gone := set k | k in g.edges && k !in kept;
      assert kept.Keys <= g.edges.Keys && gone == g.edges.Keys - kept.Keys;
      assert |g.edges.Keys| == |g.edges| && |kept.Keys| == |kept|;
    }
  }

  // ---------- times ----------

  // When the edge was last written by an outcome or an answer that did not come from the cache.
  ghost function LastTouch(g: Graph, run: seq<Event>, k: Key): Option<real> {
    if run == [] then None
    else
      var (front, op) := (run[..|run| - 1], run[|run| - 1].op);
      if (op.Record? && op.writeOk && Key(op.state, op.action) == k)
         || (op.Get? && op.state == k.state && k.state !in After(g, front).cache
             && ReplyOf(After(g, front), op) == Answered(Some(k.action)))
      then Some(run[|run| - 1].now)
      else LastTouch(g, front, k)
  }

  /** An edge bears the time of the last outcome written for it or of the last answer that was not taken from the
      cache, whichever came later; failed writes and cache hits leave it alone. */
  lemma {:induction false} TimesExactly(g: Graph, run: seq<Event>, k: Key)
    requires k in After(g, run).edges
    ensures match LastTouch(g, run, k)
            case None => k in g.edges && After(g, run).edges[k].lastUsed == g.edges[k].lastUsed
            case Some(now) => After(g, run).edges[k].lastUsed == now
  {
    if run == [] {
    } else {
      var n := |run| - 1;
      if k in After(g, run[..n]).edges {
        TimesExactly(g, run[..n], k);
      }
    }
  }
}
