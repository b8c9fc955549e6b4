/** The memory tiers: hot entries in RAM, warm and cold rows in a table, with decay, drain and pruning.
    Row identifiers, the clock, the order of query results and the failures of the database are inputs. */
module MemoryTiers {
  import opened Arith
  import opened Wrappers

  type Id = string

  datatype Tier = Warm | Cold

  datatype Entry = Entry(id: Id, text: string, temp: real, accessedAt: int, accesses: nat)

  datatype Row = Row(text: string, tier: Tier, temp: real, accessedAt: int, accesses: nat)

  type Table = map<Id, Row>

  const FLOOR: real := 0.05

  function Heated(temp: real): real {
    if temp + 0.2 < 1.0 then temp + 0.2 else 1.0
  }

  // ---------- lists of entries ----------

  function Ids(es: seq<Entry>): seq<Id> {
    seq(|es|, i requires 0 <= i < |es| => es[i].id)
  }

  function Cooled(es: seq<Entry>, factor: real): seq<Entry> {
    seq(|es|, i requires 0 <= i < |es| => es[i].(temp := es[i].temp * (1.0 - factor)))
  }

  function AtLeast(es: seq<Entry>, temp: real): seq<Entry> {
    if es == [] then []
    else
      var front := AtLeast(es[..|es| - 1], temp);
      if es[|es| - 1].temp >= temp then front + [es[|es| - 1]] else front
  }

  function Below(es: seq<Entry>, temp: real): seq<Entry> {
    if es == [] then []
    else
      var front := Below(es[..|es| - 1], temp);
      if es[|es| - 1].temp < temp then front + [es[|es| - 1]] else front
  }

  function IndexOf(es: seq<Entry>, id: Id): (r: Option<nat>)
    ensures r.Some? ==> r.value < |es| && es[r.value].id == id
    ensures r.None? ==> forall e | e in es :: e.id != id
  {
    if es == [] then None
    else if es[0].id == id then Some(0)
    else
      match IndexOf(es[1..], id)
      case None => None
      case Some(i) => Some(i + 1)
  }

  // ---------- rows ----------

  function CooledRows(t: Table, factor: real): Table {
    map id | id in t ::
      if t[id].tier == Cold then t[id] else t[id].(temp := t[id].temp * (1.0 - factor))
  }

  function Surviving(t: Table): Table {
    map id | id in t && (t[id].tier == Cold || t[id].temp >= FLOOR) :: t[id]
  }

  function WarmIds(t: Table): set<Id> {
    set id | id in t && t[id].tier == Warm
  }

  // ---------- specification of the operations ----------

  datatype Memory = Memory(hot: seq<Entry>, rows: Table)

  function Pushed(m: Memory, id: Id, text: string, now: int): Memory {
    m.(hot := m.hot + [Entry(id, text, 1.0, now, 0)])
  }

  function Inserted(m: Memory, id: Id, row: Row): Memory {
    if id in m.rows then m else m.(rows := m.rows[id := row])
  }

  function Reinforced(m: Memory, id: Id, now: int): Memory {
    match IndexOf(m.hot, id)
    case Some(i) =>
      var e := m.hot[i];
      m.(hot := m.hot[i := e.(temp := Heated(e.temp), accessedAt := now, accesses := e.accesses + 1)])
    case None =>
      if id !in m.rows then m
      else
        var r := m.rows[id];
        m.(rows := m.rows[id := r.(temp := Heated(r.temp), accessedAt := now, accesses := r.accesses + 1)])
  }

  // The hot tier always cools; the rows as far as the two statements on them succeed.
  function Decayed(m: Memory, factor: real, updateOk: bool, deleteOk: bool): Memory {
    Memory(AtLeast(Cooled(m.hot, factor), FLOOR),
           if !updateOk then m.rows
           else if !deleteOk then CooledRows(m.rows, factor)
           else Surviving(CooledRows(m.rows, factor)))
  }

  // ---------- what warming and cooling do ----------

  function AtMostOne(temp: real): real {
    if temp > 1.0 then 1.0 else temp
  }

  /** Reinforcing warms the first hot entry of the identifier, else its row, by 0.2 up to 1.0, counts the access and
      notes its time; nothing else changes, and of an identifier that is nowhere nothing does. */
  lemma {:induction false} ReinforcedExactly(m: Memory, id: Id, now: int)
    ensures var n := Reinforced(m, id, now);
            if exists e :: e in m.hot && e.id == id then
              && n.rows == m.rows && |n.hot| == |m.hot|
              && exists i | 0 <= i < |m.hot| ::
                   && m.hot[i].id == id && (forall j | 0 <= j < i :: m.hot[j].id != id)
                   && n.hot[i] == Entry(id, m.hot[i].text, AtMostOne(m.hot[i].temp + 0.2), now, m.hot[i].accesses + 1)
                   && forall j | 0 <= j < |m.hot| && j != i :: n.hot[j] == m.hot[j]
            else
              && n.hot == m.hot && n.rows.Keys == m.rows.Keys
              && (forall k | k in m.rows && k != id :: n.rows[k] == m.rows[k])
              && (id in m.rows ==>
                    var r := m.rows[id];
                    n.rows[id] == Row(r.text, r.tier, AtMostOne(r.temp + 0.2), now, r.accesses + 1))
  {
    FirstOf(m.hot, id);
  }

  lemma {:induction false} FirstOf(es: seq<Entry>, id: Id)
    ensures IndexOf(es, id).Some? ==> forall j | 0 <= j < IndexOf(es, id).value :: es[j].id != id
  {
    if es == [] {
    } else {
      FirstOf(es[1..], id);
    }
  }

  // What is left of a temperature.
  function Less(temp: real, factor: real): real {
    temp * (1.0 - factor)
  }

  /** Decay takes a share of every temperature that is not cold. A row is dropped when both statements succeed, it is
      not cold, and what is left is below 0.05; cold rows stay as they are. */
  lemma {:induction false} RowsDecayedExactly(m: Memory, factor: real, updateOk: bool, deleteOk: bool, id: Id)
    ensures var rows := Decayed(m, factor, updateOk, deleteOk).rows;
            && (id in rows <==>
                  id in m.rows
                  && !(updateOk && deleteOk && m.rows[id].tier == Warm && Less(m.rows[id].temp, factor) < 0.05))
            && (id in rows ==>
                  rows[id] == if updateOk && m.rows[id].tier == Warm
                              then m.rows[id].(temp := Less(m.rows[id].temp, factor)) else m.rows[id])
  {
  }

  /** Hot entries cool whatever becomes of the rows, and those below 0.05 are dropped. */
  lemma {:induction false} HotDecayedExactly(m: Memory, factor: real, updateOk: bool, deleteOk: bool, e: Entry)
    ensures e in Decayed(m, factor, updateOk, deleteOk).hot
            <==> e.temp >= 0.05 && exists d :: d in m.hot && e == d.(temp := Less(d.temp, factor))
  {
    AtLeastSelects(Cooled(m.hot, factor), FLOOR, e);
    CooledExactly(m.hot, factor, e);
  }

  lemma {:induction false} CooledExactly(es: seq<Entry>, factor: real, e: Entry)
    ensures e in Cooled(es, factor) <==> exists d :: d in es && e == d.(temp := Less(d.temp, factor))
  {
    var cooled := Cooled(es, factor);
    forall i | 0 <= i < |es| ensures cooled[i] == es[i].(temp := Less(es[i].temp, factor)) && es[i] in es {
    }
    if d :| d in es && e == d.(temp := Less(d.temp, factor)) {
      var i :| 0 <= i < |es| && es[i] == d;
      assert cooled[i] in cooled;
    }
  }

  lemma {:induction false} AtLeastSelects(es: seq<Entry>, temp: real, e: Entry)
    ensures e in AtLeast(es, temp) <==> e in es && e.temp >= temp
    ensures e in Below(es, temp) <==> e in es && e.temp < temp
  {
    if es == [] {
    } else {
      AtLeastSelects(es[..|es| - 1], temp, e);
      assert es == es[..|es| - 1] + [es[|es| - 1]];
    }
  }

  // ---------- pruning by information value ----------

  // V of a row from its temperature, its age in seconds and its access count.
  type Worth = (real, nat, nat) -> real

  function Age(r: Row, now: int): nat {
    if now > r.accessedAt then now - r.accessedAt else 0
  }

  function ValueOf(t: Table, id: Id, now: int, worth: Worth): real
    requires id in t
  {
    worth(t[id].temp, Age(t[id], now), t[id].accesses)
  }

  datatype Scored = Scored(id: Id, value: real)

  // Placed behind everything of at most its value, so equal values keep their order.
  function InsertScored(x: Scored, xs: seq<Scored>): seq<Scored> {
    if xs == [] || x.value < xs[0].value then [x] + xs else [xs[0]] + InsertScored(x, xs[1..])
  }

  function SortScored(xs: seq<Scored>): seq<Scored> {
    if xs == [] then [] else InsertScored(xs[|xs| - 1], SortScored(xs[..|xs| - 1]))
  }

  ghost predicate Ascending(xs: seq<Scored>) {
    forall i, j | 0 <= i < j < |xs| :: xs[i].value <= xs[j].value
  }

  lemma {:induction false} InsertKeepsAll(x: Scored, xs: seq<Scored>)
    ensures multiset(InsertScored(x, xs)) == multiset(xs) + multiset{x}
    decreases xs
  {
    if xs != [] && x.value >= xs[0].value {
      InsertKeepsAll(x, xs[1..]);
      assert xs == [xs[0]] + xs[1..];
    }
  }

  lemma {:induction false} InsertedElements(x: Scored, xs: seq<Scored>, y: Scored)
    requires y in InsertScored(x, xs)
    ensures y == x || y in xs
  {
    InsertKeepsAll(x, xs);
    assert y in multiset(InsertScored(x, xs));
  }

  lemma {:induction false} InsertKeepsOrder(x: Scored, xs: seq<Scored>)
    requires Ascending(xs)
    ensures Ascending(InsertScored(x, xs))
    decreases xs
  {
    if xs != [] && x.value >= xs[0].value {
      var tail := InsertScored(x, xs[1..]);
      InsertKeepsOrder(x, xs[1..]);
      forall j | 0 <= j < |tail| ensures xs[0].value <= tail[j].value {
        InsertedElements(x, xs[1..], tail[j]);
      }
    }
  }

  lemma {:induction false} SortSorts(xs: seq<Scored>)
    ensures Ascending(SortScored(xs))
    ensures multiset(SortScored(xs)) == multiset(xs)
  {
    if xs == [] {
    } else {
      SortSorts(xs[..|xs| - 1]);
      InsertKeepsOrder(xs[|xs| - 1], SortScored(xs[..|xs| - 1]));
      InsertKeepsAll(xs[|xs| - 1], SortScored(xs[..|xs| - 1]));
      assert xs == xs[..|xs| - 1] + [xs[|xs| - 1]];
    }
  }

  // Those of one value, in their order.
  function OfValue(xs: seq<Scored>, v: real): seq<Scored> {
    if xs == [] then [] else OfValue(xs[..|xs| - 1], v) + (if xs[|xs| - 1].value == v then [xs[|xs| - 1]] else [])
  }

  lemma {:induction false} OfValueFirst(x: Scored, xs: seq<Scored>, v: real)
    ensures OfValue([x] + xs, v) == (if x.value == v then [x] else []) + OfValue(xs, v)
    decreases |xs|
  {
    if xs == [] {
      assert [x] + xs == [x] && [x][..0] == [];
    } else {
      var n := |xs| - 1;
      assert ([x] + xs)[..|[x] + xs| - 1] == [x] + xs[..n];
      OfValueFirst(x, xs[..n], v);
    }
  }

  lemma {:induction false} InsertStable(x: Scored, xs: seq<Scored>, v: real)
    requires Ascending(xs)
    ensures OfValue(InsertScored(x, xs), v) == OfValue(xs, v) + (if x.value == v then [x] else [])
    decreases xs
  {
    if xs == [] || x.value < xs[0].value {
      InFrontOfAll(x, xs, v);
    } else {
      InsertStable(x, xs[1..], v);
      BehindFirst(xs[0], InsertScored(x, xs[1..]), xs[1..], v, if x.value == v then [x] else []);
      assert xs == [xs[0]] + xs[1..];
    }
  }

  lemma {:induction false} InFrontOfAll(x: Scored, xs: seq<Scored>, v: real)
    requires forall y | y in xs :: x.value < y.value
    ensures OfValue([x] + xs, v) == OfValue(xs, v) + (if x.value == v then [x] else [])
  {
    OfValueFirst(x, xs, v);
    if x.value == v {
      NoneOfValue(xs, v);
    }
  }

  lemma {:induction false} BehindFirst(first: Scored, tail: seq<Scored>, xs: seq<Scored>, v: real, more: seq<Scored>)
    requires OfValue(tail, v) == OfValue(xs, v) + more
    ensures OfValue([first] + tail, v) == OfValue([first] + xs, v) + more
  {
    OfValueFirst(first, tail, v);
    OfValueFirst(first, xs, v);
  }

  lemma {:induction false} NoneOfValue(xs: seq<Scored>, v: real)
    requires forall x | x in xs :: x.value != v
    ensures OfValue(xs, v) == []
  {
    if xs == [] {
    } else {
      NoneOfValue(xs[..|xs| - 1], v);
    }
  }

  /** Rows of the same value keep the order of the query. */
  lemma {:induction false} SortStable(xs: seq<Scored>, v: real)
    ensures OfValue(SortScored(xs), v) == OfValue(xs, v)
  {
    if xs == [] {
    } else {
      SortStable(xs[..|xs| - 1], v);
      SortSorts(xs[..|xs| - 1]);
      InsertStable(xs[|xs| - 1], SortScored(xs[..|xs| - 1]), v);
    }
  }

  function Score(ids: seq<Id>, t: Table, now: int, worth: Worth): seq<Scored>
    requires forall id | id in ids :: id in t
  {
    seq(|ids|, i requires 0 <= i < |ids| => Scored(ids[i], ValueOf(t, ids[i], now, worth)))
  }

  function FirstIds(xs: seq<Scored>, n: nat): set<Id>
    requires n <= |xs|
  {
    set i | 0 <= i < n :: xs[i].id
  }

  // How the database can fail a prune: the count, the query, single rows of its result, and the DELETE after
  // so many that succeed.
  datatype Faults = Faults(countOk: bool, selectOk: bool, unreadable: set<Id>, deletes: Option<nat>)

  const NO_FAULTS := Faults(true, true, {}, None)

  // ids lists the readable warm rows once each, in the order the query happened to return them
  ghost predicate ListsWarm(ids: seq<Id>, t: Table, unreadable: set<Id>) {
    && (forall id | id in ids :: id in WarmIds(t) - unreadable)
    && (forall id | id in WarmIds(t) - unreadable :: id in ids)
    && (forall i, j | 0 <= i < j < |ids| :: ids[i] != ids[j])
  }

  // How many rows are deleted.
  function Removed(count: nat, readable: nat, max: nat, faults: Faults): nat {
    if !faults.countOk || count <= max || !faults.selectOk then 0
    else
      var n := Least(count - max, readable);
      match faults.deletes
      case None => n
      case Some(k) => Least(k, n)
  }

  function PrunedIds(t: Table, ids: seq<Id>, max: nat, now: int, worth: Worth, faults: Faults): set<Id>
    requires forall id | id in ids :: id in t
  {
    var scored := SortScored(Score(ids, t, now, worth));
    SortSorts(Score(ids, t, now, worth));
    SameSize(scored, Score(ids, t, now, worth));
    FirstIds(scored, Removed(|WarmIds(t)|, |ids|, max, faults))
  }

  lemma {:induction false} SameSize(xs: seq<Scored>, ys: seq<Scored>)
    requires multiset(xs) == multiset(ys)
    ensures |xs| == |ys|
  {
    assert |multiset(xs)| == |xs| && |multiset(ys)| == |ys|;
  }

  function Pruned(m: Memory, ids: seq<Id>, max: nat, now: int, worth: Worth, faults: Faults): Memory
    requires forall id | id in ids :: id in m.rows
  {
    m.(rows := m.rows - PrunedIds(m.rows, ids, max, now, worth, faults))
  }

  // ---------- what pruning guarantees ----------

  lemma {:induction false} ScoredIdsDiffer(xs: seq<Scored>, ys: seq<Scored>)
    requires multiset(xs) == multiset(ys)
    requires forall i, j | 0 <= i < j < |ys| :: ys[i].id != ys[j].id
    ensures forall i, j | 0 <= i < j < |xs| :: xs[i].id != xs[j].id
  {
    forall i, j | 0 <= i < j < |xs| ensures xs[i].id != xs[j].id {
      if xs[i].id == xs[j].id {
        assert xs[i] in multiset(ys) && xs[j] in multiset(ys);
        assert xs[i] in ys && xs[j] in ys;
        if xs[i] == xs[j] {
          TwiceInRepeated(xs, i, j);
          OnceInDistinct(ys, xs[i]);
        }
      }
    }
  }

  lemma {:induction false} TwiceInRepeated(xs: seq<Scored>, i: nat, j: nat)
    requires i < j < |xs| && xs[i] == xs[j]
    ensures multiset(xs)[xs[i]] >= 2
  {
    var front, back := xs[..j], xs[j..];
    assert xs == front + back;
    assert front[i] in multiset(front) && back[0] in multiset(back);
  }

  lemma {:induction false} OnceInDistinct(ys: seq<Scored>, y: Scored)
    requires forall i, j | 0 <= i < j < |ys| :: ys[i].id != ys[j].id
    ensures multiset(ys)[y] <= 1
  {
    if ys == [] {
    } else {
      var front, last := ys[..|ys| - 1], ys[|ys| - 1];
      OnceInDistinct(front, y);
      assert ys == front + [last];
    }
  }

  lemma {:induction false} FirstIdsCount(xs: seq<Scored>, n: nat)
    requires n <= |xs| && forall i, j | 0 <= i < j < |xs| :: xs[i].id != xs[j].id
    ensures |FirstIds(xs, n)| == n
  {
    if n == 0 {
    } else {
      FirstIdsCount(xs, n - 1);
      assert FirstIds(xs, n) == FirstIds(xs, n - 1) + {xs[n - 1].id};
    }
  }

  // What a row is worth by its temperature, the seconds since its last access (none if that lies ahead) and the
  // number of accesses.
  function Holds(r: Row, now: int, worth: Worth): real {
    worth(r.temp, if r.accessedAt < now then now - r.accessedAt else 0, r.accesses)
  }

  lemma {:induction false} ListSize(ids: seq<Id>, s: set<Id>)
    requires forall i, j | 0 <= i < j < |ids| :: ids[i] != ids[j]
    requires (forall id | id in ids :: id in s) && forall id | id in s :: id in ids
    ensures |ids| == |s|
  {
    if ids == [] {
      assert s == {};
    } else {
      var last := ids[|ids| - 1];
      assert ids == ids[..|ids| - 1] + [last];
      assert last in ids;
      ListSize(ids[..|ids| - 1], s - {last});
    }
  }

  // Where a listed row stands once the scores are sorted.
  lemma {:induction false} StandsSorted(t: Table, ids: seq<Id>, now: int, worth: Worth, s: Id) returns (j: nat)
    requires s in ids && forall id | id in ids :: id in t
    ensures var sorted := SortScored(Score(ids, t, now, worth));
            j < |sorted| && sorted[j] == Scored(s, ValueOf(t, s, now, worth))
  {
    var score := Score(ids, t, now, worth);
    var sorted := SortScored(score);
    SortSorts(score);
    var k :| 0 <= k < |ids| && ids[k] == s;
    assert score[k] in multiset(sorted);
    j :| 0 <= j < |sorted| && sorted[j] == score[k];
  }

  lemma {:induction false} SortedIsListed(t: Table, ids: seq<Id>, now: int, worth: Worth, i: nat)
    requires forall id | id in ids :: id in t
    requires i < |SortScored(Score(ids, t, now, worth))|
    ensures var p := SortScored(Score(ids, t, now, worth))[i];
            p.id in ids && p.value == ValueOf(t, p.id, now, worth)
  {
    var score := Score(ids, t, now, worth);
    var sorted := SortScored(score);
    SortSorts(score);
    assert sorted[i] in multiset(score);
    var l :| 0 <= l < |score| && score[l] == sorted[i];
    assert ids[l] == sorted[i].id;
  }

  lemma {:induction false} PruneOrder(
    t: Table, ids: seq<Id>, max: nat, now: int, worth: Worth, faults: Faults, p: Id, s: Id)
    requires forall id | id in ids :: id in t
    requires p in PrunedIds(t, ids, max, now, worth, faults)
    requires s in ids && s !in PrunedIds(t, ids, max, now, worth, faults)
    ensures p in ids && ValueOf(t, p, now, worth) <= ValueOf(t, s, now, worth)
  {
    var sorted := SortScored(Score(ids, t, now, worth));
    SortSorts(Score(ids, t, now, worth));
    SameSize(sorted, Score(ids, t, now, worth));
    var n := Removed(|WarmIds(t)|, |ids|, max, faults);
    var i :| 0 <= i < n && sorted[i].id == p;
    SortedIsListed(t, ids, now, worth, i);
    var j := StandsSorted(t, ids, now, worth, s);
    assert j >= n;
  }

  /** However the database fails: as many warm rows go as the deletions that succeed, every readable survivor is
      worth at least as much as every row removed, and nothing but warm rows is touched. */
  lemma {:induction false} PruneKeepsTheBest(m: Memory, ids: seq<Id>, max: nat, now: int, worth: Worth, faults: Faults)
    requires ListsWarm(ids, m.rows, faults.unreadable)
    ensures var e := Pruned(m, ids, max, now, worth, faults);
            && |WarmIds(e.rows)| == |WarmIds(m.rows)| - Removed(|WarmIds(m.rows)|, |ids|, max, faults)
            && (forall p, s | p in WarmIds(m.rows) - WarmIds(e.rows) && s in WarmIds(e.rows) - faults.unreadable ::
                  Holds(m.rows[p], now, worth) <= Holds(m.rows[s], now, worth))
            && (forall id | id in m.rows && (m.rows[id].tier == Cold || id in WarmIds(e.rows)) ::
                  id in e.rows && e.rows[id] == m.rows[id])
            && e.rows.Keys <= m.rows.Keys && e.hot == m.hot
  {
    var gone := PrunedIds(m.rows, ids, max, now, worth, faults);
    var e := Pruned(m, ids, max, now, worth, faults);
    PrunedAreListed(m.rows, ids, max, now, worth, faults);
    assert WarmIds(e.rows) == WarmIds(m.rows) - gone;
    forall p, s | p in WarmIds(m.rows) - WarmIds(e.rows) && s in WarmIds(e.rows) - faults.unreadable
      ensures Holds(m.rows[p], now, worth) <= Holds(m.rows[s], now, worth)
    {
      PruneOrder(m.rows, ids, max, now, worth, faults, p, s);
    }
  }

  /** The bound is met if and only if it was met before, or the count and the query succeed, enough of the surplus
      is readable, and as many deletions succeed. */
  lemma {:induction false} PruneBoundExactly(m: Memory, ids: seq<Id>, max: nat, now: int, worth: Worth, faults: Faults)
    requires ListsWarm(ids, m.rows, faults.unreadable)
    ensures var before, after := |WarmIds(m.rows)|, |WarmIds(Pruned(m, ids, max, now, worth, faults).rows)|;
            && (after <= max
                <==> before <= max
                     || (faults.countOk && faults.selectOk && before - max <= |ids|
                         && (faults.deletes.Some? ==> before - max <= faults.deletes.value)))
            && (faults == NO_FAULTS ==> after == Least(before, max))
  {
    PruneKeepsTheBest(m, ids, max, now, worth, faults);
    if faults == NO_FAULTS {
      ListSize(ids, WarmIds(m.rows));
    }
  }

  lemma {:induction false} SortedAreListed(t: Table, ids: seq<Id>, now: int, worth: Worth, sorted: seq<Scored>)
    requires forall id | id in ids :: id in t && t[id].tier == Warm
    requires forall i, j | 0 <= i < j < |ids| :: ids[i] != ids[j]
    requires sorted == SortScored(Score(ids, t, now, worth))
    ensures |sorted| == |ids| && forall i | 0 <= i < |sorted| :: sorted[i].id in WarmIds(t)
    ensures forall i, j | 0 <= i < j < |sorted| :: sorted[i].id != sorted[j].id
  {
    var score := Score(ids, t, now, worth);
    SortSorts(score);
    SameSize(sorted, score);
    ScoredIdsDiffer(sorted, score);
    forall i | 0 <= i < |sorted| ensures sorted[i].id in WarmIds(t) {
      assert sorted[i] in multiset(score);
      var k :| 0 <= k < |score| && score[k] == sorted[i];
      assert ids[k] in ids;
    }
  }

  lemma {:induction false} PrunedAreListed(
    t: Table, ids: seq<Id>, max: nat, now: int, worth: Worth, faults: Faults)
    requires ListsWarm(ids, t, faults.unreadable)
    ensures var gone := PrunedIds(t, ids, max, now, worth, faults);
            gone <= WarmIds(t) && |gone| == Removed(|WarmIds(t)|, |ids|, max, faults)
  {
    var sorted := SortScored(Score(ids, t, now, worth));
    SortedAreListed(t, ids, now, worth, sorted);
    FirstIdsCount(sorted, Removed(|WarmIds(t)|, |ids|, max, faults));
  }

  // ---------- the object ----------

  class MemoryTiers {
    var hot: seq<Entry>
    var rows: Table

    ghost function Now(): Memory
      reads this
    {
      Memory(hot, rows)
    }

    // Nothing is hot when the store is opened, whatever it holds.
    constructor (stored: Table)
      ensures Now() == Memory([], stored)
    {
      hot, rows := [], stored;
    }

    method PushHot(id: Id, text: string, now: int)
      modifies this`hot
      ensures Now() == Pushed(old(Now()), id, text, now)
    {
      hot := hot + [Entry(id, text, 1.0, now, 0)];
    }

    method PushEpisode(id: Id, stored: string, now: int, writeOk: bool) returns (ok: bool)
      modifies this`rows
      ensures Now() == if writeOk then Inserted(old(Now()), id, Row(stored, Cold, 1.0, now, 0)) else old(Now())
      ensures ok <==> writeOk && id !in old(rows)
    {
      if !writeOk || id in rows {
        return false;
      }
      rows := rows[id := Row(stored, Cold, 1.0, now, 0)];
      return true;
    }

    method PromoteWarmSummary(id: Id, summary: string, now: int, writeOk: bool) returns (ok: bool)
      modifies this`rows
      ensures Now() == if writeOk then Inserted(old(Now()), id, Row(summary, Warm, 0.8, now, 0)) else old(Now())
      ensures ok <==> writeOk && id !in old(rows)
    {
      if !writeOk || id in rows {
        return false;
      }
      rows := rows[id := Row(summary, Warm, 0.8, now, 0)];
      return true;
    }

    // Only an entry that is not hot needs the database.
    method Reinforce(id: Id, now: int, dbOk: bool) returns (ok: bool)
      modifies this
      ensures Now() == if dbOk || id in Ids(old(hot)) then Reinforced(old(Now()), id, now) else old(Now())
      ensures ok <==> id in Ids(old(hot)) || (dbOk && id in old(rows))
    {
      var at := IndexOf(hot, id);
      if at.Some? {
        var e := hot[at.value];
        assert Ids(hot)[at.value] == id;
        hot := hot[at.value := e.(temp := Heated(e.temp), accessedAt := now, accesses := e.accesses + 1)];
        return true;
      }
      if !dbOk || id !in rows {
        return false;
      }
      var r := rows[id];
      rows := rows[id := r.(temp := Heated(r.temp), accessedAt := now, accesses := r.accesses + 1)];
      return true;
    }

    method DecayAll(factor: real, updateOk: bool, deleteOk: bool) returns (ok: bool)
      modifies this
      ensures Now() == Decayed(old(Now()), factor, updateOk, deleteOk)
      ensures ok <==> updateOk && deleteOk
    {
      var i := 0;
      while i < |hot|
        invariant 0 <= i <= |hot| == |old(hot)|
        invariant rows == old(rows)
        invariant forall k | 0 <= k < i :: hot[k] == Cooled(old(hot), factor)[k]
        invariant forall k | i <= k < |hot| :: hot[k] == old(hot)[k]
      {
        hot := hot[i := hot[i].(temp := hot[i].temp * (1.0 - factor))];
        i := i + 1;
      }
      assert hot == Cooled(old(hot), factor);
      var kept := [];
      i := 0;
      while i < |hot|
        invariant 0 <= i <= |hot| && hot == Cooled(old(hot), factor) && rows == old(rows)
        invariant kept == AtLeast(hot[..i], FLOOR)
      {
        assert hot[..i + 1][..i] == hot[..i];
        if hot[i].temp >= FLOOR {
          kept := kept + [hot[i]];
        }
        i := i + 1;
      }
      assert hot[..i] == hot;
      hot := kept;
      if !updateOk {
        return false;
      }
      rows := CooledRows(rows, factor);
      if !deleteOk {
        return false;
      }
      rows := Surviving(rows);
      return true;
    }

    method DrainCoolHot(threshold: real) returns (cool: seq<Entry>)
      modifies this`hot
      ensures cool == Below(old(hot), threshold) && hot == AtLeast(old(hot), threshold)
    {
      var stay: seq<Entry> := [];
      cool := [];
      var i := 0;
      while i < |hot|
        invariant 0 <= i <= |hot| && hot == old(hot)
        invariant cool == Below(hot[..i], threshold) && stay == AtLeast(hot[..i], threshold)
      {
        assert hot[..i + 1][..i] == hot[..i];
        if hot[i].temp < threshold {
          cool := cool + [hot[i]];
        } else {
          stay := stay + [hot[i]];
        }
        i := i + 1;
      }
      assert hot[..i] == hot;
      hot := stay;
    }

    // The readable warm rows, in whatever order the query returns them.
    method SelectWarm(unreadable: set<Id>) returns (ids: seq<Id>)
      ensures ListsWarm(ids, rows, unreadable)
    {
      var all := WarmIds(rows) - unreadable;
      var left := all;
      ids := [];
      while left != {}
        invariant left <= all
        invariant forall id | id in ids :: id in all - left
        invariant forall id | id in all - left :: id in ids
        invariant forall i, j | 0 <= i < j < |ids| :: ids[i] != ids[j]
        decreases left
      {
        var id :| id in left;
        assert id !in ids;
        ids := ids + [id];
        left := left - {id};
      }
    }

    // How many rows were pruned, or None for an error; ids are the rows the query gave or would have given.
    method EntropyPruneWarm(max: nat, now: int, worth: Worth, faults: Faults)
      returns (pruned: Option<nat>, ids: seq<Id>)
      modifies this`rows
      ensures ListsWarm(ids, old(rows), faults.unreadable)
      ensures Now() == Pruned(old(Now()), ids, max, now, worth, faults)
      ensures pruned.Some? ==> pruned.value == Removed(|WarmIds(old(rows))|, |ids|, max, faults)
      ensures pruned.None? <==>
                faults.countOk && |WarmIds(old(rows))| > max
                && (!faults.selectOk
                    || (faults.deletes.Some? && faults.deletes.value < Least(|WarmIds(old(rows))| - max, |ids|)))
    {
      ids := SelectWarm(faults.unreadable);
      var count := if faults.countOk then |WarmIds(rows)| else 0;
      if count <= max {
        assert rows - {} == rows;
        return Some(0), ids;
      }
      if !faults.selectOk {
        assert rows - {} == rows;
        return None, ids;
      }
      var scored := SortScored(Score(ids, rows, now, worth));
      PruneList(rows, ids, max, now, worth, faults, scored);
      var n := Least(count - max, |scored|);
      var done := DeleteFirst(scored, n, faults.deletes);
      return if done == n then Some(n) else None, ids;
    }

    // The lowest-valued rows go, one DELETE each, until one fails.
    method DeleteFirst(scored: seq<Scored>, n: nat, deletes: Option<nat>) returns (done: nat)
      requires n <= |scored|
      modifies this`rows
      ensures done == (if deletes.Some? then Least(deletes.value, n) else n)
      ensures rows == old(rows) - FirstIds(scored, done)
    {
      done := 0;
      while done < n
        invariant done <= n && (deletes.Some? ==> done <= deletes.value)
        invariant rows == old(rows) - FirstIds(scored, done)
      {
        if deletes == Some(done) {
          return;
        }
        RemoveOneMore(old(rows), scored, done);
        rows := rows - {scored[done].id};
        done := done + 1;
      }
    }
  }

  lemma {:induction false} PruneList(
    t: Table, ids: seq<Id>, max: nat, now: int, worth: Worth, faults: Faults, scored: seq<Scored>)
    requires (forall id | id in ids :: id in t) && scored == SortScored(Score(ids, t, now, worth))
    ensures |scored| == |ids|
    ensures PrunedIds(t, ids, max, now, worth, faults) == FirstIds(scored, Removed(|WarmIds(t)|, |ids|, max, faults))
  {
    SortSorts(Score(ids, t, now, worth));
    SameSize(scored, Score(ids, t, now, worth));
  }

  lemma {:induction false} RemoveOneMore(t: Table, xs: seq<Scored>, n: nat)
    requires n < |xs|
    ensures (t - FirstIds(xs, n)) - {xs[n].id} == t - FirstIds(xs, n + 1)
  {
    assert FirstIds(xs, n + 1) == FirstIds(xs, n) + {xs[n].id};
  }
}
