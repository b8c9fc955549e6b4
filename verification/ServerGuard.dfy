/** The health-poll machine that decides when a managed server is restarted. */
module ServerGuard {
  import opened Sequences

  const FAILURE_THRESHOLD: nat := 3

  datatype Action = Nothing | Restart

  // ---------- one poll ----------

  datatype Health = Health(manages: bool, everHealthy: bool, failures: nat)

  function Ticked(h: Health, healthy: bool): (Health, Action) {
    if healthy then (h.(everHealthy := true, failures := 0), Nothing)
    else if !h.manages || !h.everHealthy then (h, Nothing)
    else if h.failures + 1 >= FAILURE_THRESHOLD then (h.(failures := 0), Restart)
    else (h.(failures := h.failures + 1), Nothing)
  }

  class ServerHealth {
    const manages: bool
    var everHealthy: bool
    var failures: nat

    ghost function Now(): Health
      reads this
    {
      Health(manages, everHealthy, failures)
    }

    constructor (manages: bool)
      ensures Now() == Fresh(manages)
    {
      this.manages := manages;
      everHealthy, failures := false, 0;
    }

    method Tick(healthy: bool) returns (action: Action)
      modifies this
      ensures (Now(), action) == Ticked(old(Now()), healthy)
    {
      if healthy {
        everHealthy := true;
        failures := 0;
        return Nothing;
      }
      if !manages || !everHealthy {
        return Nothing;
      }
      failures := failures + 1;
      if failures >= FAILURE_THRESHOLD {
        failures := 0;
        return Restart;
      }
      return Nothing;
    }

    // A whole sequence of polls.
    method Watch(polls: seq<bool>) returns (actions: seq<Action>)
      requires Now() == Fresh(manages)
      modifies this
      ensures actions == Actions(manages, polls) && Now() == After(manages, polls)
    {
      actions := [];
      var i := 0;
      while i < |polls|
        invariant 0 <= i <= |polls|
        invariant actions == Actions(manages, polls[..i]) && Now() == After(manages, polls[..i])
      {
        assert polls[..i + 1][..i] == polls[..i];
        var action := Tick(polls[i]);
        actions := actions + [action];
        i := i + 1;
      }
      assert polls[..i] == polls;
    }
  }

  // ---------- whole poll sequences ----------

  function Fresh(manages: bool): Health {
    Health(manages, false, 0)
  }

  function After(manages: bool, polls: seq<bool>): Health {
    if polls == [] then Fresh(manages)
    else Ticked(After(manages, polls[..|polls| - 1]), polls[|polls| - 1]).0
  }

  function Actions(manages: bool, polls: seq<bool>): (r: seq<Action>)
    ensures |r| == |polls|
  {
    if polls == [] then []
    else Actions(manages, polls[..|polls| - 1]) + [Ticked(After(manages, polls[..|polls| - 1]), polls[|polls| - 1]).1]
  }

  // How many polls in a row, up to now, found the server down.
  function DownFor(polls: seq<bool>): nat {
    if polls == [] || polls[|polls| - 1] then 0 else 1 + DownFor(polls[..|polls| - 1])
  }

  lemma {:induction false} HealthExactly(manages: bool, polls: seq<bool>)
    ensures After(manages, polls)
            == Health(
              manages, true in polls, if manages && true in polls then DownFor(polls) % FAILURE_THRESHOLD else 0)
  {
    if polls == [] {
    } else {
      var front := polls[..|polls| - 1];
      HealthExactly(manages, front);
      assert polls == front + [polls[|polls| - 1]];
      NextRemainder(DownFor(front));
    }
  }

  lemma {:induction false} NextRemainder(n: nat)
    ensures (n + 1) % 3 == if n % 3 == 2 then 0 else n % 3 + 1
  {
  }

  lemma {:induction false} ActionsPrefix(manages: bool, polls: seq<bool>, i: nat)
    requires i < |polls|
    ensures Actions(manages, polls)[i] == Ticked(After(manages, polls[..i]), polls[i]).1
  {
    if i < |polls| - 1 {
      ActionsPrefix(manages, polls[..|polls| - 1], i);
      assert polls[..|polls| - 1][..i] == polls[..i];
    }
  }

  /** A poll asks for a restart exactly when the server is managed, has been seen healthy, and the
      current run of unhealthy polls has reached a multiple of the threshold. */
  lemma {:induction false} RestartExactly(manages: bool, polls: seq<bool>, i: nat)
    requires i < |polls|
    ensures Actions(manages, polls)[i] == Restart
            <==> manages && true in polls[..i] && !polls[i] && DownFor(polls[..i + 1]) % 3 == 0
  {
    ActionsPrefix(manages, polls, i);
    HealthExactly(manages, polls[..i]);
    assert polls[..i + 1][..i] == polls[..i];
    NextRemainder(DownFor(polls[..i]));
  }

  // ---------- how many restarts ----------

  function Restarts(actions: seq<Action>): nat {
    if actions == [] then 0
    else Restarts(actions[..|actions| - 1]) + (if actions[|actions| - 1] == Restart then 1 else 0)
  }

  // The lengths of the unhealthy runs that follow the healthy polls, one for each healthy poll.
  function Runs(polls: seq<bool>): seq<nat> {
    if polls == [] then []
    else
      var front := Runs(polls[..|polls| - 1]);
      if polls[|polls| - 1] then front + [0]
      else if front == [] then []
      else front[|front| - 1 := front[|front| - 1] + 1]
  }

  function Down(n: nat): seq<bool> {
    if n == 0 then [] else Down(n - 1) + [false]
  }

  function Spelled(runs: seq<nat>): seq<bool> {
    if runs == [] then [] else Spelled(runs[..|runs| - 1]) + ([true] + Down(runs[|runs| - 1]))
  }

  lemma {:induction false} SpelledGrows(runs: seq<nat>)
    ensures Spelled(runs + [0]) == Spelled(runs) + [true]
    ensures runs != [] ==>
              var n := |runs| - 1; Spelled(runs[n := runs[n] + 1]) == Spelled(runs) + [false]
  {
    assert (runs + [0])[..|runs|] == runs;
    assert [true] + Down(0) == [true];
    if runs != [] {
      var n := |runs| - 1;
      assert runs[n := runs[n] + 1][..n] == runs[..n];
      Grouped(Spelled(runs[..n]), [true] + Down(runs[n]), [false]);
      Grouped([true], Down(runs[n]), [false]);
    }
  }

  lemma {:induction false} SpelledOn(grace: nat, runs: seq<nat>, more: seq<nat>, last: bool)
    requires Spelled(more) == Spelled(runs) + [last]
    ensures (Down(grace) + Spelled(runs)) + [last] == Down(grace) + Spelled(more)
  {
    Grouped(Down(grace), Spelled(runs), [last]);
  }

  lemma {:induction false} GraceGrows(grace: nat)
    ensures (Down(grace) + []) + [false] == Down(grace + 1) + []
  {
  }

  // The runs are the poll sequence from its first healthy poll on.
  lemma {:induction false} RunsSpellPolls(polls: seq<bool>) returns (grace: nat)
    ensures polls == Down(grace) + Spelled(Runs(polls))
  {
    if polls == [] {
      grace := 0;
    } else {
      var front := polls[..|polls| - 1];
      grace := RunsSpellPolls(front);
      assert polls == front + [polls[|polls| - 1]];
      SpelledGrows(Runs(front));
      if Runs(front) != [] || polls[|polls| - 1] {
        SpelledOn(grace, Runs(front), Runs(polls), polls[|polls| - 1]);
      } else {
        GraceGrows(grace);
        grace := grace + 1;
      }
    }
  }

  function Thirds(runs: seq<nat>): nat {
    if runs == [] then 0 else Thirds(runs[..|runs| - 1]) + runs[|runs| - 1] / 3
  }

  lemma {:induction false} LastRun(polls: seq<bool>)
    ensures Runs(polls) == [] <==> true !in polls
    ensures Runs(polls) != [] ==> Runs(polls)[|Runs(polls)| - 1] == DownFor(polls)
  {
    if polls == [] {
    } else {
      LastRun(polls[..|polls| - 1]);
      assert polls == polls[..|polls| - 1] + [polls[|polls| - 1]];
    }
  }

  lemma {:induction false} ThirdsGrow(runs: seq<nat>)
    ensures Thirds(runs + [0]) == Thirds(runs)
    ensures runs != [] ==>
              var n := |runs| - 1;
              Thirds(runs[n := runs[n] + 1]) == Thirds(runs) + (if (runs[n] + 1) % FAILURE_THRESHOLD == 0 then 1 else 0)
  {
    assert (runs + [0])[..|runs|] == runs;
    if runs != [] {
      var n := |runs| - 1;
      assert runs[n := runs[n] + 1][..n] == runs[..n];
      NextThird(runs[n]);
    }
  }

  lemma {:induction false} NextThird(n: nat)
    ensures (n + 1) / 3 == n / 3 + if (n + 1) % 3 == 0 then 1 else 0
  {
  }

  /** Over every poll sequence a managed server is restarted once for every third poll of each run of
      unhealthy polls after a healthy one, and an unmanaged server never. */
  lemma {:induction false} RestartsTotal(manages: bool, polls: seq<bool>)
    ensures Restarts(Actions(manages, polls)) == if manages then Thirds(Runs(polls)) else 0
  {
    if polls == [] {
    } else {
      var front, i := polls[..|polls| - 1], |polls| - 1;
      var actions := Actions(manages, polls);
      RestartsTotal(manages, front);
      assert actions[..i] == Actions(manages, front);
      RestartExactly(manages, polls, i);
      assert polls[..i + 1] == polls;
      LastRun(front);
      ThirdsGrow(Runs(front));
    }
  }
}
