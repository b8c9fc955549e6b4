/** Running a command sub-goal: reform and retry within a budget, and advance only on a verified success.
    What commands do, what postconditions show and what the model proposes are inputs. */
module CommandRetry {
  import opened Text
  import opened Wrappers

  const REFORM_LIMIT: nat := 2

  datatype Failure = CommandNotFound | NoSuchPath | PermissionDenied | OtherFailure

  datatype Reason = NeedsRights(failure: Failure) | BudgetExhausted | NoFurtherFix

  datatype Action = Advance | Retry(command: string) | Escalate(reason: Reason)

  // ---------- reading the output ----------

  function StripPrefix(s: string, prefix: string): Option<string> {
    if StartsWith(s, prefix) then Some(s[|prefix|..]) else None
  }

  function StripSuffix(s: string, c: char): Option<string> {
    if s != "" && s[|s| - 1] == c then Some(s[..|s| - 1]) else None
  }

  function ExitCode(output: string): Option<int> {
    var lines := Lines(output);
    if lines == [] then None
    else
      match StripPrefix(Trim(lines[0]), "[exit ")
      case None => None
      case Some(rest) =>
        match StripSuffix(rest, ']')
        case None => None
        case Some(digits) => ParseSigned(digits, 0x8000_0000)
  }

  /** The marker that the command channel puts before its output is read back as the exit code. */
  lemma {:induction false} ExitCodeRead(n: nat, rest: string)
    requires n < 0x8000_0000
    ensures ExitCode("[exit " + (Decimal(n) + "]") + ("\n" + rest)) == Some(n)
  {
    var line := "[exit " + (Decimal(n) + "]");
    FirstLineRead(line, rest);
    assert TrimStart(line) == line && TrimEnd(line) == line;
    assert line[..6] == "[exit " && line[6..] == Decimal(n) + "]";
    assert (Decimal(n) + "]")[..|Decimal(n)|] == Decimal(n);
    DecimalParsed(n);
  }

  // The first line is the marker around these digits.
  ghost predicate Marked(output: string, digits: string) {
    Lines(output) != [] && Trim(Lines(output)[0]) == "[exit " + (digits + "]")
  }

  /** There is an exit code exactly where the first line is a marker around a 32-bit number. */
  lemma {:induction false} ExitCodeExactly(output: string, n: int)
    ensures ExitCode(output) == Some(n)
            <==> exists digits :: Marked(output, digits) && ParseSigned(digits, 0x8000_0000) == Some(n)
  {
    if Lines(output) != [] {
      var line := Trim(Lines(output)[0]);
      forall digits | line == "[exit " + (digits + "]") ensures ExitCode(output) == ParseSigned(digits, 0x8000_0000) {
        assert line[..6] == "[exit " && line[6..] == digits + "]";
        assert (digits + "]")[..|digits|] == digits;
      }
      if ExitCode(output).Some? {
        var rest := line[6..];
        var digits := rest[..|rest| - 1];
        assert line == "[exit " + (digits + "]");
        assert Marked(output, digits);
      }
    }
  }

  function Diagnose(output: string): Failure {
    var lo := Lower(output);
    if ExitCode(output) == Some(127) || Contains(lo, "command not found") then CommandNotFound
    else if ExitCode(output) == Some(126)
            || Contains(lo, "permission denied") || Contains(lo, "operation not permitted") then PermissionDenied
    else if Contains(lo, "no such file or directory") then NoSuchPath
    else OtherFailure
  }

  predicate ShouldReform(f: Failure) {
    f != PermissionDenied
  }

  // ---------- one decision ----------

  function Usable(candidate: Option<string>): Option<string> {
    match candidate
    case None => None
    case Some(c) => if Trim(c) == "" || Lower(Trim(c)) == "give_up" then None else Some(Trim(c))
  }

  function Decide(output: string, candidate: Option<string>, tried: set<string>, limit: nat): Action {
    if ExitCode(output) == Some(0) then Advance
    else if !ShouldReform(Diagnose(output)) then Escalate(NeedsRights(Diagnose(output)))
    else if |tried| > limit then Escalate(BudgetExhausted)
    else
      match Usable(candidate)
      case Some(c) => if c in tried then Escalate(NoFurtherFix) else Retry(c)
      case None => Escalate(NoFurtherFix)
  }

  // ---------- the loop ----------

  // Everything the branch asks of the outside, which may depend on all commands executed so far.
  datatype World = World(
    run: seq<string> -> string,
    postcondition: string -> Option<string>,
    check: (seq<string>, string) -> string,
    reform: (seq<string>, string) -> Option<string>)

  datatype Outcome = Outcome(advanced: bool, executed: seq<string>)

  // Exit 0 although the postcondition of the command does not hold.
  predicate EffectAbsent(w: World, executed: seq<string>, cmd: string, output: string) {
    && ExitCode(output) == Some(0)
    && w.postcondition(cmd).Some?
    && ExitCode(w.check(executed, w.postcondition(cmd).value)) != Some(0)
  }

  function Candidate(w: World, executed: seq<string>, output: string, tried: set<string>): Option<string> {
    if ExitCode(output) != Some(0) && ShouldReform(Diagnose(output)) && |tried| <= REFORM_LIMIT
    then w.reform(executed, output)
    else None
  }

  // What becomes of a command that comes after those done.
  function Branch(w: World, done: seq<string>, cmd: string, tried: set<string>): Outcome
    decreases if |tried| <= REFORM_LIMIT then REFORM_LIMIT + 1 - |tried| else 0
  {
    var executed := done + [cmd];
    var output := w.run(executed);
    if EffectAbsent(w, executed, cmd, output) then Outcome(false, executed)
    else
      match Decide(output, Candidate(w, executed, output, tried), tried, REFORM_LIMIT)
      case Advance => Outcome(true, executed)
      case Escalate(_) => Outcome(false, executed)
      case Retry(next) => Branch(w, executed, next, tried + {next})
  }

  method RunCommand(w: World, cmd0: string) returns (advanced: bool, executed: seq<string>)
    ensures Outcome(advanced, executed) == Branch(w, [], cmd0, {cmd0})
  {
    var cmd, tried := cmd0, {cmd0};
    executed := [];
    while true
      invariant Branch(w, executed, cmd, tried) == Branch(w, [], cmd0, {cmd0})
      decreases if |tried| <= REFORM_LIMIT then REFORM_LIMIT + 1 - |tried| else 0
    {
      executed := executed + [cmd];
      var output := w.run(executed);
      if ExitCode(output) == Some(0) {
        var check := w.postcondition(cmd);
        if check.Some? && ExitCode(w.check(executed, check.value)) != Some(0) {
          return false, executed;
        }
      }
      var candidate := Candidate(w, executed, output, tried);
      match Decide(output, candidate, tried, REFORM_LIMIT) {
        case Advance => return true, executed;
        case Escalate(_) => return false, executed;
        case Retry(next) =>
          tried := tried + {next};
          cmd := next;
      }
    }
  }

  // ---------- what every run of the loop keeps ----------

  ghost predicate Distinct(s: seq<string>) {
    forall i, j | 0 <= i < j < |s| :: s[i] != s[j]
  }

  // The commands already run and the one about to run are exactly the tried ones.
  ghost predicate Ready(done: seq<string>, cmd: string, tried: set<string>) {
    Distinct(done + [cmd]) && |tried| == |done| + 1 && forall c :: c in tried <==> c in done + [cmd]
  }

  // The phrase stands in the output, in whatever case.
  ghost predicate Says(output: string, phrase: string) {
    exists i :: StandsAt(Lower(output), phrase, i)
  }

  // The program was found, and rights were missing.
  ghost predicate Denied(output: string) {
    && ExitCode(output) != Some(127) && !Says(output, "command not found")
    && (ExitCode(output) == Some(126) || Says(output, "permission denied") || Says(output, "operation not permitted"))
  }

  // The model proposed this command: anything but blanks and giving up.
  predicate Proposes(candidate: Option<string>, next: string) {
    candidate.Some? && next == Trim(candidate.value) != "" && Lower(next) != "give_up"
  }

  // A failure other than for missing rights called for the next command, which the model proposed.
  ghost predicate Reformed(w: World, executed: seq<string>, next: string) {
    var output := w.run(executed);
    ExitCode(output) != Some(0) && !Denied(output) && Proposes(w.reform(executed, output), next)
  }

  /** The diagnosis: a missing program by its exit code 127 or its message, then missing rights by theirs, then a
      missing path by its message alone. */
  lemma {:induction false} DiagnosedExactly(output: string)
    ensures var (d, missing) := (Diagnose(output), ExitCode(output) == Some(127) || Says(output, "command not found"));
            && (d == CommandNotFound <==> missing)
            && (d == PermissionDenied <==> Denied(output))
            && (d == NoSuchPath <==> !missing && !Denied(output) && Says(output, "no such file or directory"))
    ensures ShouldReform(Diagnose(output)) <==> !Denied(output)
  {
    ContainsExactly(Lower(output), "command not found");
    ContainsExactly(Lower(output), "permission denied");
    ContainsExactly(Lower(output), "operation not permitted");
    ContainsExactly(Lower(output), "no such file or directory");
  }

  lemma {:induction false} UsableExactly(candidate: Option<string>, next: string)
    ensures Usable(candidate) == Some(next) <==> Proposes(candidate, next)
  {
  }

  // Its last command exited 0, and the postcondition derived from that command, if any, held.
  predicate Verified(w: World, executed: seq<string>)
    requires executed != []
  {
    var cmd := executed[|executed| - 1];
    && ExitCode(w.run(executed)) == Some(0)
    && (w.postcondition(cmd).Some? ==> ExitCode(w.check(executed, w.postcondition(cmd).value)) == Some(0))
  }

  // Nothing more could be done: an effect is absent, rights are missing, three commands have run, or the model
  // proposes nothing new.
  ghost predicate Exhausted(w: World, executed: seq<string>)
    requires executed != []
  {
    var output := w.run(executed);
    || (ExitCode(output) == Some(0) && !Verified(w, executed))
    || (ExitCode(output) != Some(0) &&
        (|| Denied(output)
         || |executed| >= 3
         || forall next | Proposes(w.reform(executed, output), next) :: next in executed))
  }

  lemma {:induction false} NextReady(done: seq<string>, cmd: string, tried: set<string>, next: string)
    requires Ready(done, cmd, tried) && next !in tried
    ensures Ready(done + [cmd], next, tried + {next})
  {
    var executed := done + [cmd];
    forall i | 0 <= i < |executed| ensures executed[i] != next {
      assert executed[i] in executed;
    }
  }

  // The decision after a command that ran and whose effect is not known to be absent.
  function Decision(w: World, executed: seq<string>, tried: set<string>): Action {
    Decide(w.run(executed), Candidate(w, executed, w.run(executed), tried), tried, REFORM_LIMIT)
  }

  predicate Retries(w: World, executed: seq<string>, cmd: string, tried: set<string>) {
    !EffectAbsent(w, executed, cmd, w.run(executed)) && Decision(w, executed, tried).Retry?
  }

  lemma {:induction false} StepRetries(w: World, done: seq<string>, cmd: string, tried: set<string>)
    requires Ready(done, cmd, tried) && Retries(w, done + [cmd], cmd, tried)
    ensures var next := Decision(w, done + [cmd], tried).command;
            Reformed(w, done + [cmd], next) && next !in tried && |tried| <= REFORM_LIMIT
  {
    var executed := done + [cmd];
    DiagnosedExactly(w.run(executed));
    UsableExactly(w.reform(executed, w.run(executed)), Decision(w, executed, tried).command);
  }

  lemma {:induction false} StepEnds(w: World, done: seq<string>, cmd: string, tried: set<string>)
    requires Ready(done, cmd, tried) && !Retries(w, done + [cmd], cmd, tried)
    ensures var r := Branch(w, done, cmd, tried);
            && r.executed == done + [cmd] && (r.advanced <==> Verified(w, r.executed))
            && (!r.advanced ==> Exhausted(w, r.executed))
  {
    var executed := done + [cmd];
    DiagnosedExactly(w.run(executed));
    forall next ensures Usable(w.reform(executed, w.run(executed))) == Some(next)
                        <==> Proposes(w.reform(executed, w.run(executed)), next) {
      UsableExactly(w.reform(executed, w.run(executed)), next);
    }
  }

  // What holds of the outcome of a command that comes after those done.
  ghost predicate Exact(w: World, done: seq<string>, cmd: string, r: Outcome) {
    && |done| < |r.executed| <= REFORM_LIMIT + 1 && r.executed[..|done| + 1] == done + [cmd]
    && Distinct(r.executed)
    && (forall i | |done| + 1 <= i < |r.executed| :: Reformed(w, r.executed[..i], r.executed[i]))
    && (r.advanced <==> Verified(w, r.executed))
    && (!r.advanced ==> Exhausted(w, r.executed))
  }

  lemma {:induction false} ExactBefore(w: World, done: seq<string>, cmd: string, next: string, r: Outcome)
    requires Exact(w, done + [cmd], next, r) && Reformed(w, done + [cmd], next)
    ensures Exact(w, done, cmd, r)
  {
    var n := |done| + 1;
    assert r.executed[..n] == r.executed[..n + 1][..n];
    assert r.executed[n] == r.executed[..n + 1][n];
  }

  lemma {:induction false} BranchExactly(w: World, done: seq<string>, cmd: string, tried: set<string>)
    requires Ready(done, cmd, tried) && |done| <= REFORM_LIMIT
    ensures Exact(w, done, cmd, Branch(w, done, cmd, tried))
    decreases REFORM_LIMIT - |done|
  {
    var executed := done + [cmd];
    if Retries(w, executed, cmd, tried) {
      var next := Decision(w, executed, tried).command;
      StepRetries(w, done, cmd, tried);
      NextReady(done, cmd, tried, next);
      BranchExactly(w, executed, next, tried + {next});
      ExactBefore(w, done, cmd, next, Branch(w, executed, next, tried + {next}));
    } else {
      StepEnds(w, done, cmd, tried);
    }
  }

  /** Whatever the world and the model do: at most three executions, no command twice, each later command proposed by
      the model after a failure other than for missing rights, and success exactly when the last command exited 0
      and its postcondition, where it has one, held. It gives up only when nothing is left to try. */
  lemma {:induction false} RetryLoopExactly(w: World, cmd0: string)
    ensures var r := Branch(w, [], cmd0, {cmd0});
            && 1 <= |r.executed| <= 3 && r.executed[0] == cmd0 && Distinct(r.executed)
            && (forall i | 1 <= i < |r.executed| :: Reformed(w, r.executed[..i], r.executed[i]))
            && (r.advanced <==> Verified(w, r.executed))
            && (!r.advanced ==> Exhausted(w, r.executed))
  {
    assert [] + [cmd0] == [cmd0];
    BranchExactly(w, [], cmd0, {cmd0});
    assert Branch(w, [], cmd0, {cmd0}).executed[..1][0] == cmd0;
  }
}
