/** Splitting a goal into ordered sub-goals on explicit sequence markers. */
module GoalDecomposition {
  import opened Sequences
  import opened Text
  import opened Wrappers

  // What a goal is split on: the markers, the one that belongs to the shell inside a command, and the
  // phrases that lead a command.
  datatype Rules = Rules(markers: seq<string>, shellOp: string, leads: seq<string>)

  const RULES := Rules(
    [", and then ", " and then ", ", then ", " then ", "; ", " after that "],
    "; ",
    ["run the command", "run command", "execute the command", "execute command",
     "run shell command", "run shell", "run:", "$ "])

  predicate CommandLed(p: string, rules: Rules) {
    exists lead | lead in rules.leads :: StartsWith(Lower(p), lead)
  }

  ghost predicate Proper(rules: Rules) {
    (forall m | m in rules.markers :: m != "") && Lower(rules.shellOp) == rules.shellOp
  }

  // ---------- one cut ----------

  datatype Cut = Cut(at: nat, len: nat)

  // The markers in force: inside a command payload the semicolon belongs to the shell.
  function Kept(markers: seq<string>, shellOp: string, isCommand: bool): seq<string> {
    if markers == [] then []
    else if isCommand && markers[0] == shellOp then Kept(markers[1..], shellOp, isCommand)
    else [markers[0]] + Kept(markers[1..], shellOp, isCommand)
  }

  function Active(p: string, rules: Rules): seq<string> {
    Kept(rules.markers, rules.shellOp, CommandLed(p, rules))
  }

  // The leftmost occurrence of any marker; the first marker of the list where two stand at one place.
  function Earliest(markers: seq<string>, lower: string): (r: Option<Cut>)
    ensures r.Some? ==> r.value.at + r.value.len <= |lower|
  {
    if markers == [] then None
    else
      var rest := Earliest(markers[1..], lower);
      match Find(lower, markers[0])
      case None => rest
      case Some(i) =>
        if rest.Some? && rest.value.at < i then rest else Some(Cut(i, |markers[0]|))
  }

  function CutOf(p: string, rules: Rules): (r: Option<Cut>)
    ensures r.Some? ==> r.value.at + r.value.len <= |p|
  {
    Earliest(Active(p, rules), Lower(p))
  }

  ghost predicate MarkerFree(s: string, markers: seq<string>, upTo: int) {
    forall m, j | m in markers && j < upTo :: !StandsAt(s, m, j)
  }

  lemma {:induction false} EarliestExactly(markers: seq<string>, s: string)
    ensures match Earliest(markers, s)
            case None => MarkerFree(s, markers, |s| + 1)
            case Some(c) =>
              MarkerFree(s, markers, c.at) && exists m | m in markers :: |m| == c.len && StandsAt(s, m, c.at)
    decreases |markers|
  {
    if markers == [] {
    } else {
      EarliestExactly(markers[1..], s);
      assert markers == [markers[0]] + markers[1..];
      forall j | StandsAt(s, markers[0], j) ensures Find(s, markers[0]).Some? && Find(s, markers[0]).value <= j {
        FindIsFirst(s, markers[0], j);
      }
      if Find(s, markers[0]).Some? {
        assert StandsAt(s, markers[0], Find(s, markers[0]).value);
      }
    }
  }

  lemma {:induction false} KeptExactly(markers: seq<string>, shellOp: string, isCommand: bool, m: string)
    ensures m in Kept(markers, shellOp, isCommand) <==> m in markers && !(isCommand && m == shellOp)
    decreases |markers|
  {
    if markers == [] {
    } else {
      KeptExactly(markers[1..], shellOp, isCommand, m);
      assert markers == [markers[0]] + markers[1..];
    }
  }

  // The marker that a part is cut at.
  predicate CutsAt(p: string, c: Cut, m: string, rules: Rules) {
    && m in Active(p, rules) && m in rules.markers && |m| == c.len
    && StandsAt(Lower(p), m, c.at) && !(CommandLed(p, rules) && m == rules.shellOp)
  }

  /** A part is cut at its first active marker, or not at all when it holds none. */
  lemma {:induction false} CutExactly(p: string, rules: Rules)
    ensures match CutOf(p, rules)
            case None => MarkerFree(Lower(p), Active(p, rules), |p| + 1)
            case Some(c) => MarkerFree(Lower(p), Active(p, rules), c.at) && exists m :: CutsAt(p, c, m, rules)
  {
    EarliestExactly(Active(p, rules), Lower(p));
    if CutOf(p, rules).Some? {
      var c := CutOf(p, rules).value;
      var m :| m in Active(p, rules) && |m| == c.len && StandsAt(Lower(p), m, c.at);
      KeptExactly(rules.markers, rules.shellOp, CommandLed(p, rules), m);
      assert CutsAt(p, c, m, rules);
    }
  }

  // What separates the steps of a goal.
  predicate Separates(m: string) {
    m == ", and then " || m == " and then " || m == ", then " || m == " then " || m == "; " || m == " after that "
  }

  // What a command starts with, in lower case.
  predicate LeadsCommand(lead: string) {
    || lead == "run the command" || lead == "run command" || lead == "execute the command"
    || lead == "execute command" || lead == "run shell command" || lead == "run shell" || lead == "run:"
    || lead == "$ "
  }

  ghost predicate IsCommand(p: string) {
    exists lead :: LeadsCommand(lead) && StartsWith(Lower(p), lead)
  }

  // A separator stands here, and not the semicolon of a command.
  ghost predicate SeparatesAt(p: string, m: string, i: int) {
    Separates(m) && !(m == "; " && IsCommand(p)) && StandsAt(Lower(p), m, i)
  }

  lemma {:induction false} Listed(xs: seq<string>, m: string)
    ensures m in xs <==> exists i :: 0 <= i < |xs| && xs[i] == m
  {
  }

  lemma {:induction false} MarkersExactly(m: string)
    ensures m in RULES.markers <==> Separates(m)
    ensures RULES.shellOp == "; "
  {
    Listed(RULES.markers, m);
  }

  lemma {:induction false} LeadsExactly(m: string)
    ensures m in RULES.leads <==> LeadsCommand(m)
  {
    Listed(RULES.leads, m);
  }

  lemma {:induction false} CommandExactly(p: string)
    ensures CommandLed(p, RULES) <==> IsCommand(p)
  {
    forall lead ensures lead in RULES.leads <==> LeadsCommand(lead) {
      LeadsExactly(lead);
    }
  }

  lemma {:induction false} SeparatorsActive(p: string, m: string)
    ensures m in Active(p, RULES) <==> Separates(m) && !(m == "; " && IsCommand(p))
  {
    KeptExactly(RULES.markers, RULES.shellOp, CommandLed(p, RULES), m);
    MarkersExactly(m);
    CommandExactly(p);
  }

  /** A goal is cut at the first of the six separators in it, whatever its case, the semicolon counting only outside
      a command; it is a single step exactly where none stands. */
  lemma {:induction false} GoalCutExactly(p: string)
    ensures match CutOf(p, RULES)
            case None => forall m, i :: !SeparatesAt(p, m, i)
            case Some(c) =>
              && (exists m :: |m| == c.len && SeparatesAt(p, m, c.at))
              && forall m, i | SeparatesAt(p, m, i) :: c.at <= i
  {
    CutExactly(p, RULES);
    forall m ensures m in Active(p, RULES) <==> Separates(m) && !(m == "; " && IsCommand(p)) {
      SeparatorsActive(p, m);
    }
    forall m, i | SeparatesAt(p, m, i) ensures m in Active(p, RULES) && i < |p| + 1 && StandsAt(Lower(p), m, i) {
    }
    if CutOf(p, RULES).Some? {
      var c := CutOf(p, RULES).value;
      var m :| CutsAt(p, c, m, RULES);
      assert SeparatesAt(p, m, c.at);
    }
  }

  function Before(p: string, c: Cut): string
    requires c.at + c.len <= |p|
  {
    Trim(p[..c.at])
  }

  function Behind(p: string, c: Cut): string
    requires c.at + c.len <= |p|
  {
    Trim(p[c.at + c.len..])
  }

  lemma {:induction false} CutShortens(p: string, rules: Rules)
    requires Proper(rules)
    ensures match CutOf(p, rules)
            case None => true
            case Some(c) => |Before(p, c)| + |Behind(p, c)| < |p|
  {
    CutExactly(p, rules);
    if CutOf(p, rules).Some? {
      var c := CutOf(p, rules).value;
      var m :| CutsAt(p, c, m, rules);
      var a, b := Trimmed(p[..c.at]);
      var d, e := Trimmed(p[c.at + c.len..]);
    }
  }

  // ---------- all cuts ----------

  function Parts(p: string, rules: Rules): seq<string>
    requires Proper(rules)
    decreases |p|
  {
    CutShortens(p, rules);
    match CutOf(p, rules)
    case None => if p == "" then [] else [p]
    case Some(c) => Parts(Before(p, c), rules) + Parts(Behind(p, c), rules)
  }

  // ---------- the passes ----------

  function AllParts(ps: seq<string>, rules: Rules): seq<string>
    requires Proper(rules)
  {
    if ps == [] then [] else AllParts(ps[..|ps| - 1], rules) + Parts(ps[|ps| - 1], rules)
  }

  function TotalLength(ps: seq<string>): nat {
    if ps == [] then 0 else TotalLength(ps[..|ps| - 1]) + |ps[|ps| - 1]|
  }

  function NonEmpty(ps: seq<string>): seq<string> {
    if ps == [] then []
    else NonEmpty(ps[..|ps| - 1]) + (if ps[|ps| - 1] == "" then [] else [ps[|ps| - 1]])
  }

  lemma {:induction false} Appended(ps: seq<string>, p: string, rules: Rules)
    requires Proper(rules)
    ensures AllParts(ps + [p], rules) == AllParts(ps, rules) + Parts(p, rules)
    ensures TotalLength(ps + [p]) == TotalLength(ps) + |p|
    ensures NonEmpty(ps + [p]) == NonEmpty(ps) + (if p == "" then [] else [p])
  {
    assert (ps + [p])[..|ps|] == ps;
  }

  ghost predicate Uncut(ps: seq<string>, rules: Rules) {
    forall p | p in ps :: CutOf(p, rules).None?
  }

  lemma {:induction false} UncutParts(ps: seq<string>, rules: Rules)
    requires Proper(rules) && Uncut(ps, rules)
    ensures AllParts(ps, rules) == NonEmpty(ps)
  {
    if ps == [] {
    } else {
      assert ps[|ps| - 1] in ps;
      UncutParts(ps[..|ps| - 1], rules);
    }
  }

  method Decompose(goal: string, rules: Rules) returns (parts: seq<string>)
    requires Proper(rules)
    ensures parts == Parts(Trim(goal), rules)
  {
    parts := [Trim(goal)];
    Appended([], Trim(goal), rules);
    assert [] + [Trim(goal)] == parts && [] + Parts(Trim(goal), rules) == Parts(Trim(goal), rules);
    var splitAny := true;
    while splitAny
      invariant AllParts(parts, rules) == Parts(Trim(goal), rules)
      invariant !splitAny ==> Uncut(parts, rules)
      decreases TotalLength(parts), splitAny
    {
      parts, splitAny := SplitPass(parts, rules);
    }
    UncutParts(parts, rules);
    parts := DropEmpty(parts);
  }

  // What a pass has made of the parts done so far.
  ghost predicate Passed(done: seq<string>, next: seq<string>, splitAny: bool, rules: Rules)
    requires Proper(rules)
  {
    && AllParts(next, rules) == AllParts(done, rules)
    && TotalLength(next) <= TotalLength(done) - (if splitAny then 1 else 0)
    && (!splitAny ==> next == done && Uncut(done, rules))
  }

  method SplitPass(parts: seq<string>, rules: Rules) returns (next: seq<string>, splitAny: bool)
    requires Proper(rules)
    ensures Passed(parts, next, splitAny, rules)
  {
    next, splitAny := [], false;
    var i := 0;
    while i < |parts|
      invariant 0 <= i <= |parts|
      invariant Passed(parts[..i], next, splitAny, rules)
    {
      assert parts[..i + 1] == parts[..i] + [parts[i]];
      var pieces := SplitOnce(parts[i], rules);
      PassedOne(parts[..i], next, splitAny, parts[i], pieces, rules);
      next := next + pieces;
      splitAny := splitAny || |pieces| == 2;
      i := i + 1;
    }
    assert parts[..i] == parts;
  }

  ghost predicate Pieces(p: string, pieces: seq<string>, rules: Rules)
    requires Proper(rules)
  {
    && AllParts(pieces, rules) == Parts(p, rules)
    && ((pieces == [p] && CutOf(p, rules).None?) || (|pieces| == 2 && TotalLength(pieces) < |p|))
  }

  lemma {:induction false} PassedOne(done: seq<string>, next: seq<string>, splitAny: bool, p: string,
                                     pieces: seq<string>, rules: Rules)
    requires Proper(rules) && Passed(done, next, splitAny, rules) && Pieces(p, pieces, rules)
    ensures Passed(done + [p], next + pieces, splitAny || |pieces| == 2, rules)
  {
    Appended(done, p, rules);
    AppendedMore(next, pieces, rules);
    if pieces == [p] {
      OnePart(p, rules);
    }
  }

  // A part as it enters the next pass: itself, or its two trimmed halves.
  method SplitOnce(p: string, rules: Rules) returns (pieces: seq<string>)
    requires Proper(rules)
    ensures Pieces(p, pieces, rules)
  {
    CutShortens(p, rules);
    match CutOf(p, rules) {
      case Some(c) =>
        pieces := [Before(p, c)] + [Behind(p, c)];
        TwoParts(Before(p, c), Behind(p, c), rules);
      case None =>
        pieces := [p];
        OnePart(p, rules);
    }
  }

  lemma {:induction false} OnePart(p: string, rules: Rules)
    requires Proper(rules)
    ensures AllParts([p], rules) == Parts(p, rules) && TotalLength([p]) == |p|
  {
    Appended([], p, rules);
    assert [] + [p] == [p] && [] + Parts(p, rules) == Parts(p, rules);
  }

  lemma {:induction false} TwoParts(p: string, q: string, rules: Rules)
    requires Proper(rules)
    ensures AllParts([p] + [q], rules) == Parts(p, rules) + Parts(q, rules) && TotalLength([p] + [q]) == |p| + |q|
  {
    OnePart(p, rules);
    Appended([p], q, rules);
  }

  lemma {:induction false} AppendedMore(ps: seq<string>, qs: seq<string>, rules: Rules)
    requires Proper(rules)
    ensures AllParts(ps + qs, rules) == AllParts(ps, rules) + AllParts(qs, rules)
    ensures TotalLength(ps + qs) == TotalLength(ps) + TotalLength(qs)
    decreases |qs|
  {
    if qs == [] {
      assert ps + qs == ps;
    } else {
      var front, last := qs[..|qs| - 1], qs[|qs| - 1];
      AppendedMore(ps, front, rules);
      Appended(front, last, rules);
      Appended(ps + front, last, rules);
      assert qs == front + [last] && ps + qs == (ps + front) + [last];
      Grouped(AllParts(ps, rules), AllParts(front, rules), Parts(last, rules));
    }
  }

  method DropEmpty(parts: seq<string>) returns (kept: seq<string>)
    ensures kept == NonEmpty(parts)
  {
    kept := [];
    var i := 0;
    while i < |parts|
      invariant 0 <= i <= |parts| && kept == NonEmpty(parts[..i])
    {
      assert parts[..i + 1][..i] == parts[..i];
      if parts[i] != "" {
        kept := kept + [parts[i]];
      }
      i := i + 1;
    }
    assert parts[..i] == parts;
  }

  // ---------- what the parts are ----------

  ghost predicate Clean(q: string, rules: Rules) {
    q != "" && Trim(q) == q && MarkerFree(Lower(q), Active(q, rules), |q| + 1)
  }

  lemma {:induction false} PartsClean(p: string, rules: Rules)
    requires Proper(rules) && Trim(p) == p
    ensures forall q | q in Parts(p, rules) :: Clean(q, rules) && CutOf(q, rules).None?
    decreases |p|
  {
    CutExactly(p, rules);
    CutShortens(p, rules);
    match CutOf(p, rules)
    case None =>
    case Some(c) =>
      var _, _ := Trimmed(p[..c.at]);
      var _, _ := Trimmed(p[c.at + c.len..]);
      PartsClean(Before(p, c), rules);
      PartsClean(Behind(p, c), rules);
  }

  /** Every sub-goal is non-empty, trimmed, free of the markers in force for it, and is itself a goal
      that stays whole. */
  lemma {:induction false} PartsAreFinal(goal: string, rules: Rules)
    requires Proper(rules)
    ensures forall q | q in Parts(Trim(goal), rules) :: Clean(q, rules) && Parts(Trim(q), rules) == [q]
  {
    var _, _ := Trimmed(goal);
    PartsClean(Trim(goal), rules);
  }

  // ---------- nothing is lost ----------

  datatype Piece = Space(s: string) | Marker(s: string) | Part(s: string)

  predicate Sound(x: Piece, rules: Rules) {
    match x
    case Space(s) => AllSpace(s)
    case Marker(s) => Lower(s) in rules.markers
    case Part(_) => true
  }

  ghost predicate AllSound(xs: seq<Piece>, rules: Rules) {
    forall x | x in xs :: Sound(x, rules)
  }

  function Flat(xs: seq<Piece>): string {
    if xs == [] then "" else xs[0].s + Flat(xs[1..])
  }

  function PartsIn(xs: seq<Piece>): seq<string> {
    if xs == [] then [] else (if xs[0].Part? then [xs[0].s] else []) + PartsIn(xs[1..])
  }

  lemma {:induction false} FlatJoins(xs: seq<Piece>, ys: seq<Piece>)
    ensures Flat(xs + ys) == Flat(xs) + Flat(ys) && PartsIn(xs + ys) == PartsIn(xs) + PartsIn(ys)
    decreases |xs|
  {
    if xs == [] {
      assert xs + ys == ys;
    } else {
      FlatJoins(xs[1..], ys);
      assert (xs + ys)[0] == xs[0] && (xs + ys)[1..] == xs[1..] + ys;
    }
  }

  lemma {:induction false} FlatOne(x: Piece)
    ensures Flat([x]) == x.s && PartsIn([x]) == if x.Part? then [x.s] else []
  {
    assert [x][1..] == [] && x.s + "" == x.s;
  }

  lemma {:induction false} Framed(a: string, xs: seq<Piece>, b: string, rules: Rules) returns (ys: seq<Piece>)
    requires AllSpace(a) && AllSound(xs, rules) && AllSpace(b)
    ensures Flat(ys) == (a + Flat(xs)) + b && PartsIn(ys) == PartsIn(xs) && AllSound(ys, rules)
  {
    var left, right := [Space(a)], [Space(b)];
    FlatOne(left[0]);
    FlatOne(right[0]);
    FlatJoins(left, xs);
    FlatJoins(left + xs, right);
    ys := left + xs + right;
    assert [] + PartsIn(xs) + [] == PartsIn(xs);
  }

  // Space put back around what was trimmed.
  lemma {:induction false} SpaceBack(s: string, xs: seq<Piece>, rules: Rules) returns (ys: seq<Piece>)
    requires Flat(xs) == Trim(s) && AllSound(xs, rules)
    ensures Flat(ys) == s && PartsIn(ys) == PartsIn(xs) && AllSound(ys, rules)
  {
    var a, b := Trimmed(s);
    ys := Framed(s[..a], xs, s[b..], rules);
    assert s == s[..a] + s[a..b] + s[b..];
  }

  lemma {:induction false} MarkerPiece(p: string, c: Cut, rules: Rules)
    requires CutOf(p, rules) == Some(c)
    ensures Lower(p[c.at..c.at + c.len]) in rules.markers
  {
    CutExactly(p, rules);
    var m :| CutsAt(p, c, m, rules);
    assert Lower(p[c.at..c.at + c.len]) == Lower(p)[c.at..c.at + c.len];
  }

  lemma {:induction false} Joined(xs: seq<Piece>, x: Piece, ys: seq<Piece>, rules: Rules)
    requires AllSound(xs, rules) && Sound(x, rules) && AllSound(ys, rules) && !x.Part?
    ensures var all := xs + [x] + ys;
            Flat(all) == Flat(xs) + x.s + Flat(ys) && PartsIn(all) == PartsIn(xs) + PartsIn(ys) && AllSound(all, rules)
  {
    FlatOne(x);
    FlatJoins(xs, [x]);
    FlatJoins(xs + [x], ys);
  }

  lemma {:induction false} PartsWoven(p: string, rules: Rules) returns (xs: seq<Piece>)
    requires Proper(rules)
    ensures Flat(xs) == p && PartsIn(xs) == Parts(p, rules) && AllSound(xs, rules)
    decreases |p|
  {
    CutShortens(p, rules);
    match CutOf(p, rules)
    case None =>
      if p == "" {
        xs := [];
      } else {
        xs := [Part(p)];
        FlatOne(Part(p));
      }
    case Some(c) =>
      var ys := PartsWoven(Before(p, c), rules);
      var zs := PartsWoven(Behind(p, c), rules);
      xs := HalvesWoven(p, c, ys, zs, rules);
  }

  lemma {:induction false} Rewoven(a: string, g: string, b: string, ys: seq<Piece>, zs: seq<Piece>, rules: Rules)
    returns (xs: seq<Piece>)
    requires Lower(g) in rules.markers && AllSound(ys, rules) && AllSound(zs, rules)
    requires Flat(ys) == Trim(a) && Flat(zs) == Trim(b)
    ensures Flat(xs) == a + g + b && PartsIn(xs) == PartsIn(ys) + PartsIn(zs) && AllSound(xs, rules)
  {
    var left := SpaceBack(a, ys, rules);
    var right := SpaceBack(b, zs, rules);
    Joined(left, Marker(g), right, rules);
    xs := left + [Marker(g)] + right;
  }

  lemma {:induction false} HalvesWoven(p: string, c: Cut, ys: seq<Piece>, zs: seq<Piece>, rules: Rules)
    returns (xs: seq<Piece>)
    requires CutOf(p, rules) == Some(c) && AllSound(ys, rules) && AllSound(zs, rules)
    requires Flat(ys) == Before(p, c) && Flat(zs) == Behind(p, c)
    ensures Flat(xs) == p && PartsIn(xs) == PartsIn(ys) + PartsIn(zs) && AllSound(xs, rules)
  {
    MarkerPiece(p, c, rules);
    xs := Rewoven(p[..c.at], p[c.at..c.at + c.len], p[c.at + c.len..], ys, zs, rules);
    assert p == p[..c.at] + p[c.at..c.at + c.len] + p[c.at + c.len..];
  }

  /** Only markers and white space are lost: the goal is its sub-goals in order, with nothing but these
      around them. */
  lemma {:induction false} NothingElseLost(goal: string, rules: Rules) returns (xs: seq<Piece>)
    requires Proper(rules)
    ensures Flat(xs) == goal && PartsIn(xs) == Parts(Trim(goal), rules) && AllSound(xs, rules)
  {
    var ys := PartsWoven(Trim(goal), rules);
    xs := SpaceBack(goal, ys, rules);
  }

  // ---------- command payloads ----------

  lemma {:induction false} ActiveStaysFree(p: string, k: nat, q: string, rules: Rules)
    requires k <= |p| && q == Trim(p[..k]) && CommandLed(p, rules) && CommandLed(q, rules)
    requires MarkerFree(Lower(p), Active(p, rules), k) && Proper(rules)
    ensures MarkerFree(Lower(q), Active(q, rules), |q| + 1)
  {
    var a, b := Trimmed(p[..k]);
    assert q == p[a..b] && Lower(q) == Lower(p)[a..b];
    forall m, j | m in Active(q, rules) && j < |q| + 1 ensures !StandsAt(Lower(q), m, j) {
      KeptExactly(rules.markers, rules.shellOp, true, m);
      if StandsAt(Lower(q), m, j) {
        assert Lower(p)[a + j..a + j + |m|] == Lower(q)[j..j + |m|];
        assert StandsAt(Lower(p), m, a + j);
      }
    }
  }

  lemma {:induction false} StaysWhole(q: string, rules: Rules)
    requires Proper(rules) && q != "" && MarkerFree(Lower(q), Active(q, rules), |q| + 1)
    ensures Parts(q, rules) == [q]
  {
    CutExactly(q, rules);
  }

  lemma {:induction false} NotShellOp(p: string, c: Cut, rules: Rules)
    requires Proper(rules) && CommandLed(p, rules) && CutOf(p, rules) == Some(c)
    ensures p[c.at..c.at + c.len] != rules.shellOp
  {
    CutExactly(p, rules);
    var m :| CutsAt(p, c, m, rules);
    assert Lower(p[c.at..c.at + c.len]) == Lower(p)[c.at..c.at + c.len];
  }

  /** A semicolon never splits a command: a command-led part is cut only at another marker, what stands
      before that marker stays one sub-goal as long as it leads with a command, and without another
      marker the part stays whole. */
  lemma {:induction false} CommandPayloadKept(p: string, rules: Rules)
    requires Proper(rules) && CommandLed(p, rules) && p != ""
    ensures match CutOf(p, rules)
            case None => Parts(p, rules) == [p]
            case Some(c) =>
              && p[c.at..c.at + c.len] != rules.shellOp
              && (CommandLed(Before(p, c), rules) && Before(p, c) != "" ==>
                    Parts(p, rules) == [Before(p, c)] + Parts(Behind(p, c), rules))
  {
    CutExactly(p, rules);
    match CutOf(p, rules)
    case None =>
    case Some(c) =>
      NotShellOp(p, c, rules);
      if CommandLed(Before(p, c), rules) && Before(p, c) != "" {
        ActiveStaysFree(p, c.at, Before(p, c), rules);
        StaysWhole(Before(p, c), rules);
      }
  }

  // ---------- the rules in force ----------

  lemma {:induction false} RulesProper()
    ensures Proper(RULES)
  {
    assert Lower("; ") == "; ";
  }

  function Decomposed(goal: string): seq<string> {
    RulesProper();
    Parts(Trim(goal), RULES)
  }

  method DecomposeGoal(goal: string) returns (parts: seq<string>)
    ensures parts == Decomposed(goal)
  {
    RulesProper();
    parts := Decompose(goal, RULES);
  }
}
