/** What comes of model output that the grammar allowed: the call is read from its first line only, checked,
    built, and split by a shell. */
module CapabilityOutcome {
  import opened CapabilityCall
  import opened CapabilityChain
  import opened CapabilityCommand
  import opened CapabilityCut
  import opened CapabilityGrammar
  import opened CapabilityReadBack
  import opened Gbnf
  import opened Text
  import opened Wrappers
  import Shell

  // ---------- what one line can hold ----------

  lemma {:induction false} StripLacks(s: string, chars: string, c: char)
    requires c !in s
    ensures c !in StripStart(s, chars) && c !in StripEnd(s, chars)
    decreases |s|
  {
    if s == "" {
    } else {
      if s[0] in chars {
        StripLacks(s[1..], chars, c);
      }
      if s[|s| - 1] in chars {
        StripLacks(s[..|s| - 1], chars, c);
      }
    }
  }

  // ---------- where a derivation has line breaks ----------

  // The free text keeps to one line.
  predicate OneLine(d: Derivation) {
    forall i | 0 <= i < |d.fills| && d.fills[i].Text? :: '\n' !in d.fills[i].text
  }

  lemma {:induction false} StripKeeps(s: string, chars: string, c: char)
    requires c in s && c !in chars
    ensures c in StripStart(s, chars) && c in StripEnd(s, chars)
    decreases |s|
  {
    if s[0] in chars {
      assert s == [s[0]] + s[1..];
      StripKeeps(s[1..], chars, c);
    }
    if s[|s| - 1] in chars {
      assert s == s[..|s| - 1] + [s[|s| - 1]];
      StripKeeps(s[..|s| - 1], chars, c);
    }
  }

  lemma {:induction false} PathHasNoBreak(f: Filler)
    requires f.Observed? || (f.Child? && AllIn(f.seg, Segment))
    requires SafePath(f.path)
    ensures '\n' !in Value(f)
  {
  }

  ghost predicate WordsUnbroken(slots: seq<CapabilityGrammar.Slot>) {
    forall slot | slot in slots && slot.form.OneOfWords? :: forall w | w in slot.form.choices :: '\n' !in w
  }

  lemma {:induction false} PresentBreaks(slots: seq<CapabilityGrammar.Slot>, fills: seq<Filler>, paths: seq<string>)
    requires AllFit(slots, fills, paths) && AllSafe(paths) && WordsUnbroken(slots)
    ensures Breaks(Present(slots, fills)) <==> exists i :: 0 <= i < |fills| && fills[i].Text? && '\n' in fills[i].text
    decreases |slots|
  {
    if slots == [] {
    } else {
      assert slots[0] in slots && SlotFits(slots[0], fills[0], paths);
      PresentBreaks(slots[1..], fills[1..], paths);
      if fills[0].Observed? || fills[0].Child? {
        PathHasNoBreak(fills[0]);
      }
      FirstBreaks(slots, fills);
      FillsBreak(fills);
    }
  }

  lemma {:induction false} FirstBreaks(slots: seq<CapabilityGrammar.Slot>, fills: seq<Filler>)
    requires |slots| == |fills| > 0
    ensures Breaks(Present(slots, fills))
            <==> (!fills[0].Absent? && '\n' in Value(fills[0])) || Breaks(Present(slots[1..], fills[1..]))
  {
    var more, first := Present(slots[1..], fills[1..]), ArgOf(slots[0], fills[0]);
    if !fills[0].Absent? {
      assert forall a :: a in [first] + more <==> a == first || a in more;
    }
  }

  lemma {:induction false} FillsBreak(fills: seq<Filler>)
    requires fills != []
    ensures (exists i :: 0 <= i < |fills| && fills[i].Text? && '\n' in fills[i].text)
            <==> (fills[0].Text? && '\n' in fills[0].text)
                 || exists i :: 0 <= i < |fills[1..]| && fills[1..][i].Text? && '\n' in fills[1..][i].text
  {
    forall i | 0 <= i < |fills[1..]| ensures fills[1..][i] == fills[i + 1] {
    }
    forall i | 0 < i < |fills| ensures fills[i] == fills[1..][i - 1] {
    }
  }

  lemma {:induction false} ShapesUnbroken(shape: Shape)
    ensures WordsUnbroken(SlotsOf(shape)) && IsName(Verb(shape)) && 'a' <= Verb(shape)[0] <= 'z'
  {
  }

  // A derivation as the arguments it prints.
  lemma {:induction false} PrintArgs(d: Derivation, observed: seq<string>)
    requires Fits(d, observed)
    ensures var args := Present(SlotsOf(d.shape), d.fills);
            && args != [] && AllSound(args) && Print(d) == Line(Verb(d.shape), args)
            && (Breaks(args) <==> !OneLine(d))
  {
    var slots := SlotsOf(d.shape);
    ShapesProper(d.shape);
    ShapesUnbroken(d.shape);
    NotAbsent(slots[0].form, d.fills[0], SafePaths(observed));
    PrintIsLine(Verb(d.shape), slots, d.fills);
    ArgsSound(slots, d.fills, SafePaths(observed));
    PresentBreaks(slots, d.fills, SafePaths(observed));
  }

  lemma {:induction false} TailUnbroken(args: seq<Arg>)
    requires AllSound(args) && !Breaks(args)
    ensures '\n' !in Tail(args)
    decreases |args|
  {
    if args == [] {
    } else {
      assert args == [args[0]] + args[1..] && args[0] in args;
      WholeArg(args[0]);
      TailUnbroken(args[1..]);
    }
  }

  lemma {:induction false} LineUnbroken(verb: string, args: seq<Arg>)
    requires IsName(verb) && args != [] && AllSound(args) && !Breaks(args)
    ensures '\n' !in Line(verb, args)
  {
    assert args == [args[0]] + args[1..] && args[0] in args;
    WholeArg(args[0]);
    TailUnbroken(args[1..]);
  }

  lemma {:induction false} MeantBreaks(d: Derivation)
    requires |d.fills| == |SlotsOf(d.shape)| && !OneLine(d)
    ensures exists k | k in Meant(d).params :: '\n' in Meant(d).params[k]
  {
    var i :| 0 <= i < |d.fills| && d.fills[i].Text? && '\n' in d.fills[i].text;
    FilledParam(d, i);
    BreakStays(d.fills[i].text);
  }

  lemma {:induction false} FilledParam(d: Derivation, i: nat)
    requires |d.fills| == |SlotsOf(d.shape)| && i < |d.fills| && !d.fills[i].Absent?
    ensures var key := KeyName(SlotsOf(d.shape)[i].key);
            key in Meant(d).params && Meant(d).params[key] == Strip(Value(d.fills[i]), "<>")
  {
    MeantRead(d);
    assert FilledAs(SlotsOf(d.shape), d.fills, i, KeyName(SlotsOf(d.shape)[i].key));
  }

  lemma {:induction false} BreakStays(t: string)
    requires '\n' in t
    ensures '\n' in Strip(t, "<>")
  {
    StripKeeps(t, "<>", '\n');
    StripKeeps(StripStart(t, "<>"), "<>", '\n');
  }

  // ---------- the first line ----------

  lemma {:induction false} OnlyLine(s: string)
    requires '\n' !in s && s != "" && !IsSpace(s[0]) && !IsSpace(s[|s| - 1])
    ensures FirstText(Lines(s)) == Some(s)
  {
    Untrimmed(s);
  }

  // What is read of a text with a line break holds none.
  lemma {:induction false} VisibleUnbroken(args: seq<Arg>)
    ensures forall a | a in Visible(args) :: '\n' !in a.value
    decreases |args|
  {
    if args == [] {
    } else {
      BreakFound(args[0].value);
      VisibleUnbroken(args[1..]);
    }
  }

  lemma {:induction false} CutUnbroken(args: seq<Arg>)
    requires forall a | a in args :: '\n' !in a.value
    ensures var slots := CutSlots(args); slots.Some? ==> forall k | k in slots.value :: '\n' !in slots.value[k]
    decreases |args|
  {
    if args == [] {
    } else {
      assert args[0] in args;
      CutUnbroken(args[1..]);
      var v, k := args[0].value, FindLast(args[0].value, ')');
      StrippedLacks(v);
      if k.Some? {
        var b := TrimEndExactly(v[..k.value]);
        StrippedLacks(TrimEnd(v[..k.value]));
      }
    }
  }

  lemma {:induction false} StrippedLacks(s: string)
    requires '\n' !in s
    ensures '\n' !in Strip(s, "<>")
  {
    StripLacks(s, "<>", '\n');
    StripLacks(StripStart(s, "<>"), "<>", '\n');
  }

  lemma {:induction false} PrintEnds(d: Derivation)
    requires |d.fills| == |SlotsOf(d.shape)|
    ensures Print(d) != "" && !IsSpace(Print(d)[0]) && !IsSpace(Print(d)[|Print(d)| - 1])
  {
  }

  /** A derivable call is read from the output as the call it spells if and only if its free text keeps to
      one line: everything behind the first line break is thrown away. */
  lemma {:induction false} ReadExactly(d: Derivation, observed: seq<string>)
    requires Fits(d, observed)
    ensures ReadOutput(Print(d)) == Some(Meant(d)) <==> OneLine(d)
  {
    var args := Present(SlotsOf(d.shape), d.fills);
    PrintEnds(d);
    PrintArgs(d, observed);
    ShapesUnbroken(d.shape);
    if OneLine(d) {
      LineUnbroken(Verb(d.shape), args);
      OnlyLine(Print(d));
      PrintReadBack(d, observed);
    } else {
      BrokenLineRead(Verb(d.shape), args);
      VisibleUnbroken(args);
      CutUnbroken(Visible(args));
      MeantBreaks(d);
    }
  }

  // ---------- a broken line ----------

  /** What is read of a derivable call with a line break in its free text: the slots that stand before the last
      closing parenthesis of the first line, the last of them cut there; no call if and only if no slot on that
      line holds a closing parenthesis. */
  lemma {:induction false} BrokenReadExactly(d: Derivation, observed: seq<string>)
    requires Fits(d, observed) && !OneLine(d)
    ensures var seen := Visible(Present(SlotsOf(d.shape), d.fills));
            && (ReadOutput(Print(d)).None? <==> forall a | a in seen :: ')' !in a.value)
            && ReadOutput(Print(d)) == match CutSlots(seen)
                                       case None => None
                                       case Some(slots) => Some(Call(Verb(d.shape), slots))
  {
    var args := Present(SlotsOf(d.shape), d.fills);
    PrintArgs(d, observed);
    ShapesUnbroken(d.shape);
    BrokenLineRead(Verb(d.shape), args);
    CutExactly(Visible(args));
  }

  lemma {:induction false} CutFits(path: string, t: string)
    requires SafePath(path) && AllIn(t, FreeText)
    ensures Fits(Derivation(Delete, CutFills(path, t)), [path])
  {
    var d := Derivation(Delete, CutFills(path, t));
    assert SafePaths([path]) == [path] by {
      assert [path][1..] == [];
    }
    assert path in [path];
    assert FormFits(Source, d.fills[0], [path]) && FormFits(Free, d.fills[1], [path]);
  }

  function CutFills(path: string, t: string): seq<Filler> {
    [Observed(path), Text(t), Absent]
  }

  function CutArgs(path: string, t: string): seq<Arg> {
    [Arg("source_dir", path, true), Arg("selector", t, true)]
  }

  lemma {:induction false} CutPresent(path: string, t: string)
    ensures Present(SlotsOf(Delete), CutFills(path, t)) == CutArgs(path, t)
  {
    var slots, fills := SlotsOf(Delete), CutFills(path, t);
    assert fills[1..][1..] == [Absent] && fills[1..][1..][1..] == [];
    assert Present(slots[1..][1..], fills[1..][1..]) == [];
    assert Present(slots[1..], fills[1..]) == [Arg("selector", t, true)] + [];
  }

  lemma {:induction false} CutMeant(path: string, t: string)
    requires SafePath(path)
    ensures Meant(Derivation(Delete, CutFills(path, t)))
            == Call("delete", map["source_dir" := Meaning(CutArgs(path, t)[0]), "selector" := Strip(t, "<>")])
  {
    var args := CutArgs(path, t);
    CutPresent(path, t);
    assert args[1..] == [args[1]] && [args[1]][1..] == [];
    assert Slots([args[1]]) == map["selector" := Strip(t, "<>")] + map[];
  }

  /** A line break in a selector makes the agent run another call: behind a parenthesis it cuts the
      selector down to what stands before. */
  lemma {:induction false} CutSelector(path: string, t: string, u: string)
    requires SafePath(path) && AllIn(t, FreeText) && AllIn(u, FreeText)
    requires t != "" && '\n' !in t && !IsSpace(t[|t| - 1])
    ensures var d := Derivation(Delete, CutFills(path, t + (")\n" + u)));
            var e := Derivation(Delete, CutFills(path, t));
            && Fits(d, [path]) && Fits(e, [path])
            && ReadOutput(Print(d)) == Some(Meant(e)) && ReadOutput(Print(e)) == Some(Meant(e))
            && Attempt(Print(d), [path]) == Attempt(Print(e), [path])
  {
    CutFits(path, t + (")\n" + u));
    CutFits(path, t);
    CutRead(path, t, u);
    ReadExactly(Derivation(Delete, CutFills(path, t)), [path]);
    SameAttempt(Print(Derivation(Delete, CutFills(path, t + (")\n" + u)))),
                Print(Derivation(Delete, CutFills(path, t))), [path]);
  }

  lemma {:induction false} SameAttempt(a: string, b: string, observed: seq<string>)
    requires ReadOutput(a) == ReadOutput(b)
    ensures Attempt(a, observed) == Attempt(b, observed)
  {
  }

  lemma {:induction false} CutRead(path: string, t: string, u: string)
    requires SafePath(path) && AllIn(t, FreeText) && AllIn(u, FreeText) && t != "" && '\n' !in t && !IsSpace(t[|t| - 1])
    ensures ReadOutput(Print(Derivation(Delete, CutFills(path, t + (")\n" + u)))))
            == Some(Meant(Derivation(Delete, CutFills(path, t))))
  {
    var all := t + (")\n" + u);
    var d := Derivation(Delete, CutFills(path, all));
    CutFits(path, all);
    CutPresent(path, all);
    assert d.fills[1].Text? && all[|t| + 1] == '\n' && '\n' in d.fills[1].text;
    BrokenReadExactly(d, [path]);
    CutVisible(path, t, u);
    CutBefore(path, t);
    CutMeant(path, t);
  }

  lemma {:induction false} CutVisible(path: string, t: string, u: string)
    requires SafePath(path) && '\n' !in t
    ensures Visible(CutArgs(path, t + (")\n" + u))) == CutArgs(path, t + ")")
  {
    var all, args := t + (")\n" + u), CutArgs(path, t + (")\n" + u));
    PathHasNoBreak(Observed(path));
    BreakFound(path);
    assert all == (t + ")") + ("\n" + u);
    FindFirst(t + ")", '\n', u);
    assert all[..|t| + 1] == t + ")";
    assert args[1..] == [args[1]];
    assert Visible([args[1]]) == [Arg("selector", t + ")", true)];
  }

  lemma {:induction false} CutBefore(path: string, t: string)
    requires t != "" && !IsSpace(t[|t| - 1])
    ensures CutSlots(CutArgs(path, t + ")"))
            == Some(map["source_dir" := Meaning(CutArgs(path, t)[0]), "selector" := Strip(t, "<>")])
  {
    var args, v := CutArgs(path, t + ")"), t + ")";
    assert v[|t|] == ')' && v[..|t|] == t;
    assert FindLast(v, ')') == Some(|t|);
    assert args[1..] == [args[1]] && [args[1]][1..] == [] && CutSlots([]) == None;
    assert CutSlots([args[1]]) == Some(map["selector" := Strip(TrimEnd(t), "<>")]);
    TwoKeys("source_dir", Meaning(args[0]), "selector", Strip(t, "<>"));
  }

  lemma {:induction false} TwoKeys(k: string, v: string, l: string, w: string)
    ensures map[k := v] + map[l := w] == map[k := v, l := w]
  {
  }

  lemma {:induction false} AttemptedAs(output: string, call: Call, observed: seq<string>)
    requires ReadOutput(output) == Some(call)
    ensures Attempt(output, observed) == if Validate(call, observed).None? then CommandOf(call) else None
  {
  }

  ghost predicate PathsOk(d: Derivation) {
    forall i | 0 <= i < |d.fills| && IsPath(d.fills[i]) :: PathOk(d.fills[i])
  }

  /** A derivable call on one line ends in its command if and only if its paths are clean and no needed slot
      is empty; otherwise nothing is run. */
  lemma {:induction false} AttemptExactly(d: Derivation, observed: seq<string>)
    requires Fits(d, observed) && SafePaths(observed) != [] && OneLine(d)
    ensures Attempt(Print(d), observed).Some? <==> PathsOk(d) && !LacksSlot(d)
    ensures PathsOk(d) && !LacksSlot(d) ==> Attempt(Print(d), observed) == CommandOf(Meant(d))
  {
    ReadExactly(d, observed);
    AttemptedAs(Print(d), Meant(d), observed);
    AcceptedExactly(d, observed);
    CommandBuiltExactly(d, observed);
  }

  // A delete of everything in a clean folder is accepted and built.
  lemma {:induction false} StarAttempted(path: string, e: Derivation)
    requires SafePath(path) && CleanPath(path) && e == Derivation(Delete, CutFills(path, "*"))
    ensures Fits(e, [path]) && CommandOf(Meant(e)).Some? && Attempt(Print(e), [path]) == CommandOf(Meant(e))
  {
    CutFits(path, "*");
    assert SafePaths([path]) != [] by {
      assert path in [path];
      assert path in SafePaths([path]);
    }
    StarNeedsNothing(path, e);
    AttemptExactly(e, [path]);
  }

  lemma {:induction false} StarNeedsNothing(path: string, e: Derivation)
    requires CleanPath(path) && e == Derivation(Delete, CutFills(path, "*"))
    ensures OneLine(e) && PathsOk(e) && !LacksSlot(e)
  {
    assert Strip("*", "<>") == "*";
  }

  lemma {:induction false} BrokenMeansOther(d: Derivation, observed: seq<string>, call: Call)
    requires Fits(d, observed) && !OneLine(d) && ReadOutput(Print(d)) == Some(call)
    ensures call != Meant(d)
  {
    ReadExactly(d, observed);
  }

  lemma {:induction false} TwoLines(path: string, d: Derivation)
    requires d == Derivation(Delete, CutFills(path, "*" + (")\n" + "x")))
    ensures !OneLine(d)
  {
    assert d.fills[1].text[2] == '\n';
    assert d.fills[1].Text? && '\n' in d.fills[1].text;
  }

  /** The example: of a delete meant for files named "*)", a line break and "x", what runs is the delete of
      every file in the folder. */
  lemma {:induction false} DeletesEveryFile(path: string, d: Derivation, e: Derivation)
    requires SafePath(path) && CleanPath(path) && d == Derivation(Delete, CutFills(path, "*" + (")\n" + "x")))
    requires e == Derivation(Delete, CutFills(path, "*"))
    ensures Fits(d, [path]) && ReadOutput(Print(d)) == Some(Meant(e)) && Meant(e) != Meant(d)
    ensures Attempt(Print(d), [path]).Some?
    ensures Shell.Tokens(Attempt(Print(d), [path]).value) == Some(DeleteTokens(path, "*", ""))
  {
    CutSelector(path, "*", "x");
    TwoLines(path, d);
    BrokenMeansOther(d, [path], Meant(e));
    StarAttempted(path, e);
    StarTokens(path, e);
  }

  // find path -maxdepth 1 -name '*' -type f -exec rm -f {} +
  lemma {:induction false} StarTokens(path: string, e: Derivation)
    requires SafePath(path) && CleanPath(path) && e == Derivation(Delete, CutFills(path, "*"))
    requires CommandOf(Meant(e)).Some?
    ensures Shell.Tokens(CommandOf(Meant(e)).value) == Some(DeleteTokens(path, "*", ""))
  {
    CutMeant(path, "*");
    PathValue(Observed(path));
    assert path[0] in path && path[|path| - 1] in path;
    NoOuter(path, "<>");
    assert Strip("*", "<>") == "*";
    PathIsInert(Observed(path));
    CommandReadExactly(Meant(e));
  }

  // Such a path there is.
  lemma {:induction false} SafeExample()
    ensures SafePath("/a") && CleanPath("/a")
  {
    ContainsExactly("/a", "..");
    forall i | StandsAt("/a", "..", i) ensures false {
      DotsIn("/a", i);
    }
  }

  // ---------- what the shell makes of a derivable call ----------

  // No backquote, and no dollar sign before a character with which it starts an expansion.
  predicate Tame(t: string) {
    forall i | 0 <= i < |t| :: t[i] != '`' && (t[i] == '$' && i + 1 < |t| ==> !Shell.StartsExpansion(t[i + 1]))
  }

  lemma {:induction false} FreeInertExactly(t: string)
    requires AllIn(t, FreeText)
    ensures Inert(t) <==> Tame(t)
  {
    NoQuotesKept(t);
    assert !Shell.StartsExpansion('"');
    forall i | 0 <= i < |t| ensures t[i] != '\\' {
      assert t[i] in t;
    }
    if !Shell.Literal(t, '"') {
      var i :| 0 <= i < |t| && Shell.Alters(t[i], Shell.Follower(t, i, '"'));
      assert !(t[i] != '`' && (t[i] == '$' && i + 1 < |t| ==> !Shell.StartsExpansion(t[i + 1])));
    } else {
      forall i | 0 <= i < |t| ensures !Shell.Alters(t[i], Shell.Follower(t, i, '"')) {
      }
    }
  }

  // A dollar sign, a backquote or what a dollar sign needs behind it is none of these.
  ghost predicate Indifferent(chars: string) {
    forall c | c in chars :: c != '`' && c != '$' && !Shell.StartsExpansion(c)
  }

  lemma {:induction false} StripStartTame(s: string, chars: string)
    requires Indifferent(chars)
    ensures Tame(StripStart(s, chars)) <==> Tame(s)
    decreases s
  {
    if s != "" && s[0] in chars {
      StripStartTame(s[1..], chars);
      TameBehind(s);
    }
  }

  lemma {:induction false} TameBehind(s: string)
    requires s != "" && s[0] != '`' && s[0] != '$'
    ensures Tame(s[1..]) <==> Tame(s)
  {
    var t := s[1..];
    if Tame(t) {
      forall i | 0 <= i < |s| ensures s[i] != '`' && (s[i] == '$' && i + 1 < |s| ==> !Shell.StartsExpansion(s[i + 1])) {
        assert i > 0 ==> s[i] == t[i - 1];
        assert 0 < i && i + 1 < |s| ==> s[i + 1] == t[i];
      }
    }
    if Tame(s) {
      forall i | 0 <= i < |t| ensures t[i] != '`' && (t[i] == '$' && i + 1 < |t| ==> !Shell.StartsExpansion(t[i + 1])) {
        assert t[i] == s[i + 1];
      }
    }
  }

  lemma {:induction false} StripEndTame(s: string, chars: string)
    requires Indifferent(chars)
    ensures Tame(StripEnd(s, chars)) <==> Tame(s)
    decreases |s|
  {
    if s != "" && s[|s| - 1] in chars {
      StripEndTame(s[..|s| - 1], chars);
    }
  }

  lemma {:induction false} StripTame(t: string, chars: string)
    requires Indifferent(chars) && AllIn(t, FreeText)
    ensures Inert(Strip(t, chars)) <==> Tame(t)
  {
    StripStartTame(t, chars);
    StripEndTame(StripStart(t, chars), chars);
    StripLacks(t, chars, '"');
    StripLacks(StripStart(t, chars), chars, '"');
    StripLacks(t, chars, '\\');
    StripLacks(StripStart(t, chars), chars, '\\');
    FreeInertExactly(Strip(t, chars));
  }

  // What the i-th slot gives the command builder, and whether it is inert.
  lemma {:induction false} TextInertAt(d: Derivation, observed: seq<string>, i: nat, name: string)
    requires Fits(d, observed) && i < |d.fills| && KeyName(SlotsOf(d.shape)[i].key) == name
    requires SlotsOf(d.shape)[i].form.Free?
    ensures var v := Get(Meant(d).params, name);
            && v == Strip(Value(d.fills[i]), "<>") && (Inert(v) <==> Tame(Value(d.fills[i])))
            && ('*' in v <==> '*' in Value(d.fills[i]))
  {
    TextAt(d, i, name);
    var s := Value(d.fills[i]);
    assert SlotFits(SlotsOf(d.shape)[i], d.fills[i], SafePaths(observed));
    StripTame(s, "<>");
    if '*' in s {
      StripKeeps(s, "<>", '*');
      StripKeeps(StripStart(s, "<>"), "<>", '*');
    } else {
      StripLacks(s, "<>", '*');
      StripLacks(StripStart(s, "<>"), "<>", '*');
    }
  }

  lemma {:induction false} PathInertAt(d: Derivation, observed: seq<string>, i: nat, name: string)
    requires Fits(d, observed) && SafePaths(observed) != [] && i < |d.fills|
    requires IsPathKey(SlotsOf(d.shape)[i].key) && KeyName(SlotsOf(d.shape)[i].key) == name
    ensures var v := Get(Meant(d).params, name);
            v != "" && Inert(v) && forall sel :: FolderAndSelector(v, sel) == (v, sel)
  {
    PathGet(d, observed, i);
    assert SlotFits(SlotsOf(d.shape)[i], d.fills[i], SafePaths(observed));
    PathIsInert(d.fills[i]);
  }

  lemma {:induction false} PathIsInert(f: Filler)
    requires f.Observed? || (f.Child? && AllIn(f.seg, Segment))
    requires SafePath(f.path)
    ensures Inert(Value(f))
  {
    PlainIsInert(Value(f));
  }

  lemma {:induction false} PlainIsInert(s: string)
    requires '`' !in s && '$' !in s && '\\' !in s
    ensures Inert(s)
  {
    KeptExactly(s);
    forall i | 0 <= i < |Kept(s)| ensures !Shell.Alters(Kept(s)[i], Shell.Follower(Kept(s), i, '"')) {
      assert Kept(s)[i] in Kept(s);
    }
  }

  // A new name is used with a selector that is no pattern.
  predicate UsesNewName(sel: Filler, nn: Filler) {
    Strip(Value(nn), "<>") != "" && '*' !in Value(sel)
  }

  // The free text that the command uses is tame.
  predicate TextsTame(d: Derivation)
    requires |d.fills| == |SlotsOf(d.shape)|
  {
    match d.shape
    case Move =>
      Tame(Value(d.fills[1])) && (UsesNewName(d.fills[1], d.fills[3]) ==> Tame(Value(d.fills[3])))
    case Copy =>
      Tame(Value(d.fills[1])) && (UsesNewName(d.fills[1], d.fills[4]) ==> Tame(Value(d.fills[4])))
    case Rename => Tame(Value(d.fills[1]))
    case MakeFolder => true
    case WriteFile => Tame(Value(d.fills[1]))
    case Delete => Tame(Value(d.fills[1]))
    case _ => Tame(Value(d.fills[2]))
  }

  lemma {:induction false} TransferInertExactly(p: Params, sel: Filler, nn: Filler)
    requires forall t :: FolderAndSelector(Get(p, "source_dir"), t) == (Get(p, "source_dir"), t)
    requires Inert(Get(p, "source_dir")) && Inert(Get(p, "dest"))
    requires Inert(Get(p, "selector")) <==> Tame(Value(sel))
    requires '*' in Get(p, "selector") <==> '*' in Value(sel)
    requires Get(p, "new_name") == Strip(Value(nn), "<>") && (Inert(Get(p, "new_name")) <==> Tame(Value(nn)))
    ensures TransferInert(p) <==> Tame(Value(sel)) && (UsesNewName(sel, nn) ==> Tame(Value(nn)))
  {
    SlashInert(Get(p, "source_dir"), Get(p, "selector"));
  }

  lemma {:induction false} UsedByVerb(call: Call)
    ensures call.verb == "move" || call.verb == "copy" ==> UsedInert(call) == TransferInert(call.params)
    ensures call.verb == "extract_to_file" ==>
              UsedInert(call) == (InnerInert(call.params) && Inert(Destination(call.params)))
  {
  }

  function NewNameSlot(s: Shape): nat {
    if s.Move? then 3 else 4
  }

  lemma {:induction false} TransferTexts(d: Derivation, observed: seq<string>)
    requires Fits(d, observed) && (d.shape.Move? || d.shape.Copy?)
    ensures var (p, sel, nn) := (Meant(d).params, d.fills[1], d.fills[NewNameSlot(d.shape)]);
            && (Inert(Get(p, "selector")) <==> Tame(Value(sel))) && ('*' in Get(p, "selector") <==> '*' in Value(sel))
            && Get(p, "new_name") == Strip(Value(nn), "<>") && (Inert(Get(p, "new_name")) <==> Tame(Value(nn)))
  {
    TextInertAt(d, observed, 1, "selector");
    TextInertAt(d, observed, NewNameSlot(d.shape), "new_name");
  }

  lemma {:induction false} TransferPaths(d: Derivation, observed: seq<string>)
    requires Fits(d, observed) && SafePaths(observed) != [] && (d.shape.Move? || d.shape.Copy?)
    ensures var p := Meant(d).params;
            && Inert(Get(p, "source_dir")) && Inert(Get(p, "dest"))
            && forall t :: FolderAndSelector(Get(p, "source_dir"), t) == (Get(p, "source_dir"), t)
  {
    PathInertAt(d, observed, 0, "source_dir");
    PathInertAt(d, observed, 2, "dest");
  }

  lemma {:induction false} MoveInert(d: Derivation, observed: seq<string>)
    requires Fits(d, observed) && SafePaths(observed) != [] && (d.shape.Move? || d.shape.Copy?)
    ensures TransferInert(Meant(d).params) <==> TextsTame(d)
  {
    TransferTexts(d, observed);
    TransferPaths(d, observed);
    TransferInertExactly(Meant(d).params, d.fills[1], d.fills[NewNameSlot(d.shape)]);
  }

  lemma {:induction false} UsedByPath(call: Call)
    ensures call.verb == "make_folder" ==> UsedInert(call) == Inert(Get(call.params, "path"))
    ensures call.verb == "rename" ==>
              UsedInert(call) == (Inert(Get(call.params, "path")) && Inert(Get(call.params, "new_name")))
    ensures call.verb == "write_file" ==>
              UsedInert(call) == (Inert(Get(call.params, "path")) && Inert(Get(call.params, "content")))
  {
  }

  lemma {:induction false} PathCallInert(d: Derivation, observed: seq<string>)
    requires Fits(d, observed) && SafePaths(observed) != []
    requires d.shape.Rename? || d.shape.MakeFolder? || d.shape.WriteFile?
    ensures UsedInert(Meant(d)) <==> TextsTame(d)
  {
    PathInertAt(d, observed, 0, "path");
    UsedByPath(Meant(d));
    if d.shape.Rename? {
      TextInertAt(d, observed, 1, "new_name");
    } else if d.shape.WriteFile? {
      TextInertAt(d, observed, 1, "content");
    }
  }

  lemma {:induction false} DeleteInert(d: Derivation, observed: seq<string>)
    requires Fits(d, observed) && SafePaths(observed) != [] && d.shape.Delete?
    ensures UsedInert(Meant(d)) <==> TextsTame(d)
  {
    PathInertAt(d, observed, 0, "source_dir");
    TextInertAt(d, observed, 1, "selector");
    UsedByDelete(Meant(d));
  }

  lemma {:induction false} UsedByDelete(call: Call)
    requires call.verb == "delete"
    ensures var (sd, sel) := FolderAndSelector(Get(call.params, "source_dir"), Get(call.params, "selector"));
            UsedInert(call) == (Inert(sd) && Inert(sel))
  {
  }

  lemma {:induction false} DestinationInert(d: Derivation, observed: seq<string>)
    requires Fits(d, observed) && SafePaths(observed) != []
    requires d.shape.ExtractValue? || d.shape.ExtractCount? || d.shape.ExtractList?
    ensures Inert(Destination(Meant(d).params))
  {
    PathInertAt(d, observed, 3, "dest_file");
  }

  lemma {:induction false} ValueInert(d: Derivation, observed: seq<string>)
    requires Fits(d, observed) && SafePaths(observed) != [] && d.shape.ExtractValue?
    ensures InnerInert(Meant(d).params) <==> TextsTame(d)
  {
    ModeWord(d, observed);
    PathInertAt(d, observed, 1, "source");
    TextInertAt(d, observed, 2, "pattern");
  }

  lemma {:induction false} InnerByMode(p: Params)
    ensures InnerInert(p)
            == if Get(p, "mode") == "value" then Inert(Get(p, "pattern")) && Inert(Get(p, "source"))
               else Inert(Get(p, "source_dir")) && Inert(Get(p, "selector"))
  {
  }

  lemma {:induction false} FolderInert(d: Derivation, observed: seq<string>)
    requires Fits(d, observed) && SafePaths(observed) != [] && (d.shape.ExtractCount? || d.shape.ExtractList?)
    ensures InnerInert(Meant(d).params) <==> TextsTame(d)
  {
    ModeWord(d, observed);
    PathInertAt(d, observed, 1, "source_dir");
    TextInertAt(d, observed, 2, "selector");
    InnerByMode(Meant(d).params);
  }

  lemma {:induction false} UsedInertExactly(d: Derivation, observed: seq<string>)
    requires Fits(d, observed) && SafePaths(observed) != []
    ensures UsedInert(Meant(d)) <==> TextsTame(d)
  {
    UsedByVerb(Meant(d));
    match d.shape
    case Move => MoveInert(d, observed);
    case Copy => MoveInert(d, observed);
    case Delete => DeleteInert(d, observed);
    case Rename => PathCallInert(d, observed);
    case MakeFolder => PathCallInert(d, observed);
    case WriteFile => PathCallInert(d, observed);
    case ExtractValue =>
      ValueInert(d, observed);
      DestinationInert(d, observed);
    case _ =>
      FolderInert(d, observed);
      DestinationInert(d, observed);
  }

  /** The command of a derivable call is read by a shell as it was meant, each slot one argument, if and
      only if the free text that the command uses holds no backquote and no dollar sign that starts an
      expansion. Otherwise what a shell reads differs by the time the reading ends, or stops. */
  lemma {:induction false} DerivableReadExactly(d: Derivation, observed: seq<string>)
    requires Fits(d, observed) && SafePaths(observed) != [] && !LacksSlot(d)
    ensures CommandOf(Meant(d)).Some?
    ensures Shell.Tokens(CommandOf(Meant(d)).value) == Some(CommandTokens(Meant(d))) <==> TextsTame(d)
    ensures !TextsTame(d) ==> Shell.NeverRead(CommandOf(Meant(d)).value, CommandTokens(Meant(d)))
  {
    CommandBuiltExactly(d, observed);
    CommandReadExactly(Meant(d));
    UsedInertExactly(d, observed);
  }

  /** So the command is read as meant where no free text holds a backquote, or a dollar sign but for the last
      character, as in a pattern anchored at the end. */
  lemma {:induction false} PlainTextReadAsMeant(d: Derivation, observed: seq<string>)
    requires Fits(d, observed) && SafePaths(observed) != [] && !LacksSlot(d)
    requires forall i | 0 <= i < |d.fills| && d.fills[i].Text? :: Anchored(d.fills[i].text)
    ensures CommandOf(Meant(d)).Some?
    ensures Shell.Tokens(CommandOf(Meant(d)).value) == Some(CommandTokens(Meant(d)))
  {
    TextSlots(d, observed);
    DerivableReadExactly(d, observed);
  }

  predicate Anchored(t: string) {
    '`' !in t && (t != "" ==> '$' !in t[..|t| - 1])
  }

  lemma {:induction false} AnchoredTame(t: string)
    requires Anchored(t)
    ensures Tame(t)
  {
    forall i | 0 <= i < |t| ensures t[i] != '`' && (t[i] == '$' && i + 1 < |t| ==> !Shell.StartsExpansion(t[i + 1])) {
      assert t[i] in t;
      if i + 1 < |t| {
        assert t[..|t| - 1][i] == t[i];
      }
    }
  }

  // The slots that hold free text, shape by shape.
  lemma {:induction false} TextSlots(d: Derivation, observed: seq<string>)
    requires Fits(d, observed)
    requires forall i | 0 <= i < |d.fills| && d.fills[i].Text? :: Anchored(d.fills[i].text)
    ensures TextsTame(d)
  {
    forall i | 0 <= i < |d.fills| && SlotsOf(d.shape)[i].form.Free? ensures Tame(Value(d.fills[i])) {
      assert SlotFits(SlotsOf(d.shape)[i], d.fills[i], SafePaths(observed));
      AnchoredTame(Value(d.fills[i]));
    }
  }

  // ---------- the chain ----------

  /** The chain, for every output the grammar allows. It is read as the call it spells, slot by slot, if and
      only if its free text keeps to one line; the validator accepts that call if and only if its paths are
      clean; it builds a command unless a needed slot is empty; a shell reads the command as meant if and only
      if the free text it uses is tame. */
  lemma {:induction false} WholeChain(observed: seq<string>, s: string) returns (d: Derivation)
    requires Derives(Grammar(observed), s)
    ensures Fits(d, observed) && s == Print(d) && Meant(d).verb == Verb(d.shape)
    ensures SlotsRead(SlotsOf(d.shape), d.fills, Meant(d).params)
    ensures ReadOutput(s) == Some(Meant(d)) <==> OneLine(d)
    ensures SafePaths(observed) != [] ==>
              && (Validate(Meant(d), observed).None? <==> PathsOk(d))
              && (CommandOf(Meant(d)).None? <==> LacksSlot(d))
              && (!LacksSlot(d) ==>
                    (Shell.Tokens(CommandOf(Meant(d)).value) == Some(CommandTokens(Meant(d))) <==> TextsTame(d)))
              && (OneLine(d) ==> (Attempt(s, observed).Some? <==> PathsOk(d) && !LacksSlot(d)))
  {
    d := Derivable(observed, s);
    MeantRead(d);
    ReadExactly(d, observed);
    if SafePaths(observed) != [] {
      AcceptedExactly(d, observed);
      CommandBuiltExactly(d, observed);
      if !LacksSlot(d) {
        DerivableReadExactly(d, observed);
      }
      if OneLine(d) {
        AttemptExactly(d, observed);
      }
    }
  }

  // ---------- slots left without their text ----------

  /** The example: a rename to "<>" is derivable and accepted, and builds no command. */
  lemma {:induction false} BracketsBuildNothing(path: string, d: Derivation)
    requires SafePath(path) && CleanPath(path) && d == Derivation(Rename, [Observed(path), Text("<>")])
    ensures Derives(Grammar([path]), Print(d)) && Validate(Meant(d), [path]).None?
    ensures CommandOf(Meant(d)).None? && Attempt(Print(d), [path]).None?
  {
    RenameFits(path, "<>");
    Printable([path], d);
    assert path in SafePaths([path]);
    AcceptedExactly(d, [path]);
    NoNameLeft(path, d);
    CommandBuiltExactly(d, [path]);
    AttemptExactly(d, [path]);
  }

  lemma {:induction false} NoNameLeft(path: string, d: Derivation)
    requires CleanPath(path) && d == Derivation(Rename, [Observed(path), Text("<>")])
    ensures OneLine(d) && PathsOk(d) && LacksSlot(d)
  {
    assert "<>"[1..] == ">" && ">"[1..] == "";
    assert StripStart("<>", "<>") == "";
  }

  lemma {:induction false} RenameFits(path: string, t: string)
    requires SafePath(path) && AllIn(t, FreeText)
    ensures Fits(Derivation(Rename, [Observed(path), Text(t)]), [path])
  {
    var d := Derivation(Rename, [Observed(path), Text(t)]);
    assert SafePaths([path]) == [path] by {
      assert [path][1..] == [];
    }
    assert path in [path];
    assert FormFits(Source, d.fills[0], [path]) && FormFits(Free, d.fills[1], [path]);
  }

  // ---------- expanding characters ----------

  // The command of a rename to the output of another command, as a shell reads it.
  lemma {:induction false} RenameToOutput(path: string, program: string)
    requires Inert(path) && Shell.IsBareWord(program)
    ensures Shell.Tokens(Shell.Joined(RenameWords(path, Substituted(program))))
            == Some(Shell.Words(["mv", Kept(path)])
                    + [Shell.Word([DirOutput(path)] + (Shell.Plain("/") + [Shell.Output(Shell.Words([program]))]))])
  {
    var last := DirOf(Q(path)) + ("/" + Q(Substituted(program)));
    var parts := [DirOutput(path)] + (Shell.Plain("/") + [Shell.Output(Shell.Words([program]))]);
    OutputNameIsWord(path, program, parts);
    WordMeans(last, parts, true);
    MovedMeans(path);
    Shell.MeansJoin(["mv", Q(path)], Shell.Words(["mv", Kept(path)]), true, [last], [Shell.Word(parts)], true);
    assert RenameWords(path, Substituted(program)) == ["mv", Q(path)] + [last];
    Shell.JoinedReadExactly(["mv", Q(path)] + [last], Shell.Words(["mv", Kept(path)]) + [Shell.Word(parts)], true);
  }

  lemma {:induction false} OutputNameIsWord(path: string, program: string, parts: seq<Shell.Part>)
    requires Inert(path) && Shell.IsBareWord(program)
    requires parts == [DirOutput(path)] + (Shell.Plain("/") + [Shell.Output(Shell.Words([program]))])
    ensures IsWord(DirOf(Q(path)) + ("/" + Q(Substituted(program))), parts, true)
  {
    var sub := SubstitutionOf(program);
    DirMeans(path);
    var g := SubstitutionShown(["dirname", Q(path)], Shell.Words(["dirname", Kept(path)]), true);
    ThreeSegments(g, Shell.Bare("/"), sub);
    SegmentsAreWord([g, Shell.Bare("/"), sub]);
  }

  lemma {:induction false} SubstitutionOf(program: string) returns (g: Shell.Segment)
    requires Shell.IsBareWord(program)
    ensures Shell.FormedSegment(g) && Shell.SoundSegment(g) && Shell.ShownSegment(g) == Q(Substituted(program))
    ensures Shell.SegmentParts(g) == [Shell.Output(Shell.Words([program]))]
  {
    Shell.MeansBare([program]);
    g := SubstitutionShown([program], Shell.Words([program]), true);
    NoQuotesKept(Substituted(program));
    assert Shell.Joined([program]) == program;
  }

  lemma {:induction false} NoQuotesKept(s: string)
    requires '"' !in s
    ensures Kept(s) == s
  {
    if s == "" {
    } else {
      assert s == [s[0]] + s[1..];
      NoQuotesKept(s[1..]);
    }
  }

  function Substituted(program: string): string {
    "$(" + (program + ")")
  }

  lemma {:induction false} OutputNameIsFree(program: string)
    requires Shell.IsBareWord(program)
    ensures AllIn(Substituted(program), FreeText) && Strip(Substituted(program), "<>") == Substituted(program) != ""
    ensures '\n' !in Substituted(program) && !Tame(Substituted(program))
  {
    var t := Substituted(program);
    assert t[0] == '$' && t[1] == '(' && Shell.StartsExpansion(t[1]);
    assert t[|t| - 1] == ')';
    NoOuter(t, "<>");
  }

  lemma {:induction false} OutputNameAttempted(path: string, program: string, d: Derivation)
    requires SafePath(path) && CleanPath(path) && Shell.IsBareWord(program)
    requires d == Derivation(Rename, [Observed(path), Text(Substituted(program))])
    ensures Fits(d, [path]) && SafePaths([path]) != [] && !LacksSlot(d) && !TextsTame(d)
    ensures Attempt(Print(d), [path]) == CommandOf(Meant(d))
  {
    OutputNameIsFree(program);
    RenameFits(path, Substituted(program));
    assert path in SafePaths([path]);
    NameNeedsNothing(path, Substituted(program), d);
    AttemptExactly(d, [path]);
  }

  lemma {:induction false} NameNeedsNothing(path: string, t: string, d: Derivation)
    requires CleanPath(path) && d == Derivation(Rename, [Observed(path), Text(t)])
    requires '\n' !in t && Strip(t, "<>") != ""
    ensures OneLine(d) && PathsOk(d) && !LacksSlot(d) && (TextsTame(d) <==> Tame(t))
  {
  }

  lemma {:induction false} NotReadAsMeant(d: Derivation, observed: seq<string>, cmd: string)
    requires Fits(d, observed) && SafePaths(observed) != [] && !LacksSlot(d) && !TextsTame(d)
    requires CommandOf(Meant(d)) == Some(cmd)
    ensures Shell.Tokens(cmd) != Some(CommandTokens(Meant(d)))
  {
    DerivableReadExactly(d, observed);
  }

  // mv the path to what the program prints, in the folder of the path
  function OutputRename(path: string, program: string): seq<Shell.Token> {
    Shell.Words(["mv", path])
    + [Shell.Word([DirOutput(path)] + (Shell.Plain("/") + [Shell.Output(Shell.Words([program]))]))]
  }

  lemma {:induction false} OutputNameTokens(path: string, program: string)
    requires SafePath(path) && Shell.IsBareWord(program)
    ensures Shell.Tokens(Shell.Joined(RenameWords(path, Substituted(program)))) == Some(OutputRename(path, program))
  {
    PathIsInert(Observed(path));
    PathValue(Observed(path));
    NoQuotesKept(path);
    RenameToOutput(path, program);
  }

  /** The examples: a rename to "$(program)" is derivable, accepted and built, and the shell renames to the
      output of the program instead. */
  lemma {:induction false} NameTakenFromOutput(path: string, program: string, d: Derivation) returns (cmd: string)
    requires SafePath(path) && CleanPath(path) && Shell.IsBareWord(program)
    requires d == Derivation(Rename, [Observed(path), Text(Substituted(program))])
    ensures Derives(Grammar([path]), Print(d)) && Attempt(Print(d), [path]) == Some(cmd)
    ensures Shell.Tokens(cmd) == Some(OutputRename(path, program)) != Some(CommandTokens(Meant(d)))
  {
    cmd := Shell.Joined(RenameWords(path, Substituted(program)));
    OutputNameAttempted(path, program, d);
    Printable([path], d);
    OutputNameIsFree(program);
    RenameBuilt(d, path, Substituted(program));
    NotReadAsMeant(d, [path], cmd);
    OutputNameTokens(path, program);
  }

  lemma {:induction false} RenameBuilt(d: Derivation, path: string, t: string)
    requires SafePath(path) && d == Derivation(Rename, [Observed(path), Text(t)])
    requires Strip(t, "<>") == t != ""
    ensures CommandOf(Meant(d)) == Some(Shell.Joined(RenameWords(path, t)))
  {
    RenameSlots(d, path, t);
    assert Get(Meant(d).params, "path") == path && Get(Meant(d).params, "new_name") == t;
  }

  lemma {:induction false} RenameSlots(d: Derivation, path: string, t: string)
    requires SafePath(path) && d == Derivation(Rename, [Observed(path), Text(t)]) && Strip(t, "<>") == t
    ensures Get(Meant(d).params, "path") == path && Get(Meant(d).params, "new_name") == t
  {
    TextAt(d, 0, "path");
    TextAt(d, 1, "new_name");
    PathValue(Observed(path));
    assert path[0] in path && path[|path| - 1] in path;
    NoOuter(path, "<>");
  }
}
