/** What is read of a printed capability call that has a line break in one of its slots: the first line, up to
    the last closing parenthesis in it. */
module CapabilityCut {
  import opened CapabilityCall
  import opened CapabilityReadBack
  import opened Sequences
  import opened Text
  import opened Wrappers

  // ---------- what the first line holds ----------

  ghost predicate AllSound(args: seq<Arg>) {
    forall a | a in args :: Sound(a)
  }

  ghost predicate Breaks(args: seq<Arg>) {
    exists a | a in args :: '\n' in a.value
  }

  // The slots up to the one with the first line break, and of that one what stands before the break.
  function Visible(args: seq<Arg>): seq<Arg> {
    if args == [] then []
    else
      match Find(args[0].value, "\n")
      case None => [args[0]] + Visible(args[1..])
      case Some(k) => [args[0].(value := args[0].value[..k])]
  }

  // The slots up to the one with the last closing parenthesis, and of that one what stands before it without
  // the white space at its end; no slots when none has a parenthesis.
  function CutSlots(args: seq<Arg>): Option<Params> {
    if args == [] then None
    else
      match CutSlots(args[1..])
      case Some(more) => Some(map[args[0].key := Meaning(args[0])] + more)
      case None => CutSlot(args[0])
  }

  // What is read of a slot that is cut at its last parenthesis.
  function CutSlot(a: Arg): Option<Params> {
    match FindLast(a.value, ')')
    case None => None
    case Some(k) => Some(map[a.key := Strip(TrimEnd(a.value[..k]), "<>")])
  }

  lemma {:induction false} CutExactly(args: seq<Arg>)
    ensures CutSlots(args).Some? <==> exists a | a in args :: ')' in a.value
    decreases |args|
  {
    if args == [] {
    } else {
      CutExactly(args[1..]);
      assert args == [args[0]] + args[1..];
      if FindLast(args[0].value, ')').Some? {
        assert args[0] in args && ')' in args[0].value;
      }
    }
  }

  // The list of slots as far as the first line shows it.
  function SeenText(args: seq<Arg>): string {
    if args == [] then ""
    else
      match Find(args[0].value, "\n")
      case None => Shown(args[0]) + (", " + SeenText(args[1..]))
      case Some(k) => args[0].key + ("=\"" + args[0].value[..k])
  }

  lemma {:induction false} BreakFound(v: string)
    ensures match Find(v, "\n")
            case None => '\n' !in v
            case Some(k) => k < |v| && v[k] == '\n' && '\n' !in v[..k]
  {
    forall i | 0 <= i < |v| && v[i] == '\n' ensures Find(v, "\n").Some? && Find(v, "\n").value <= i {
      assert v[i..i + 1] == "\n" && StandsAt(v, "\n", i);
      FindIsFirst(v, "\n", i);
    }
    if Find(v, "\n").Some? {
      var k := Find(v, "\n").value;
      assert v[k..k + 1][0] == v[k];
    }
  }

  lemma {:induction false} BreakGrouped(key: string, t: string, u: string)
    ensures key + ("=" + ("\"" + ((t + ("\n" + u)) + "\""))) == (key + ("=\"" + t)) + ("\n" + (u + "\""))
  {
  }

  lemma {:induction false} BrokenArg(a: Arg, k: nat)
    requires Sound(a) && Find(a.value, "\n") == Some(k)
    ensures a.quoted && k < |a.value|
    ensures Shown(a) == (a.key + ("=\"" + a.value[..k])) + ("\n" + (a.value[k + 1..] + "\""))
  {
    BreakFound(a.value);
    assert a.value[k] in a.value;
    assert a.value == a.value[..k] + ("\n" + a.value[k + 1..]);
    BreakGrouped(a.key, a.value[..k], a.value[k + 1..]);
  }

  lemma {:induction false} SeenArg(key: string, t: string)
    requires IsName(key) && '\n' !in t
    ensures '\n' !in key + ("=\"" + t)
  {
  }

  lemma {:induction false} WholeArg(a: Arg)
    requires Sound(a) && '\n' !in a.value
    ensures '\n' !in Shown(a)
  {
  }

  lemma {:induction false} ListBreaks(args: seq<Arg>, end: string) returns (rest: string)
    requires AllSound(args) && Breaks(args)
    ensures Shown(args[0]) + (Tail(args[1..]) + end) == SeenText(args) + ("\n" + rest)
    ensures '\n' !in SeenText(args)
    decreases |args|
  {
    var a, more := args[0], args[1..];
    assert args == [a] + more && a in args;
    BreakFound(a.value);
    match Find(a.value, "\n")
    case Some(k) =>
      BrokenArg(a, k);
      SeenArg(a.key, a.value[..k]);
      rest := (a.value[k + 1..] + "\"") + (Tail(more) + end);
      Grouped(a.key + ("=\"" + a.value[..k]), "\n" + (a.value[k + 1..] + "\""), Tail(more) + end);
      Grouped("\n", a.value[k + 1..] + "\"", Tail(more) + end);
    case None =>
      WholeArg(a);
      rest := ListBreaks(more, end);
      TailGrouped(Shown(more[0]), Tail(more[1..]), end);
      Grouped(", ", SeenText(more), "\n" + rest);
      Grouped(Shown(a), ", " + SeenText(more), "\n" + rest);
  }

  lemma {:induction false} TailGrouped(shown: string, tail: string, end: string)
    ensures (", " + (shown + tail)) + end == ", " + (shown + (tail + end))
  {
  }

  // ---------- the slots before the last parenthesis ----------

  lemma {:induction false} OpenQuoteKept(key: string, w: string, lead: string)
    requires IsName(key) && '"' !in w
    ensures Arguments(key + ("=\"" + w), false, lead) == [lead + (key + ("=\"" + w))]
  {
    NameStays(key);
    var start, all := key + "=", lead + (key + ("=\"" + w));
    assert key + ("=\"" + w) == start + ("\"" + w);
    PlainKept(start, "\"" + w, lead);
    QuoteTurns(w, false, lead + start);
    QuotedKept(w, "", lead + start + "\"");
    assert w + "" == w && lead + start + "\"" + w == all;
    LastShown(all, |lead|);
  }

  lemma {:induction false} Outside(s: string, a: nat, b: nat)
    requires a <= b <= |s| && AllSpace(s[..a]) && AllSpace(s[b..])
    ensures forall k | 0 <= k < |s| && (k < a || b <= k) :: IsSpace(s[k])
  {
    forall k | 0 <= k < |s| && (k < a || b <= k) ensures IsSpace(s[k]) {
      assert k < a ==> s[k] == s[..a][k];
      assert b <= k ==> s[k] == s[b..][k - b];
    }
  }

  lemma {:induction false} LastShown(last: string, i: nat)
    requires i < |last| && !IsSpace(last[i])
    ensures Arguments("", true, last) == [last]
  {
    var a, b := Trimmed(last);
    Outside(last, a, b);
  }

  lemma {:induction false} OpenQuoteValue(w: string)
    requires '"' !in w
    ensures ValueOf("\"" + w) == Strip(TrimEnd(w), "<>")
  {
    TrimEndAfter('"', w);
    var t := TrimEnd(w);
    var b := TrimEndExactly(w);
    assert '"' !in t;
    assert ("\"" + t)[1..] == t;
    if t != "" {
      assert t[0] in t && t[|t| - 1] in t;
    }
    assert StripStart(t, "\"") == t;
    assert StripStart("\"" + t, "\"") == t;
    assert StripEnd(t, "\"") == t;
    assert TrimStart("\"" + w) == "\"" + w;
  }

  lemma {:induction false} TrimEndAfter(c: char, w: string)
    requires !IsSpace(c)
    ensures TrimEnd([c] + w) == [c] + TrimEnd(w)
    decreases |w|
  {
    var all := [c] + w;
    if w == "" {
    } else if IsSpace(w[|w| - 1]) {
      assert all[..|all| - 1] == [c] + w[..|w| - 1];
      TrimEndAfter(c, w[..|w| - 1]);
    }
  }

  // A slot that is cut in the middle of its text.
  lemma {:induction false} CutArgRead(key: string, w: string, lead: string)
    requires IsName(key) && '"' !in w && forall c | c in lead :: c == ' '
    ensures Entries(Arguments(key + ("=\"" + w), false, lead)) == map[key := Strip(TrimEnd(w), "<>")]
  {
    var part := lead + (key + ("=\"" + w));
    OpenQuoteKept(key, w, lead);
    assert part == (lead + key) + ("=" + ("\"" + w));
    KeyRead(lead, key, "\"" + w);
    OpenQuoteValue(w);
    assert [part][1..] == [] && Entry(part) + map[] == Entry(part);
  }

  lemma {:induction false} MoreRead(a: Arg, text: string, lead: string, more: Params)
    requires Sound(a) && (forall c | c in lead :: c == ' ') && Entries(Arguments(text, false, " ")) == more
    ensures Entries(Arguments(Shown(a) + (", " + text), false, lead)) == map[a.key := Meaning(a)] + more
  {
    var rest := Arguments(text, false, " ");
    ShownKept(a, ", " + text, lead);
    CommaEnds(text, lead + Shown(a));
    EntryRead(lead, a);
    assert ([lead + Shown(a)] + rest)[1..] == rest;
  }

  lemma {:induction false} NoParenthesis(a: Arg)
    requires Sound(a)
    ensures ')' in Shown(a) <==> ')' in a.value
    ensures !a.quoted ==> ')' !in a.value
  {
    NameStays(a.key);
    if !a.quoted {
      NameStays(a.value);
    }
    if ')' in a.value {
      assert ')' in Raw(a);
    }
  }

  // A text with a last parenthesis, in front of a text without.
  lemma {:induction false} LastSplit(v: string) returns (p: string, q: string)
    requires ')' in v
    ensures var k := FindLast(v, ')');
            k.Some? && v == p + (")" + q) && p == v[..k.value] && ')' !in q
  {
    var k := FindLast(v, ')').value;
    p, q := v[..k], v[k + 1..];
  }

  lemma {:induction false} CutInArg(a: Arg, lead: string, after: string) returns (p: string, q: string)
    requires Sound(a) && ')' in a.value && ')' !in after && forall c | c in lead :: c == ' '
    ensures a.key + ("=\"" + (a.value + after)) == p + (")" + q) && ')' !in q
    ensures Entries(Arguments(p, false, lead))
            == map[a.key := Strip(TrimEnd(a.value[..FindLast(a.value, ')').value]), "<>")]
  {
    NoParenthesis(a);
    var w, u := LastSplit(a.value);
    assert '"' !in w;
    p, q := a.key + ("=\"" + w), u + after;
    CutGrouped(a.key, w, u, after);
    CutArgRead(a.key, w, lead);
  }

  lemma {:induction false} CutGrouped(key: string, w: string, u: string, after: string)
    ensures key + ("=\"" + ((w + (")" + u)) + after)) == (key + ("=\"" + w)) + (")" + (u + after))
  {
  }

  // A text up to its last parenthesis p, and what is read of that; or no parenthesis in it.
  ghost predicate CutRead(text: string, slots: Option<Params>, lead: string, p: string, q: string) {
    match slots
    case None => ')' !in text
    case Some(m) => text == p + (")" + q) && ')' !in q && Entries(Arguments(p, false, lead)) == m
  }

  /** The list of slots as the first line shows it, and what is read of it up to its last parenthesis. */
  lemma {:induction false} ListCut(args: seq<Arg>, lead: string) returns (p: string, q: string)
    requires AllSound(args) && Breaks(args) && forall c | c in lead :: c == ' '
    ensures CutRead(SeenText(args), CutSlots(Visible(args)), lead, p, q)
    decreases |args|
  {
    var a, more := args[0], args[1..];
    assert args == [a] + more && a in args;
    BreakFound(a.value);
    match Find(a.value, "\n")
    case Some(k) =>
      var cut := a.(value := a.value[..k]);
      BrokenArg(a, k);
      assert Visible(args) == [cut] && [cut][1..] == [] && CutSlots([]) == None;
      p, q := LastArgCut(cut, lead);
    case None =>
      var x, y := ListCut(more, " ");
      assert Visible(args)[1..] == Visible(more);
      p, q := ListCutStep(a, SeenText(more), CutSlots(Visible(more)), lead, x, y);
  }

  lemma {:induction false} LastArgCut(a: Arg, lead: string) returns (p: string, q: string)
    requires Sound(a) && a.quoted && forall c | c in lead :: c == ' '
    ensures CutRead(a.key + ("=\"" + a.value), CutSlot(a), lead, p, q)
  {
    p, q := "", "";
    NoParenthesis(a);
    NameStays(a.key);
    if ')' in a.value {
      p, q := CutInArg(a, lead, "");
      assert a.value + "" == a.value;
    }
  }

  lemma {:induction false} ListCutStep(
    a: Arg, text: string, more: Option<Params>, lead: string, x: string, y: string)
    returns (p: string, q: string)
    requires Sound(a) && (forall c | c in lead :: c == ' ') && CutRead(text, more, " ", x, y)
    ensures CutRead(Shown(a) + (", " + text),
                    if more.Some? then Some(map[a.key := Meaning(a)] + more.value) else CutSlot(a), lead, p, q)
  {
    NoParenthesis(a);
    p, q := "", "";
    if more.Some? {
      p, q := Shown(a) + (", " + x), y;
      LaterCut(Shown(a), x, y);
      MoreRead(a, x, lead, more.value);
    } else if ')' in a.value {
      p, q := CutInArg(a, lead, "\"" + (", " + text));
      QuotedThen(a.key, a.value, ", " + text);
    } else {
      NeitherHolds(Shown(a), text);
    }
  }

  lemma {:induction false} LaterCut(shown: string, x: string, y: string)
    ensures shown + (", " + (x + (")" + y))) == (shown + (", " + x)) + (")" + y)
  {
  }

  lemma {:induction false} QuotedThen(key: string, value: string, rest: string)
    ensures (key + ("=" + ("\"" + (value + "\"")))) + rest == key + ("=\"" + (value + ("\"" + rest)))
  {
  }

  lemma {:induction false} NeitherHolds(shown: string, text: string)
    requires ')' !in shown && ')' !in text
    ensures ')' !in shown + (", " + text)
  {
  }

  // ---------- the line ----------

  // Nothing but white space and closing brackets is missing at the end.
  ghost predicate Shorn(y: string, x: string) {
    y <= x && forall c | c in x[|y|..] :: IsSpace(c) || c == ']'
  }

  lemma {:induction false} ShornTwice(z: string, y: string, x: string)
    requires Shorn(z, y) && Shorn(y, x)
    ensures Shorn(z, x)
  {
    assert x[|z|..] == y[|z|..] + x[|y|..];
  }

  lemma {:induction false} TrimShears(s: string)
    requires s != "" && !IsSpace(s[0])
    ensures Shorn(Trim(s), s) && Trim(s) != "" && Trim(s)[0] == s[0]
  {
    var a, b := Trimmed(s);
    Outside(s, a, b);
  }

  lemma {:induction false} StripShears(s: string)
    ensures Shorn(StripEnd(s, "]"), s)
    decreases |s|
  {
    if s != "" && s[|s| - 1] in "]" {
      StripShears(s[..|s| - 1]);
      var y := StripEnd(s[..|s| - 1], "]");
      assert s[|y|..] == s[..|s| - 1][|y|..] + [s[|s| - 1]];
    }
  }

  lemma {:induction false} ReturnShears(s: string)
    ensures Shorn(WithoutReturn(s), s)
  {
  }

  lemma {:induction false} ShornKeeps(y: string, x: string, i: nat)
    requires Shorn(y, x) && i < |x| && !IsSpace(x[i]) && x[i] != ']'
    ensures i < |y| && y[i] == x[i]
  {
    forall k | |y| <= k < |x| ensures IsSpace(x[k]) || x[k] == ']' {
      assert x[k] == x[|y|..][k - |y|];
    }
  }

  // The call in a bracket that may have lost its end.
  lemma {:induction false} BodyShorn(x: string, line: string)
    requires x != "" && 'a' <= x[0] <= 'z' && Shorn(line, "[" + x) && line != ""
    ensures Shorn(Body(line), x) && Body(line) != ""
  {
    var t := Trim(line);
    TrimShears(line);
    ShornTwice(t, line, "[" + x);
    ShornKeeps(t, "[" + x, 1);
    var u := t[1..];
    assert StripStart(t, "[") == u;
    assert ("[" + x)[|t|..] == x[|u|..];
    assert Shorn(u, x);
    var v := StripEnd(u, "]");
    StripShears(u);
    ShornTwice(v, u, x);
    ShornKeeps(v, x, 0);
    TrimShears(v);
    ShornTwice(Trim(v), v, x);
  }

  lemma {:induction false} CutBodyRead(line: string, verb: string, p: string, q: string)
    requires IsName(verb) && ')' !in q && Shorn(Body(line), verb + ("(" + (p + (")" + q))))
    ensures CallOf(line) == Some(Call(verb, Entries(Arguments(p, false, ""))))
  {
    var z := ShornCall(Body(line), verb, p, q);
    CutSplit(verb, p, z);
    VerbRead(verb);
  }

  lemma {:induction false} ShornCall(y: string, verb: string, p: string, q: string) returns (z: string)
    requires Shorn(y, verb + ("(" + (p + (")" + q)))) && ')' !in q
    ensures y == verb + ("(" + (p + (")" + z))) && ')' !in z
  {
    var before := verb + ("(" + p);
    var x := before + (")" + q);
    assert x == verb + ("(" + (p + (")" + q)));
    assert x[|before|] == ')';
    ShornKeeps(y, x, |before|);
    z := y[|before| + 1..];
    assert z == q[..|z|];
    assert y == before + (")" + z);
  }

  lemma {:induction false} CutSplit(verb: string, p: string, z: string)
    requires IsName(verb) && ')' !in z
    ensures var s := verb + ("(" + (p + (")" + z)));
            && Find(s, "(") == Some(|verb|) && FindLast(s, ')') == Some(|verb| + 1 + |p|)
            && s[..|verb|] == verb && s[|verb| + 1..|verb| + 1 + |p|] == p
  {
    var s := verb + ("(" + (p + (")" + z)));
    NameStays(verb);
    FindFirst(verb, '(', p + (")" + z));
    LastStands(verb + ("(" + p), z);
    assert s == (verb + ("(" + p)) + (")" + z);
  }

  lemma {:induction false} LastStands(before: string, after: string)
    requires ')' !in after
    ensures FindLast(before + (")" + after), ')') == Some(|before|)
  {
    var s := before + (")" + after);
    assert s[|before|] == ')' && ')' in s;
    var k := FindLast(s, ')').value;
    forall j | k < j < |s| ensures s[j] != ')' {
      assert s[j] == s[k + 1..][j - k - 1];
    }
    forall j | |before| < j < |s| ensures s[j] != ')' {
      assert s[j] == after[j - |before| - 1];
    }
  }

  lemma {:induction false} NeverParenthesis(verb: string, seen: string)
    requires IsName(verb) && ')' !in seen
    ensures ')' !in verb + ("(" + seen)
  {
    NameStays(verb);
  }

  lemma {:induction false} NoCallRead(line: string, x: string)
    requires ')' !in x && Shorn(Body(line), x)
    ensures CallOf(line).None?
  {
  }

  // ---------- the output ----------

  lemma {:induction false} FirstLineOf(a: string, rest: string)
    requires '\n' !in a && a != "" && !IsSpace(a[0])
    ensures FirstText(Lines(a + ("\n" + rest))) == Some(Trim(WithoutReturn(a)))
    ensures Shorn(Trim(WithoutReturn(a)), a) && Trim(WithoutReturn(a)) != ""
  {
    var s := a + ("\n" + rest);
    FindFirst(a, '\n', rest);
    assert s[..|a|] == a;
    ReturnShears(a);
    TrimShears(WithoutReturn(a));
    ShornTwice(Trim(WithoutReturn(a)), WithoutReturn(a), a);
  }

  lemma {:induction false} LineGrouped(verb: string, shown: string, tail: string, seen: string, rest: string)
    requires shown + (tail + ")]") == seen + ("\n" + rest)
    ensures "[" + (verb + ("(" + (shown + (tail + ")]")))) == ("[" + (verb + ("(" + seen))) + ("\n" + rest)
  {
    assert ("[" + (verb + ("(" + seen))) + ("\n" + rest) == "[" + (verb + ("(" + (seen + ("\n" + rest))));
  }

  /** Of a printed call with a line break the first line is read up to its last closing parenthesis: the slots
      before, and the text of the slot it stands in as far as it goes; without one there is no call. */
  lemma {:induction false} BrokenLineRead(verb: string, args: seq<Arg>)
    requires IsName(verb) && 'a' <= verb[0] <= 'z' && AllSound(args) && Breaks(args)
    ensures ReadOutput(Line(verb, args))
            == match CutSlots(Visible(args)) case None => None case Some(slots) => Some(Call(verb, slots))
  {
    var rest := ListBreaks(args, ")]");
    var seen := SeenText(args);
    var x := verb + ("(" + seen);
    NameStays(verb);
    LineGrouped(verb, Shown(args[0]), Tail(args[1..]), seen, rest);
    FirstLineOf("[" + x, rest);
    var line := Trim(WithoutReturn("[" + x));
    BodyShorn(x, line);
    var p, q := ListCut(args, "");
    if CutSlots(Visible(args)).None? {
      NeverParenthesis(verb, seen);
      NoCallRead(line, x);
    } else {
      CutBodyRead(line, verb, p, q);
    }
  }
}
