/** The bracket-call parser: finds the first name(...) call in model output and reads its arguments. */
module BracketParser {
  import opened Text
  import opened Wrappers

  datatype ToolCall =
    | Click(selector: string)
    | Type(selector: string, text: string)
    | Key(key: string)
    | Wait(ms: nat)
    | Done(reason: string)
    | Chat(text: string)
    | Invoke(name: string, args: string)

  // ---------- the call scanner ----------

  predicate IsWord(c: char) { IsAlnum(c) || c == '_' }

  function WordEnd(s: string, i: nat): (e: nat)
    requires i <= |s|
    ensures i <= e <= |s|
    decreases |s| - i
  {
    if i < |s| && IsWord(s[i]) then WordEnd(s, i + 1) else i
  }

  // Where the parenthesis closes that is open to this depth; a quoted backslash hides the next character.
  function CloseScan(s: string, i: nat, depth: nat, inQuote: bool): (r: Option<nat>)
    requires depth > 0
    ensures r.Some? ==> i <= r.value < |s| && s[r.value] == ')'
    decreases |s| - i
  {
    if i >= |s| then None
    else if s[i] == '\\' && inQuote then CloseScan(s, i + 2, depth, inQuote)
    else if s[i] == '"' then CloseScan(s, i + 1, depth, !inQuote)
    else if s[i] == '(' && !inQuote then CloseScan(s, i + 1, depth + 1, inQuote)
    else if s[i] == ')' && !inQuote then
      if depth == 1 then Some(i) else CloseScan(s, i + 1, depth - 1, inQuote)
    else CloseScan(s, i + 1, depth, inQuote)
  }

  datatype Call = Call(name: string, args: string)

  function FindCall(s: string, i: nat): Option<Call>
    requires i <= |s|
    decreases |s| - i
  {
    if i == |s| then None
    else
      var e := WordEnd(s, i);
      if e == i then FindCall(s, i + 1)
      else if e < |s| && s[e] == '(' then
        match CloseScan(s, e + 1, 1, false)
        case Some(close) => Some(Call(s[i..e], s[e + 1..close]))
        case None => None
      else FindCall(s, e)
  }

  method FindBracketCall(raw: string) returns (call: Option<Call>)
    ensures call == FindCall(raw, 0)
  {
    var i := 0;
    while i < |raw|
      invariant 0 <= i
      invariant FindCall(raw, 0) == (if i <= |raw| then FindCall(raw, i) else None)
    {
      var nameStart := i;
      while i < |raw| && IsWord(raw[i])
        invariant nameStart <= i <= |raw| && WordEnd(raw, i) == WordEnd(raw, nameStart)
      {
        i := i + 1;
      }
      var nameEnd := i;
      if nameEnd > nameStart && i < |raw| && raw[i] == '(' {
        i := i + 1;
        ghost var whole := CloseScan(raw, i, 1, false);
        var depth, inQuote := 1, false;
        while i < |raw| && depth > 0
          invariant nameEnd + 1 <= i <= |raw| + 1
          invariant depth > 0 ==> CloseScan(raw, i, depth, inQuote) == whole
          invariant depth == 0 ==> i < |raw| && whole == Some(i)
          decreases |raw| - i, depth
        {
          if raw[i] == '\\' && inQuote {
            i := i + 1;
          } else if raw[i] == '"' {
            inQuote := !inQuote;
          } else if raw[i] == '(' && !inQuote {
            depth := depth + 1;
          } else if raw[i] == ')' && !inQuote {
            depth := depth - 1;
            if depth == 0 {
              break;
            }
          }
          i := i + 1;
        }
        if depth == 0 {
          return Some(Call(raw[nameStart..nameEnd], raw[nameEnd + 1..i]));
        }
      } else if nameEnd == nameStart {
        i := i + 1;
      }
    }
    return None;
  }

  // ---------- argument extractors ----------

  function UntilQuote(s: string): (r: Option<string>)
    ensures r.Some? ==> |r.value| < |s| && s[..|r.value|] == r.value && s[|r.value|] == '"'
  {
    if s == "" then None
    else if s[0] == '"' then Some("")
    else
      match UntilQuote(s[1..])
      case None => None
      case Some(t) => Some([s[0]] + t)
  }

  // The text between quotes after the leftmost key=" that is closed again.
  function StrArg(args: string, key: string): Option<string> {
    var open := key + "=\"";
    if StartsWith(args, open) && UntilQuote(args[|open|..]).Some? then UntilQuote(args[|open|..])
    else if args == "" then None
    else StrArg(args[1..], key)
  }

  function DigitRun(s: string): (r: string)
    ensures StartsWith(s, r) && forall c | c in r :: IsDigit(c)
  {
    if s != "" && IsDigit(s[0]) then [s[0]] + DigitRun(s[1..]) else ""
  }

  const U64_LIMIT: nat := 0x1_0000_0000_0000_0000

  // The digits after the leftmost key= that has any, if they fit 64 bits.
  function IntArg(args: string, key: string): Option<nat> {
    var open := key + "=";
    if StartsWith(args, open) && DigitRun(args[|open|..]) != "" then
      var n := DigitsValue(DigitRun(args[|open|..]));
      if n < U64_LIMIT then Some(n) else None
    else if args == "" then None
    else IntArg(args[1..], key)
  }

  function AnyQuoted(s: string): Option<string> {
    if s == "" then None
    else
      var t := if s[0] == '"' then UntilQuote(s[1..]) else None;
      if t.Some? && t.value != "" then t else AnyQuoted(s[1..])
  }

  function AnyInt(s: string): Option<nat> {
    if s == "" then None
    else
      var run := DigitRun(s);
      if |run| >= 3 then
        assert run == s[..|run|];
        Some(DigitsValue(if |run| > 5 then run[..5] else run))
      else AnyInt(s[1..])
  }

  function Rescue(raw: string): ToolCall {
    var low := Lower(raw);
    if Contains(low, "click") then Click(GetOr(AnyQuoted(raw), "body"))
    else if Contains(low, "type") then Type("body", GetOr(AnyQuoted(raw), ""))
    else if Contains(low, "key") then Key(GetOr(AnyQuoted(raw), "Return"))
    else if Contains(low, "wait") then Wait(GetOr(AnyInt(raw), 1000))
    else if Contains(low, "done") then Done(GetOr(AnyQuoted(raw), "done"))
    else Chat(raw)
  }

  function Interpret(name: string, args: string): ToolCall {
    if name == "click" then Click(GetOr(StrArg(args, "selector"), "body"))
    else if name == "type" then Type(GetOr(StrArg(args, "selector"), "body"), GetOr(StrArg(args, "text"), ""))
    else if name == "key" then Key(GetOr(StrArg(args, "key"), "Return"))
    else if name == "wait" then Wait(GetOr(IntArg(args, "ms"), 1000))
    else if name == "done" then Done(GetOr(StrArg(args, "reason"), "done"))
    else Invoke(name, args)
  }

  function ParseBracketToolCall(raw: string): ToolCall {
    match FindCall(raw, 0)
    case Some(call) => Interpret(call.name, call.args)
    case None => Rescue(raw)
  }

  // ---------- defaults and rescue ----------

  /** What a call is read as when an argument is missing, and that an unknown name is kept with its arguments. */
  lemma {:induction false} DefaultsExactly(name: string, args: string)
    ensures StrArg(args, "selector").None? ==> Interpret("click", args) == Click("body")
    ensures StrArg(args, "selector").None? && StrArg(args, "text").None? ==> Interpret("type", args) == Type("body", "")
    ensures StrArg(args, "key").None? ==> Interpret("key", args) == Key("Return")
    ensures IntArg(args, "ms").None? ==> Interpret("wait", args) == Wait(1000)
    ensures StrArg(args, "reason").None? ==> Interpret("done", args) == Done("done")
    ensures name != "click" && name != "type" && name != "key" && name != "wait" && name != "done" ==>
              Interpret(name, args) == Invoke(name, args)
  {
  }

  // A quoted text that is not empty stands here.
  predicate QuotedAt(s: string, i: nat, t: string) {
    t != "" && '"' !in t && StandsAt(s, "\"" + (t + "\""), i)
  }

  // The first quoted text, if there is one.
  ghost predicate FirstQuoted(s: string, answer: Option<string>) {
    match answer
    case None => forall i: nat, t :: !QuotedAt(s, i, t)
    case Some(t) => exists i: nat :: QuotedAt(s, i, t) && forall j: nat, u | j < i :: !QuotedAt(s, j, u)
  }

  // As many digits as a number in running text may have, from three to five, from here on.
  predicate NumberAt(s: string, i: nat, digits: string) {
    && 3 <= |digits| <= 5 && StandsAt(s, digits, i) && (forall c | c in digits :: IsDigit(c))
    && (|digits| < 5 ==> i + |digits| == |s| || !IsDigit(s[i + |digits|]))
  }

  ghost predicate FirstNumber(s: string, answer: Option<nat>) {
    match answer
    case None => forall i: nat, ds :: !NumberAt(s, i, ds)
    case Some(n) =>
      exists i: nat, ds ::
        NumberAt(s, i, ds) && n == DigitsValue(ds) && forall j: nat, es | j < i :: !NumberAt(s, j, es)
  }

  ghost predicate Mentions(raw: string, word: string) {
    exists i :: StandsAt(Lower(raw), word, i)
  }

  lemma {:induction false} UntilQuoteExactly(s: string, t: string)
    ensures UntilQuote(s) == Some(t) <==> '"' !in t && StartsWith(s, t + "\"")
    decreases |s|
  {
    if s == "" {
    } else if s[0] == '"' {
      assert t == "" ==> s[..1] == t + "\"";
      if t != "" && StartsWith(s, t + "\"") {
        assert (t + "\"")[0] == t[0] && s[..|t + "\""|][0] == s[0] && t[0] in t;
      }
    } else {
      if t != "" {
        UntilQuoteExactly(s[1..], t[1..]);
        UntilRest(s, t);
      }
      if StartsWith(s, t + "\"") {
        assert s[..|t + "\""|][0] == s[0];
      }
    }
  }

  lemma {:induction false} UntilRest(s: string, t: string)
    requires s != "" && t != "" && s[0] != '"'
    ensures UntilQuote(s) == Some(t) <==> s[0] == t[0] && UntilQuote(s[1..]) == Some(t[1..])
    ensures '"' !in t && StartsWith(s, t + "\"")
            <==> s[0] == t[0] && '"' !in t[1..] && StartsWith(s[1..], t[1..] + "\"")
  {
    assert t == [t[0]] + t[1..];
    assert t + "\"" == [t[0]] + (t[1..] + "\"");
    if |t + "\""| <= |s| {
      assert s[..|t + "\""|] == [s[0]] + s[1..][..|t|];
    }
  }

  /** Output without a call is still read as one if it mentions an action, the first of five that it does; its
      argument is the first quoted text or number in it, and the usual default without one. */
  lemma {:induction false} RescueExactly(raw: string) returns (t: Option<string>, n: Option<nat>)
    ensures FirstQuoted(raw, t) && FirstNumber(raw, n)
    ensures Rescue(raw)
            == if Mentions(raw, "click") then Click(GetOr(t, "body"))
               else if Mentions(raw, "type") then Type("body", GetOr(t, ""))
               else if Mentions(raw, "key") then Key(GetOr(t, "Return"))
               else if Mentions(raw, "wait") then Wait(GetOr(n, 1000))
               else if Mentions(raw, "done") then Done(GetOr(t, "done"))
               else Chat(raw)
  {
    t, n := AnyQuoted(raw), AnyInt(raw);
    AnyQuotedExactly(raw);
    AnyIntExactly(raw);
    RescueAs(raw, t, n);
  }

  lemma {:induction false} RescueAs(raw: string, t: Option<string>, n: Option<nat>)
    requires t == AnyQuoted(raw) && n == AnyInt(raw)
    ensures Rescue(raw)
            == if Mentions(raw, "click") then Click(GetOr(t, "body"))
               else if Mentions(raw, "type") then Type("body", GetOr(t, ""))
               else if Mentions(raw, "key") then Key(GetOr(t, "Return"))
               else if Mentions(raw, "wait") then Wait(GetOr(n, 1000))
               else if Mentions(raw, "done") then Done(GetOr(t, "done"))
               else Chat(raw)
  {
    MentionsExactly(raw, "click");
    MentionsExactly(raw, "type");
    MentionsExactly(raw, "key");
    MentionsExactly(raw, "wait");
    MentionsExactly(raw, "done");
  }

  lemma {:induction false} MentionsExactly(raw: string, word: string)
    ensures Mentions(raw, word) <==> Contains(Lower(raw), word)
  {
    ContainsExactly(Lower(raw), word);
  }

  lemma {:induction false} QuoteThen(s: string, text: string)
    requires s != ""
    ensures StandsAt(s, "\"" + text, 0) <==> s[0] == '"' && StartsWith(s[1..], text)
  {
    var all := "\"" + text;
    assert all[0] == '"' && all[1..] == text;
    if |all| <= |s| {
      var here := s[0..|all|];
      assert here[0] == s[0] && here[1..] == s[1..][..|text|];
      assert here == [here[0]] + here[1..] && all == [all[0]] + all[1..];
    }
  }

  lemma {:induction false} QuotedHere(s: string, t: string)
    requires s != ""
    ensures QuotedAt(s, 0, t) <==> s[0] == '"' && UntilQuote(s[1..]) == Some(t) && t != ""
  {
    UntilQuoteExactly(s[1..], t);
    QuoteThen(s, t + "\"");
  }

  lemma {:induction false} QuotedLater(s: string, i: nat, t: string)
    requires s != ""
    ensures QuotedAt(s, i + 1, t) <==> QuotedAt(s[1..], i, t)
  {
    var all := "\"" + (t + "\"");
    if i + 1 + |all| <= |s| {
      assert s[i + 1..i + 1 + |all|] == s[1..][i..i + |all|];
    }
  }

  lemma {:induction false} AnyQuotedExactly(s: string)
    ensures FirstQuoted(s, AnyQuoted(s))
  {
    if s == "" {
    } else {
      var rest := s[1..];
      AnyQuotedExactly(rest);
      forall t ensures QuotedAt(s, 0, t) <==> s[0] == '"' && UntilQuote(rest) == Some(t) && t != "" {
        QuotedHere(s, t);
      }
      forall i: nat, t ensures QuotedAt(s, i + 1, t) <==> QuotedAt(rest, i, t) {
        QuotedLater(s, i, t);
      }
      QuotedShift(s, AnyQuoted(rest));
    }
  }

  // Where nothing is quoted at the start, the first quoted text is that of the rest.
  lemma {:induction false} QuotedShift(s: string, answer: Option<string>)
    requires s != "" && FirstQuoted(s[1..], answer)
    ensures (forall t :: !QuotedAt(s, 0, t)) ==> FirstQuoted(s, answer)
  {
    if forall t :: !QuotedAt(s, 0, t) {
      forall j: nat, u | j > 0 ensures QuotedAt(s, j, u) <==> QuotedAt(s[1..], j - 1, u) {
        QuotedLater(s, j - 1, u);
      }
      if answer.Some? {
        var i: nat :| QuotedAt(s[1..], i, answer.value) && forall j: nat, u | j < i :: !QuotedAt(s[1..], j, u);
        QuotedLater(s, i, answer.value);
        assert QuotedAt(s, i + 1, answer.value);
      }
    }
  }

  lemma {:induction false} DigitRunExactly(s: string)
    ensures var r := DigitRun(s); |r| == |s| || !IsDigit(s[|r|])
  {
    if s != "" && IsDigit(s[0]) {
      DigitRunExactly(s[1..]);
    }
  }

  lemma {:induction false} NumberHere(s: string, ds: string)
    ensures NumberAt(s, 0, ds)
            <==> |DigitRun(s)| >= 3 && ds == (if |DigitRun(s)| > 5 then DigitRun(s)[..5] else DigitRun(s))
  {
    var run := DigitRun(s);
    DigitRunExactly(s);
    assert run == s[..|run|];
    forall k | 0 <= k < |run| ensures IsDigit(s[k]) {
      assert run[k] == s[k] && run[k] in run;
    }
    if |ds| <= |s| && ds == s[0..|ds|] {
      forall k | 0 <= k < |ds| ensures ds[k] == s[k] && ds[k] in ds {
      }
      assert ds == s[..|ds|];
    }
  }

  lemma {:induction false} NumberLater(s: string, i: nat, ds: string)
    requires s != ""
    ensures NumberAt(s, i + 1, ds) <==> NumberAt(s[1..], i, ds)
  {
    if i + 1 + |ds| <= |s| {
      assert s[i + 1..i + 1 + |ds|] == s[1..][i..i + |ds|];
    }
  }

  lemma {:induction false} AnyIntExactly(s: string)
    ensures FirstNumber(s, AnyInt(s))
  {
    if s == "" {
    } else {
      AnyIntExactly(s[1..]);
      forall ds ensures NumberAt(s, 0, ds)
                        <==> |DigitRun(s)| >= 3
                             && ds == (if |DigitRun(s)| > 5 then DigitRun(s)[..5] else DigitRun(s)) {
        NumberHere(s, ds);
      }
      if |DigitRun(s)| >= 3 {
        var ds := if |DigitRun(s)| > 5 then DigitRun(s)[..5] else DigitRun(s);
        assert NumberAt(s, 0, ds) && AnyInt(s) == Some(DigitsValue(ds));
      } else {
        NumberShift(s, AnyInt(s[1..]));
      }
    }
  }

  lemma {:induction false} NumberShift(s: string, answer: Option<nat>)
    requires s != "" && FirstNumber(s[1..], answer) && forall ds :: !NumberAt(s, 0, ds)
    ensures FirstNumber(s, answer)
  {
    forall j: nat, es | j > 0 ensures NumberAt(s, j, es) <==> NumberAt(s[1..], j - 1, es) {
      NumberLater(s, j - 1, es);
    }
    if answer.Some? {
      var i: nat, ds :| NumberAt(s[1..], i, ds) && answer.value == DigitsValue(ds)
                        && forall j: nat, es | j < i :: !NumberAt(s[1..], j, es);
      NumberLater(s, i, ds);
      assert NumberAt(s, i + 1, ds);
    }
  }

  // ---------- calls made of plain, quoted and nested pieces ----------

  datatype Piece = Plain(s: string) | Quoted(s: string) | Nested(ps: seq<Piece>)

  // Plain text opens and closes nothing, quoted text has every quote behind a backslash, and what stands in
  // parentheses is of the same kind.
  predicate Tame(p: Piece) {
    match p
    case Plain(s) => forall c | c in s :: c != '"' && c != '(' && c != ')'
    case Quoted(s) => StaysQuoted(s)
    case Nested(ps) => forall p | p in ps :: Tame(p)
  }

  predicate StaysQuoted(s: string) {
    if s == "" then true
    else if s[0] == '\\' then |s| >= 2 && StaysQuoted(s[2..])
    else s[0] != '"' && StaysQuoted(s[1..])
  }

  lemma {:induction false} NoEscapes(s: string)
    requires forall c | c in s :: c != '"' && c != '\\'
    ensures StaysQuoted(s)
  {
    if s == "" {
    } else {
      assert s[0] in s && forall c | c in s[1..] :: c in s;
      NoEscapes(s[1..]);
    }
  }

  function Shown(p: Piece): string {
    match p
    case Plain(s) => s
    case Quoted(s) => "\"" + (s + "\"")
    case Nested(ps) => "(" + (ShownAll(ps) + ")")
  }

  function ShownAll(ps: seq<Piece>): string {
    if ps == [] then "" else Shown(ps[0]) + ShownAll(ps[1..])
  }

  lemma {:induction false} StandsSplit(s: string, i: nat, a: string, b: string)
    requires StandsAt(s, a + b, i)
    ensures StandsAt(s, a, i) && StandsAt(s, b, i + |a|)
  {
    var whole := s[i..i + |a + b|];
    assert whole[..|a|] == a && whole[|a|..] == b;
    assert s[i..i + |a|] == whole[..|a|];
    assert s[i + |a|..i + |a| + |b|] == whole[|a|..];
  }

  // One character of the text stands there.
  lemma {:induction false} StandsFirst(s: string, i: nat, text: string)
    requires StandsAt(s, text, i) && text != ""
    ensures i < |s| && s[i] == text[0] && StandsAt(s, text[1..], i + 1)
  {
    StandsSplit(s, i, [text[0]], text[1..]);
    assert text == [text[0]] + text[1..];
    assert s[i..i + 1][0] == s[i];
  }

  // Both scans find the same end of the parenthesis that is open to this depth.
  ghost predicate SameClose(s: string, i: nat, j: nat, depth: nat)
    requires depth > 0
  {
    CloseScan(s, i, depth, false) == CloseScan(s, j, depth, false)
  }

  lemma {:induction false} ScanPlain(s: string, i: nat, t: string, depth: nat)
    requires depth > 0 && StandsAt(s, t, i) && forall c | c in t :: c != '"' && c != '(' && c != ')'
    ensures SameClose(s, i, i + |t|, depth)
    decreases t
  {
    if t == "" {
    } else {
      assert t[0] in t && forall c | c in t[1..] :: c in t;
      StandsFirst(s, i, t);
      ScanPlain(s, i + 1, t[1..], depth);
    }
  }

  lemma {:induction false} ScanQuoted(s: string, i: nat, t: string, depth: nat)
    requires depth > 0 && StandsAt(s, t, i) && StaysQuoted(t)
    ensures CloseScan(s, i, depth, true) == CloseScan(s, i + |t|, depth, true)
    decreases |t|
  {
    if t == "" {
    } else {
      StandsFirst(s, i, t);
      if t[0] == '\\' {
        StandsFirst(s, i + 1, t[1..]);
        assert t[1..][1..] == t[2..];
        ScanQuoted(s, i + 2, t[2..], depth);
      } else {
        ScanQuoted(s, i + 1, t[1..], depth);
      }
    }
  }

  lemma {:induction false} ScanQuotation(s: string, i: nat, t: string, depth: nat)
    requires depth > 0 && StandsAt(s, "\"" + (t + "\""), i) && StaysQuoted(t)
    ensures SameClose(s, i, i + |t| + 2, depth)
  {
    var all := "\"" + (t + "\"");
    StandsFirst(s, i, all);
    assert all[1..] == t + "\"";
    StandsSplit(s, i + 1, t, "\"");
    StandsFirst(s, i + 1 + |t|, "\"");
    ScanQuoted(s, i + 1, t, depth);
  }

  lemma {:induction false} ScanPiece(s: string, i: nat, p: Piece, depth: nat)
    requires depth > 0 && Tame(p) && StandsAt(s, Shown(p), i)
    ensures SameClose(s, i, i + |Shown(p)|, depth)
    decreases p, 0
  {
    match p
    case Plain(t) => ScanPlain(s, i, t, depth);
    case Quoted(t) => ScanQuotation(s, i, t, depth);
    case Nested(ps) =>
      var inner := ShownAll(ps);
      StandsFirst(s, i, Shown(p));
      assert Shown(p)[1..] == inner + ")";
      StandsSplit(s, i + 1, inner, ")");
      StandsFirst(s, i + 1 + |inner|, ")");
      ScanPieces(s, i + 1, ps, depth + 1);
  }

  ghost predicate AllTame(ps: seq<Piece>) {
    forall p | p in ps :: Tame(p)
  }

  lemma {:induction false} TailTame(ps: seq<Piece>)
    requires ps != [] && AllTame(ps)
    ensures Tame(ps[0]) && AllTame(ps[1..])
  {
    assert ps[0] in ps;
    forall p | p in ps[1..] ensures p in ps {
    }
  }

  lemma {:induction false} ScanPieces(s: string, i: nat, ps: seq<Piece>, depth: nat)
    requires depth > 0 && AllTame(ps) && StandsAt(s, ShownAll(ps), i)
    ensures SameClose(s, i, i + |ShownAll(ps)|, depth)
    decreases ps
  {
    if ps == [] {
    } else {
      TailTame(ps);
      var rest := ShownAll(ps[1..]);
      assert ShownAll(ps) == Shown(ps[0]) + rest;
      StandsSplit(s, i, Shown(ps[0]), rest);
      ScanPiece(s, i, ps[0], depth);
      ScanPieces(s, i + |Shown(ps[0])|, ps[1..], depth);
    }
  }

  lemma {:induction false} WordEndAt(s: string, i: nat, e: nat)
    requires i <= e < |s| && !IsWord(s[e])
    requires forall k | i <= k < e :: IsWord(s[k])
    ensures WordEnd(s, i) == e
    decreases e - i
  {
    if i == e {
    } else {
      WordEndAt(s, i + 1, e);
    }
  }

  lemma {:induction false} CallStands(s: string, name: string, ps: seq<Piece>)
    requires name != "" && (forall c | c in name :: IsWord(c)) && forall p | p in ps :: Tame(p)
    requires StandsAt(s, name, 0) && StandsAt(s, ShownAll(ps), |name| + 1) && |name| + 1 + |ShownAll(ps)| < |s|
    requires s[|name|] == '(' && s[|name| + 1 + |ShownAll(ps)|] == ')'
    ensures FindCall(s, 0) == Some(Call(name, ShownAll(ps)))
  {
    forall k | 0 <= k < |name| ensures IsWord(s[k]) {
      assert s[k] == s[0..|name|][k] && name[k] in name;
    }
    WordEndAt(s, 0, |name|);
    ScanPieces(s, |name| + 1, ps, 1);
    assert CloseScan(s, |name| + 1 + |ShownAll(ps)|, 1, false) == Some(|name| + 1 + |ShownAll(ps)|);
  }

  /** Parentheses inside quotes never cut a call short, behind a backslash a quote neither, and outside quotes
      parentheses are paired: the scanner finds exactly the name and the arguments the call was written with. */
  lemma {:induction false} CallFound(name: string, ps: seq<Piece>, rest: string)
    requires name != "" && (forall c | c in name :: IsWord(c)) && forall p | p in ps :: Tame(p)
    ensures FindCall(name + "(" + ShownAll(ps) + ")" + rest, 0) == Some(Call(name, ShownAll(ps)))
  {
    var s, args := name + "(" + ShownAll(ps) + ")" + rest, ShownAll(ps);
    assert s[0..|name|] == name;
    assert s[|name| + 1..|name| + 1 + |args|] == args;
    CallStands(s, name, ps);
  }
}
