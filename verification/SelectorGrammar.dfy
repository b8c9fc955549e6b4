/** The selector grammar and its chain: what the grammar lets the model say is read back exactly. */
module SelectorGrammar {
  import opened BracketParser
  import opened Gbnf
  import opened Text
  import opened Wrappers

  const ESCAPE_TOKEN := "none"

  function IndexToken(i: nat): string {
    "el_" + Decimal(i)
  }

  // ---------- the grammar over n rendered candidates ----------

  function TargetsUpTo(n: nat): Rule {
    if n == 0 then Lit(ESCAPE_TOKEN) else Alt(Lit(IndexToken(n - 1)), TargetsUpTo(n - 1))
  }

  // name(key="
  function Opening(name: string, key: string): string {
    name + "(" + (key + "=\"")
  }

  // ", key="
  function Between(key: string): string {
    "\", " + (key + "=\"")
  }

  const CLOSING := "\")"

  function ClickRule(n: nat): Rule { Around(Opening("click", "selector"), TargetsUpTo(n), CLOSING) }

  function TypeRule(n: nat): Rule {
    Cat(Lit(Opening("type", "selector")), Cat(TargetsUpTo(n), Around(Between("text"), Star(FreeText), CLOSING)))
  }

  const KEY_RULE := Around(Opening("key", "key"), Star(FreeText), CLOSING)
  const WAIT_RULE := Around("wait(ms=", Plus(Numeral), ")")
  const DONE_RULE := Around(Opening("done", "reason"), Star(FreeText), CLOSING)

  // None stands for the empty grammar, which constrains nothing.
  function Grammar(n: nat): Option<Rule> {
    if n == 0 then None
    else Some(Alt(ClickRule(n), Alt(TypeRule(n), Alt(KEY_RULE, Alt(WAIT_RULE, DONE_RULE)))))
  }

  // ---------- derivations ----------

  datatype Target = Index(i: nat) | Escape

  datatype Derivation =
    | DClick(target: Target)
    | DType(target: Target, text: string)
    | DKey(text: string)
    | DWait(digits: string)
    | DDone(text: string)

  function Token(t: Target): string {
    match t
    case Index(i) => IndexToken(i)
    case Escape => ESCAPE_TOKEN
  }

  predicate Offered(t: Target, n: nat) {
    t.Index? ==> t.i < n
  }

  predicate Fits(d: Derivation, n: nat) {
    match d
    case DClick(t) => Offered(t, n)
    case DType(t, text) => Offered(t, n) && AllIn(text, FreeText)
    case DKey(text) => AllIn(text, FreeText)
    case DWait(ds) => ds != "" && AllIn(ds, Numeral)
    case DDone(text) => AllIn(text, FreeText)
  }

  function Print(d: Derivation): string {
    match d
    case DClick(t) => Opening("click", "selector") + (Token(t) + CLOSING)
    case DType(t, text) => Opening("type", "selector") + (Token(t) + (Between("text") + (text + CLOSING)))
    case DKey(text) => Opening("key", "key") + (text + CLOSING)
    case DWait(ds) => "wait(ms=" + (ds + ")")
    case DDone(text) => Opening("done", "reason") + (text + CLOSING)
  }

  lemma {:induction false} TargetDerived(n: nat, s: string) returns (t: Target)
    requires Derives(TargetsUpTo(n), s)
    ensures Offered(t, n) && s == Token(t)
    decreases n
  {
    if n == 0 {
      t := Escape;
    } else if s == IndexToken(n - 1) {
      t := Index(n - 1);
    } else {
      t := TargetDerived(n - 1, s);
    }
  }

  lemma {:induction false} TargetOffered(n: nat, t: Target)
    requires Offered(t, n)
    ensures Derives(TargetsUpTo(n), Token(t))
    decreases n
  {
    if n > 0 && t != Index(n - 1) {
      TargetOffered(n - 1, t);
    }
  }

  /** The grammar's language is exactly the printed derivations over the candidates offered. */
  lemma {:induction false} LanguageIsDerivations(n: nat, s: string)
    requires n >= 1
    ensures Derives(Grammar(n).value, s) <==> exists d :: Fits(d, n) && s == Print(d)
  {
    if Derives(Grammar(n).value, s) {
      var d := Derivable(n, s);
    }
    forall d | Fits(d, n) && s == Print(d) ensures Derives(Grammar(n).value, s) {
      Printable(n, d);
    }
  }

  lemma {:induction false} Derivable(n: nat, s: string) returns (d: Derivation)
    requires n >= 1 && Derives(Grammar(n).value, s)
    ensures Fits(d, n) && s == Print(d)
  {
    AltElim(Grammar(n).value, s);
    if Derives(ClickRule(n), s) {
      var x := AroundElim(Opening("click", "selector"), TargetsUpTo(n), CLOSING, s);
      var t := TargetDerived(n, x);
      d := DClick(t);
    } else if Derives(TypeRule(n), s) {
      d := TypeDerivable(n, s);
    } else if Derives(KEY_RULE, s) {
      var x := AroundElim(Opening("key", "key"), Star(FreeText), CLOSING, s);
      d := DKey(x);
    } else if Derives(WAIT_RULE, s) {
      var x := AroundElim("wait(ms=", Plus(Numeral), ")", s);
      d := DWait(x);
    } else {
      var x := AroundElim(Opening("done", "reason"), Star(FreeText), CLOSING, s);
      d := DDone(x);
    }
  }

  // Five alternatives, peeled one by one.
  lemma {:induction false} AltElim(r: Rule, s: string)
    requires r.Alt? && r.other.Alt? && r.other.other.Alt? && r.other.other.other.Alt?
    ensures Derives(r, s) <==>
            || Derives(r.one, s) || Derives(r.other.one, s) || Derives(r.other.other.one, s)
            || Derives(r.other.other.other.one, s) || Derives(r.other.other.other.other, s)
  {
    assert Derives(r, s) <==> Derives(r.one, s) || Derives(r.other, s);
    assert Derives(r.other, s) <==> Derives(r.other.one, s) || Derives(r.other.other, s);
    assert Derives(r.other.other, s) <==> Derives(r.other.other.one, s) || Derives(r.other.other.other, s);
  }

  lemma {:induction false} TypeDerivable(n: nat, s: string) returns (d: Derivation)
    requires Derives(TypeRule(n), s)
    ensures d.DType? && Fits(d, n) && s == Print(d)
  {
    var tail := Around(Between("text"), Star(FreeText), CLOSING);
    var p, y := CatElim(Lit(Opening("type", "selector")), Cat(TargetsUpTo(n), tail), s);
    var x, z := CatElim(TargetsUpTo(n), tail, y);
    var t := TargetDerived(n, x);
    var text := AroundElim(Between("text"), Star(FreeText), CLOSING, z);
    d := DType(t, text);
  }

  lemma {:induction false} TypePrintable(n: nat, t: Target, text: string)
    requires Fits(DType(t, text), n)
    ensures Derives(TypeRule(n), Print(DType(t, text)))
  {
    var tail := Around(Between("text"), Star(FreeText), CLOSING);
    TargetOffered(n, t);
    AroundIntro(Between("text"), Star(FreeText), CLOSING, text);
    CatIntro(TargetsUpTo(n), tail, Token(t), Between("text") + (text + CLOSING));
    CatIntro(Lit(Opening("type", "selector")), Cat(TargetsUpTo(n), tail), Opening("type", "selector"),
             Token(t) + (Between("text") + (text + CLOSING)));
  }

  lemma {:induction false} Printable(n: nat, d: Derivation)
    requires n >= 1 && Fits(d, n)
    ensures Derives(Grammar(n).value, Print(d))
  {
    AltElim(Grammar(n).value, Print(d));
    match d
    case DClick(t) =>
      TargetOffered(n, t);
      AroundIntro(Opening("click", "selector"), TargetsUpTo(n), CLOSING, Token(t));
    case DType(t, text) => TypePrintable(n, t, text);
    case DKey(text) => AroundIntro(Opening("key", "key"), Star(FreeText), CLOSING, text);
    case DWait(ds) => AroundIntro("wait(ms=", Plus(Numeral), ")", ds);
    case DDone(text) => AroundIntro(Opening("done", "reason"), Star(FreeText), CLOSING, text);
  }

  // ---------- reading back ----------

  // The call a derivation means; a wait beyond 64 bits falls back to the parser's default.
  function Meant(d: Derivation): ToolCall
    requires d.DWait? ==> AllIn(d.digits, Numeral)
  {
    match d
    case DClick(t) => Click(Token(t))
    case DType(t, text) => Type(Token(t), text)
    case DKey(text) => Key(text)
    case DWait(ds) => Wait(if DigitsValue(ds) < U64_LIMIT then DigitsValue(ds) else 1000)
    case DDone(text) => Done(text)
  }

  lemma {:induction false} UntilQuoteReads(t: string, rest: string)
    requires '"' !in t
    ensures UntilQuote(t + ("\"" + rest)) == Some(t)
  {
    var s := t + ("\"" + rest);
    if t != "" {
      UntilQuoteReads(t[1..], rest);
      assert s[1..] == t[1..] + ("\"" + rest);
      assert s[0] == t[0] && t[0] in t;
    }
  }

  // An argument standing first is the one found.
  lemma {:induction false} FirstStrArg(key: string, t: string, rest: string)
    requires '"' !in t
    ensures StrArg(key + "=\"" + (t + ("\"" + rest)), key) == Some(t)
  {
    var open, body := key + "=\"", t + ("\"" + rest);
    UntilQuoteReads(t, rest);
    assert (open + body)[..|open|] == open && (open + body)[|open|..] == body;
  }

  // Text in which the argument cannot begin is passed over.
  lemma {:induction false} StrArgSkips(before: string, after: string, key: string)
    requires forall i | 0 <= i < |before| :: !StartsWith((before + after)[i..], key + "=\"")
    ensures StrArg(before + after, key) == StrArg(after, key)
  {
    if before == "" {
      assert before + after == after;
    } else {
      assert (before + after)[0..] == before + after;
      assert (before + after)[1..] == before[1..] + after;
      forall i | 0 <= i < |before[1..]| ensures !StartsWith((before[1..] + after)[i..], key + "=\"") {
        assert (before[1..] + after)[i..] == (before + after)[i + 1..];
      }
      StrArgSkips(before[1..], after, key);
    }
  }

  lemma {:induction false} DigitRunReads(ds: string)
    requires AllIn(ds, Numeral)
    ensures DigitRun(ds) == ds
  {
    if ds == "" {
    } else {
      assert ds[0] in ds;
      DigitRunReads(ds[1..]);
    }
  }

  lemma {:induction false} FreeTextIsPlain(t: string)
    requires AllIn(t, FreeText)
    ensures '"' !in t && '\\' !in t
  {
  }

  lemma {:induction false} TokenIsPlain(t: Target)
    ensures AllIn(Token(t), FreeText) && 't' !in Token(t)
  {
  }

  // ---------- calls with one or two quoted arguments ----------

  predicate IsIdentifier(s: string) {
    s != "" && forall c | c in s :: IsWord(c)
  }

  function Assigned(key: string, t: string): seq<Piece> {
    [Plain(key + "="), Quoted(t)]
  }

  lemma {:induction false} ShownTwo(a: Piece, b: Piece, more: seq<Piece>)
    ensures ShownAll([a, b] + more) == Shown(a) + (Shown(b) + ShownAll(more))
  {
    var ps := [a, b] + more;
    assert ps[1..] == [b] + more && ([b] + more)[1..] == more;
    assert ShownAll([b] + more) == Shown(b) + ShownAll(more);
  }

  lemma {:induction false} ShownAssigned(key: string, t: string, more: seq<Piece>)
    ensures ShownAll(Assigned(key, t) + more) == key + "=\"" + (t + ("\"" + ShownAll(more)))
  {
    ShownTwo(Plain(key + "="), Quoted(t), more);
    QuotesMove(key, t, ShownAll(more));
  }

  lemma {:induction false} QuotesMove(key: string, t: string, more: string)
    ensures (key + "=") + (("\"" + t + "\"") + more) == key + "=\"" + (t + ("\"" + more))
  {
  }

  lemma {:induction false} AssignedIsTame(key: string, t: string)
    requires IsIdentifier(key) && AllIn(t, FreeText)
    ensures forall p | p in Assigned(key, t) :: Tame(p)
  {
    NoEscapes(t);
    forall c | c in key + "=" ensures c != '"' && c != '(' && c != ')' {
      assert c in key || c == '=';
    }
  }

  function OneArg(key: string, t: string): string {
    key + "=\"" + (t + "\"")
  }

  lemma {:induction false} OneArgRead(name: string, key: string, t: string)
    requires IsIdentifier(name) && IsIdentifier(key) && AllIn(t, FreeText)
    ensures FindCall(Opening(name, key) + (t + CLOSING), 0) == Some(Call(name, OneArg(key, t)))
    ensures StrArg(OneArg(key, t), key) == Some(t)
  {
    var ps := Assigned(key, t);
    ShownAssigned(key, t, []);
    assert ps + [] == ps;
    assert ShownAll([]) == "";
    assert OneArg(key, t) == key + "=\"" + (t + ("\"" + ""));
    AssignedIsTame(key, t);
    CallFound(name, ps, "");
    assert Opening(name, key) + (t + CLOSING) == name + "(" + OneArg(key, t) + ")" + "";
    FirstStrArg(key, t, "");
  }

  function TwoArgs(key: string, t: string, key2: string, t2: string): string {
    key + "=\"" + (t + ("\"" + (", " + OneArg(key2, t2))))
  }

  function TwoPieces(key: string, t: string, key2: string, t2: string): seq<Piece> {
    Assigned(key, t) + ([Plain(", ")] + Assigned(key2, t2))
  }

  lemma {:induction false} TwoArgsShown(key: string, t: string, key2: string, t2: string)
    ensures ShownAll(TwoPieces(key, t, key2, t2)) == TwoArgs(key, t, key2, t2)
  {
    var tail := [Plain(", ")] + Assigned(key2, t2);
    ShownAssigned(key2, t2, []);
    assert Assigned(key2, t2) + [] == Assigned(key2, t2);
    assert ShownAll([]) == "";
    assert tail[1..] == Assigned(key2, t2);
    assert ShownAll(tail) == ", " + OneArg(key2, t2);
    ShownAssigned(key, t, tail);
  }

  lemma {:induction false} TwoArgsText(name: string, key: string, t: string, key2: string, t2: string)
    ensures Opening(name, key) + (t + (Between(key2) + (t2 + CLOSING)))
            == name + "(" + TwoArgs(key, t, key2, t2) + ")" + ""
  {
    var a := t2 + "\"";
    assert t2 + CLOSING == a + ")";
    var b := key2 + "=\"" + a;
    assert Between(key2) + (a + ")") == ("\"" + (", " + b)) + ")";
  }

  lemma {:induction false} TwoArgsFound(name: string, key: string, t: string, key2: string, t2: string)
    requires IsIdentifier(name) && IsIdentifier(key) && IsIdentifier(key2) && AllIn(t, FreeText) && AllIn(t2, FreeText)
    ensures FindCall(Opening(name, key) + (t + (Between(key2) + (t2 + CLOSING))), 0)
            == Some(Call(name, TwoArgs(key, t, key2, t2)))
  {
    TwoArgsShown(key, t, key2, t2);
    AssignedIsTame(key, t);
    AssignedIsTame(key2, t2);
    CallFound(name, TwoPieces(key, t, key2, t2), "");
    TwoArgsText(name, key, t, key2, t2);
  }

  lemma {:induction false} FirstOfTwoRead(key: string, t: string, key2: string, t2: string)
    requires AllIn(t, FreeText)
    ensures StrArg(TwoArgs(key, t, key2, t2), key) == Some(t)
  {
    FreeTextIsPlain(t);
    FirstStrArg(key, t, ", " + OneArg(key2, t2));
  }

  lemma {:induction false} NoTextStart(tok: string, after: string, i: nat)
    requires 't' !in tok && i < |"selector=\"" + (tok + "\", ")|
    ensures !StartsWith(("selector=\"" + (tok + "\", ") + after)[i..], "text" + "=\"")
  {
    var before := "selector=\"" + (tok + "\", ");
    var s := (before + after)[i..];
    assert s[0] == before[i];
    if i == 5 {
      assert s[1] == before[6] == 'o';
    } else if 10 <= i < 10 + |tok| {
      assert before[i] == tok[i - 10] && tok[i - 10] in tok;
    }
    if StartsWith(s, "text" + "=\"") {
      StartingChars(s, "text" + "=\"");
    }
  }

  lemma {:induction false} StartingChars(s: string, p: string)
    requires StartsWith(s, p) && |p| >= 2
    ensures s[0] == p[0] && s[1] == p[1]
  {
    assert s[..|p|][0] == s[0] && s[..|p|][1] == s[1];
  }

  lemma {:induction false} TextOfTypeRead(tok: string, text: string)
    requires 't' !in tok && AllIn(text, FreeText)
    ensures StrArg(TwoArgs("selector", tok, "text", text), "text") == Some(text)
  {
    var before, after := "selector=\"" + (tok + "\", "), OneArg("text", text);
    assert TwoArgs("selector", tok, "text", text) == before + after;
    forall i | 0 <= i < |before| ensures !StartsWith((before + after)[i..], "text" + "=\"") {
      NoTextStart(tok, after, i);
    }
    StrArgSkips(before, after, "text");
    FreeTextIsPlain(text);
    assert after == "text" + "=\"" + (text + ("\"" + ""));
    FirstStrArg("text", text, "");
  }

  lemma {:induction false} ShownPlain(a: string, b: string)
    ensures ShownAll([Plain(a), Plain(b)]) == a + b
  {
    assert [Plain(a), Plain(b)][1..] == [Plain(b)] && [Plain(b)][1..] == [];
    assert ShownAll([Plain(b)]) == b + ShownAll([]);
  }

  lemma {:induction false} NumeralIsTame(ds: string)
    requires AllIn(ds, Numeral)
    ensures Tame(Plain(ds))
  {
    forall c | c in ds ensures c != '"' && c != '(' && c != ')' {
      assert InClass(c, Numeral);
    }
  }

  lemma {:induction false} WaitFound(ds: string)
    requires ds != "" && AllIn(ds, Numeral)
    ensures FindCall(Print(DWait(ds)), 0) == Some(Call("wait", "ms=" + ds))
  {
    ShownPlain("ms=", ds);
    NumeralIsTame(ds);
    CallFound("wait", [Plain("ms="), Plain(ds)], "");
    assert Print(DWait(ds)) == "wait" + "(" + ("ms=" + ds) + ")" + "";
  }

  lemma {:induction false} WaitRead(ds: string)
    requires ds != "" && AllIn(ds, Numeral)
    ensures FindCall(Print(DWait(ds)), 0) == Some(Call("wait", "ms=" + ds))
    ensures IntArg("ms=" + ds, "ms") == (if DigitsValue(ds) < U64_LIMIT then Some(DigitsValue(ds)) else None)
  {
    WaitFound(ds);
    DigitRunReads(ds);
    assert ("ms=" + ds)[..3] == "ms" + "=" && ("ms=" + ds)[3..] == ds;
  }

  lemma {:induction false} Names()
    ensures IsIdentifier("click") && IsIdentifier("type") && IsIdentifier("key") && IsIdentifier("done")
    ensures IsIdentifier("selector") && IsIdentifier("text") && IsIdentifier("reason")
  {
  }

  lemma {:induction false} DerivationReadBack(d: Derivation, n: nat)
    requires Fits(d, n)
    ensures ParseBracketToolCall(Print(d)) == Meant(d)
  {
    Names();
    match d
    case DClick(t) =>
      TokenIsPlain(t);
      OneArgRead("click", "selector", Token(t));
    case DType(t, text) =>
      TokenIsPlain(t);
      TwoArgsFound("type", "selector", Token(t), "text", text);
      FirstOfTwoRead("selector", Token(t), "text", text);
      TextOfTypeRead(Token(t), text);
    case DKey(text) => OneArgRead("key", "key", text);
    case DWait(ds) => WaitRead(ds);
    case DDone(text) => OneArgRead("done", "reason", text);
  }

  /** The selector chain: every string the grammar allows parses to the call it was derived as, with the
      chosen token and the exact free text, whatever parentheses and line breaks it holds. */
  lemma {:induction false} SelectorChain(n: nat, s: string) returns (d: Derivation)
    requires n >= 1 && Derives(Grammar(n).value, s)
    ensures Fits(d, n) && s == Print(d) && ParseBracketToolCall(s) == Meant(d)
  {
    d := Derivable(n, s);
    DerivationReadBack(d, n);
  }

  /** A wait is honoured exactly when its digits fit 64 bits. */
  lemma {:induction false} WaitReadExactly(ds: string)
    requires ds != "" && AllIn(ds, Numeral)
    ensures ParseBracketToolCall(Print(DWait(ds))) == Wait(DigitsValue(ds)) <==> DigitsValue(ds) < U64_LIMIT
  {
    DerivationReadBack(DWait(ds), 0);
  }

  /** No two choices are confused: the parsed call determines target and text. */
  lemma {:induction false} ChoicesStayApart(n: nat, d: Derivation, e: Derivation)
    requires Fits(d, n) && Fits(e, n) && !d.DWait?
    requires ParseBracketToolCall(Print(d)) == ParseBracketToolCall(Print(e))
    ensures d == e
  {
    DerivationReadBack(d, n);
    DerivationReadBack(e, n);
    if (d.DClick? && e.DClick?) || (d.DType? && e.DType?) {
      TokensDiffer(d.target, e.target);
    }
  }

  lemma {:induction false} TokensDiffer(t: Target, u: Target)
    requires Token(t) == Token(u)
    ensures t == u
  {
    assert Token(Escape)[0] == 'n';
    if t.Index? && u.Index? {
      assert Token(t)[3..] == Decimal(t.i) && Token(u)[3..] == Decimal(u.i);
      DecimalRoundTrip(t.i);
      DecimalRoundTrip(u.i);
    }
  }

  // ---------- spelled out ----------

  function Spelt(t: Target): string {
    match t
    case Index(i) => "el_" + Decimal(i)
    case Escape => "none"
  }

  /** The calls the grammar allows, letter by letter. */
  lemma {:induction false} PrintedExactly(d: Derivation)
    ensures Print(d)
            == match d
               case DClick(t) => "click(selector=\"" + (Spelt(t) + "\")")
               case DType(t, text) => "type(selector=\"" + (Spelt(t) + ("\", text=\"" + (text + "\")")))
               case DKey(text) => "key(key=\"" + (text + "\")")
               case DWait(digits) => "wait(ms=" + (digits + ")")
               case DDone(text) => "done(reason=\"" + (text + "\")")
  {
    assert Opening("click", "selector") == "click(selector=\"";
    assert Opening("type", "selector") == "type(selector=\"" && Between("text") == "\", text=\"";
    assert Opening("key", "key") == "key(key=\"" && Opening("done", "reason") == "done(reason=\"";
  }
}
