/** The part of the GBNF grammar notation that the harness emits, with the language each form denotes. */
module Gbnf {
  import opened Text

  // FreeText is [^"\\], Numeral is [0-9], Segment is [A-Za-z0-9._/-].
  datatype Class = FreeText | Numeral | Segment

  datatype Rule =
    | Lit(s: string)
    | Star(cls: Class)
    | Plus(cls: Class)
    | Cat(left: Rule, right: Rule)
    | Alt(one: Rule, other: Rule)
    | Opt(body: Rule)

  predicate InClass(c: char, cls: Class) {
    match cls
    case FreeText => c != '"' && c != '\\'
    case Numeral => IsDigit(c)
    case Segment => IsAlnum(c) || c == '.' || c == '_' || c == '/' || c == '-'
  }

  predicate AllIn(s: string, cls: Class) {
    forall c | c in s :: InClass(c, cls)
  }

  ghost predicate Derives(r: Rule, s: string) {
    match r
    case Lit(t) => s == t
    case Star(cls) => AllIn(s, cls)
    case Plus(cls) => s != "" && AllIn(s, cls)
    case Cat(a, b) => exists i :: 0 <= i <= |s| && Derives(a, s[..i]) && Derives(b, s[i..])
    case Alt(a, b) => Derives(a, s) || Derives(b, s)
    case Opt(a) => s == "" || Derives(a, s)
  }

  lemma {:induction false} CatIntro(a: Rule, b: Rule, x: string, y: string)
    requires Derives(a, x) && Derives(b, y)
    ensures Derives(Cat(a, b), x + y)
  {
    assert (x + y)[..|x|] == x && (x + y)[|x|..] == y;
  }

  lemma {:induction false} CatElim(a: Rule, b: Rule, s: string) returns (x: string, y: string)
    requires Derives(Cat(a, b), s)
    ensures s == x + y && Derives(a, x) && Derives(b, y)
  {
    var i :| 0 <= i <= |s| && Derives(a, s[..i]) && Derives(b, s[i..]);
    x, y := s[..i], s[i..];
  }

  // "before" body "after"
  function Around(before: string, body: Rule, after: string): Rule {
    Cat(Lit(before), Cat(body, Lit(after)))
  }

  lemma {:induction false} AroundIntro(before: string, body: Rule, after: string, x: string)
    requires Derives(body, x)
    ensures Derives(Around(before, body, after), before + (x + after))
  {
    CatIntro(body, Lit(after), x, after);
    CatIntro(Lit(before), Cat(body, Lit(after)), before, x + after);
  }

  lemma {:induction false} AroundElim(before: string, body: Rule, after: string, s: string) returns (x: string)
    requires Derives(Around(before, body, after), s)
    ensures s == before + (x + after) && Derives(body, x)
  {
    var p, t := CatElim(Lit(before), Cat(body, Lit(after)), s);
    var q: string;
    x, q := CatElim(body, Lit(after), t);
  }
}
