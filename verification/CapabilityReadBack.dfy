/** Reading a printed capability call gives back its verb and its slots. */
module CapabilityReadBack {
  import opened CapabilityCall
  import opened Text
  import opened Wrappers

  datatype Arg = Arg(key: string, value: string, quoted: bool)

  predicate IsName(s: string) {
    s != "" && forall c | c in s :: 'a' <= c <= 'z' || c == '_'
  }

  predicate Sound(a: Arg) {
    IsName(a.key) && if a.quoted then '"' !in a.value else IsName(a.value)
  }

  function Raw(a: Arg): string {
    if a.quoted then "\"" + (a.value + "\"") else a.value
  }

  function Shown(a: Arg): string {
    a.key + ("=" + Raw(a))
  }

  function Tail(args: seq<Arg>): string {
    if args == [] then "" else ", " + (Shown(args[0]) + Tail(args[1..]))
  }

  // [verb(key=value, ...)]
  function Line(verb: string, args: seq<Arg>): string
    requires args != []
  {
    "[" + (verb + ("(" + (Shown(args[0]) + (Tail(args[1..]) + ")]"))))
  }

  // What a slot is read as: outer angle brackets are dropped.
  function Meaning(a: Arg): string {
    Strip(a.value, "<>")
  }

  function Slots(args: seq<Arg>): Params {
    if args == [] then map[] else map[args[0].key := Meaning(args[0])] + Slots(args[1..])
  }

  // ---------- trimming ----------

  lemma {:induction false} TrimLead(lead: string, w: string)
    requires (forall c | c in lead :: IsSpace(c)) && w != "" && !IsSpace(w[0]) && !IsSpace(w[|w| - 1])
    ensures Trim(lead + w) == w
  {
    TrimStartLead(lead, w);
  }

  lemma {:induction false} TrimStartLead(lead: string, w: string)
    requires (forall c | c in lead :: IsSpace(c)) && w != "" && !IsSpace(w[0])
    ensures TrimStart(lead + w) == w
  {
    if lead == "" {
      assert lead + w == w;
    } else {
      assert lead[0] in lead;
      assert (lead + w)[1..] == lead[1..] + w;
      TrimStartLead(lead[1..], w);
    }
  }

  lemma {:induction false} Untrimmed(w: string)
    requires w != "" && !IsSpace(w[0]) && !IsSpace(w[|w| - 1])
    ensures Trim(w) == w
  {
    assert "" + w == w;
    TrimLead("", w);
  }

  lemma {:induction false} NoOuter(s: string, chars: string)
    requires s == "" || (s[0] !in chars && s[|s| - 1] !in chars)
    ensures Strip(s, chars) == s
  {
  }

  lemma {:induction false} QuotesStripped(t: string)
    requires '"' !in t
    ensures Strip("\"" + (t + "\""), "\"") == t
  {
    var s := t + "\"";
    assert ("\"" + s)[1..] == s;
    if t == "" {
      assert s == "\"" && s[1..] == "";
      assert StripStart(s, "\"") == "";
      assert StripStart("\"" + s, "\"") == "";
    } else {
      assert s[0] == t[0] && t[0] in t;
      assert StripStart(s, "\"") == s;
      assert StripStart("\"" + s, "\"") == s;
      assert s[..|s| - 1] == t && t[|t| - 1] in t;
      assert StripEnd(t, "\"") == t;
      assert StripEnd(s, "\"") == t;
    }
  }

  // ---------- one argument ----------

  lemma {:induction false} NameStays(s: string)
    requires IsName(s)
    ensures !IsSpace(s[0]) && !IsSpace(s[|s| - 1]) && Lower(s) == s
    ensures '=' !in s && '"' !in s && ',' !in s && '(' !in s && ')' !in s && '<' !in s && '>' !in s
  {
    assert s[0] in s && s[|s| - 1] in s;
    forall i | 0 <= i < |s| ensures Lower(s)[i] == s[i] {
      assert s[i] in s;
    }
  }

  lemma {:induction false} ValueRead(a: Arg)
    requires Sound(a)
    ensures ValueOf(Raw(a)) == Meaning(a)
  {
    Untrimmed(Raw(a)) by {
      if !a.quoted {
        NameStays(a.value);
      }
    }
    if a.quoted {
      QuotesStripped(a.value);
    } else {
      NameStays(a.value);
      assert a.value[0] in a.value && a.value[|a.value| - 1] in a.value;
      NoOuter(a.value, "\"");
    }
  }

  lemma {:induction false} KeyRead(lead: string, key: string, raw: string)
    requires IsName(key) && forall c | c in lead :: c == ' '
    ensures Entry((lead + key) + ("=" + raw)) == map[key := ValueOf(raw)]
  {
    var before := lead + key;
    var part := before + ("=" + raw);
    NameStays(key);
    FindFirst(before, '=', raw);
    assert part[..|before|] == before && part[|before| + 1..] == raw;
    TrimLead(lead, key);
  }

  lemma {:induction false} EntryRead(lead: string, a: Arg)
    requires Sound(a) && forall c | c in lead :: c == ' '
    ensures Entry(lead + Shown(a)) == map[a.key := Meaning(a)]
  {
    assert lead + Shown(a) == (lead + a.key) + ("=" + Raw(a));
    KeyRead(lead, a.key, Raw(a));
    ValueRead(a);
  }

  // ---------- the argument list ----------

  lemma {:induction false} PlainKept(t: string, rest: string, cur: string)
    requires '"' !in t && ',' !in t
    ensures Arguments(t + rest, false, cur) == Arguments(rest, false, cur + t)
    decreases t
  {
    if t == "" {
      assert t + rest == rest && cur + t == cur;
    } else {
      assert (t + rest)[0] == t[0] && t[0] in t;
      assert (t + rest)[1..] == t[1..] + rest;
      PlainKept(t[1..], rest, cur + [t[0]]);
      assert cur + [t[0]] + t[1..] == cur + t;
    }
  }

  lemma {:induction false} QuotedKept(t: string, rest: string, cur: string)
    requires '"' !in t
    ensures Arguments(t + rest, true, cur) == Arguments(rest, true, cur + t)
    decreases t
  {
    if t == "" {
      assert t + rest == rest && cur + t == cur;
    } else {
      assert (t + rest)[0] == t[0] && t[0] in t;
      assert (t + rest)[1..] == t[1..] + rest;
      QuotedKept(t[1..], rest, cur + [t[0]]);
      assert cur + [t[0]] + t[1..] == cur + t;
    }
  }

  lemma {:induction false} QuoteTurns(rest: string, q: bool, cur: string)
    ensures Arguments("\"" + rest, q, cur) == Arguments(rest, !q, cur + "\"")
  {
    assert ("\"" + rest)[1..] == rest;
  }

  lemma {:induction false} RawKept(a: Arg, rest: string, cur: string)
    requires Sound(a)
    ensures Arguments(Raw(a) + rest, false, cur) == Arguments(rest, false, cur + Raw(a))
  {
    if a.quoted {
      assert Raw(a) + rest == "\"" + (a.value + ("\"" + rest));
      QuoteTurns(a.value + ("\"" + rest), false, cur);
      QuotedKept(a.value, "\"" + rest, cur + "\"");
      QuoteTurns(rest, true, cur + "\"" + a.value);
      assert cur + "\"" + a.value + "\"" == cur + Raw(a);
    } else {
      NameStays(a.value);
      PlainKept(a.value, rest, cur);
    }
  }

  lemma {:induction false} ShownKept(a: Arg, rest: string, cur: string)
    requires Sound(a)
    ensures Arguments(Shown(a) + rest, false, cur) == Arguments(rest, false, cur + Shown(a))
  {
    NameStays(a.key);
    var t := a.key + "=";
    assert Shown(a) + rest == t + (Raw(a) + rest);
    PlainKept(t, Raw(a) + rest, cur);
    RawKept(a, rest, cur + t);
    assert cur + t + Raw(a) == cur + Shown(a);
  }

  function Pieces(lead: string, args: seq<Arg>): seq<string>
    decreases |args|
  {
    if args == [] then [] else [lead + Shown(args[0])] + Pieces(" ", args[1..])
  }

  lemma {:induction false} ShownNotBlank(lead: string, a: Arg)
    requires Sound(a) && forall c | c in lead :: c == ' '
    ensures Trim(lead + Shown(a)) != ""
  {
    NameStays(a.key);
    TrimLead(lead, Shown(a)) by {
      if a.quoted {
        assert Shown(a)[|Shown(a)| - 1] == '"';
      } else {
        NameStays(a.value);
        assert Shown(a)[|Shown(a)| - 1] == a.value[|a.value| - 1];
      }
      assert Shown(a)[0] == a.key[0];
    }
  }

  lemma {:induction false} CommaEnds(rest: string, cur: string)
    ensures Arguments(", " + rest, false, cur) == [cur] + Arguments(rest, false, " ")
  {
    assert (", " + rest)[1..] == " " + rest && (" " + rest)[1..] == rest;
    assert "" + " " == " ";
  }

  lemma {:induction false} ListRead(lead: string, args: seq<Arg>)
    requires args != [] && (forall a | a in args :: Sound(a)) && forall c | c in lead :: c == ' '
    ensures Arguments(Shown(args[0]) + Tail(args[1..]), false, lead) == Pieces(lead, args)
    decreases |args|
  {
    var a, more := args[0], args[1..];
    ShownKept(a, Tail(more), lead);
    if more == [] {
      ShownNotBlank(lead, a);
    } else {
      CommaEnds(Shown(more[0]) + Tail(more[1..]), lead + Shown(a));
      ListRead(" ", more);
    }
  }

  lemma {:induction false} PiecesRead(lead: string, args: seq<Arg>)
    requires (forall a | a in args :: Sound(a)) && forall c | c in lead :: c == ' '
    ensures Entries(Pieces(lead, args)) == Slots(args)
    decreases |args|
  {
    if args == [] {
    } else {
      var more := Pieces(" ", args[1..]);
      EntryRead(lead, args[0]);
      PiecesRead(" ", args[1..]);
      assert ([lead + Shown(args[0])] + more)[1..] == more;
    }
  }

  // ---------- the whole line ----------

  // The bracketed call without its brackets.
  lemma {:induction false} BracketsOff(inner: string)
    requires inner != "" && ('a' <= inner[0] <= 'z' || inner[0] == '_') && inner[|inner| - 1] == ')'
    ensures Body("[" + (inner + "]")) == inner
  {
    var line := "[" + (inner + "]");
    Untrimmed(line);
    assert line[1..] == inner + "]";
    assert StripStart(line, "[") == inner + "]";
    assert (inner + "]")[..|inner|] == inner;
    assert StripEnd(inner + "]", "]") == inner;
    Untrimmed(inner);
  }

  lemma {:induction false} CallSplit(verb: string, list: string)
    requires IsName(verb)
    ensures var s := verb + ("(" + (list + ")"));
            && Find(s, "(") == Some(|verb|) && FindLast(s, ')') == Some(|s| - 1)
            && s[..|verb|] == verb && s[|verb| + 1..|s| - 1] == list
  {
    NameStays(verb);
    FindFirst(verb, '(', list + ")");
  }

  lemma {:induction false} VerbRead(verb: string)
    requires IsName(verb)
    ensures VerbOf(verb) == verb
  {
    NameStays(verb);
    Untrimmed(verb);
    assert verb[|verb| - 1] in verb;
  }

  lemma {:induction false} ColonsStripped(name: string, colons: string)
    requires name != "" && name[|name| - 1] != ':' && forall c | c in colons :: c == ':'
    ensures StripEnd(name + colons, ":") == name
    decreases |colons|
  {
    if colons == "" {
      assert name + colons == name && name[|name| - 1] !in ":";
    } else {
      var n := |colons| - 1;
      assert colons[n] in colons && (name + colons)[..|name + colons| - 1] == name + colons[..n];
      assert forall c | c in colons[..n] :: c in colons;
      ColonsStripped(name, colons[..n]);
    }
  }

  /** A verb is read in any case, with blanks around it and colons behind it. */
  lemma {:induction false} VerbInAnyCase(lead: string, name: string, colons: string)
    requires (forall c | c in lead :: IsSpace(c)) && forall c | c in colons :: c == ':'
    requires name != "" && !IsSpace(name[0]) && !IsSpace(name[|name| - 1]) && name[|name| - 1] != ':'
    ensures VerbOf(lead + (name + colons)) == Lower(name)
  {
    var word := name + colons;
    assert colons != "" ==> word[|word| - 1] in colons;
    TrimLead(lead, word);
    ColonsStripped(name, colons);
  }

  lemma {:induction false} BodyRead(line: string, verb: string, list: string)
    requires IsName(verb) && Body(line) == verb + ("(" + (list + ")"))
    ensures CallOf(line) == Some(Call(verb, Entries(Arguments(list, false, ""))))
  {
    CallSplit(verb, list);
    VerbRead(verb);
  }

  lemma {:induction false} CallRead(verb: string, list: string)
    requires IsName(verb)
    ensures CallOf("[" + (verb + ("(" + (list + ")]")))) == Some(Call(verb, Entries(Arguments(list, false, ""))))
  {
    var inner := verb + ("(" + (list + ")"));
    var line := "[" + (verb + ("(" + (list + ")]")));
    assert line == "[" + (inner + "]");
    assert inner[0] == verb[0] && verb[0] in verb;
    BracketsOff(inner);
    BodyRead(line, verb, list);
  }

  /** Every printed call is read back: same verb, and every slot under its key, whatever commas, equals
      signs, brackets or parentheses its text holds. */
  lemma {:induction false} LineReadBack(verb: string, args: seq<Arg>)
    requires IsName(verb) && args != [] && forall a | a in args :: Sound(a)
    ensures CallOf(Line(verb, args)) == Some(Call(verb, Slots(args)))
  {
    var list := Shown(args[0]) + Tail(args[1..]);
    assert Line(verb, args) == "[" + (verb + ("(" + (list + ")]")));
    CallRead(verb, list);
    ListRead("", args);
    PiecesRead("", args);
  }
}
