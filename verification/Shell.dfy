/** How a POSIX shell reads a command: quoting, token recognition and where expansions start (sections 2.2, 2.3
    and 2.6 of the Shell Command Language), and commands printed so that it reads them as they were meant. */
module Shell {
  import opened Sequences
  import opened Text
  import opened Wrappers

  // ---------- reading ----------

  datatype Token = Word(parts: seq<Part>) | Operator(s: string)

  // A character, the value of a parameter, the output of a command, or an expansion that was read only up to
  // these tokens and this beginning of a word.
  datatype Part =
    | Chr(c: char)
    | Parameter(name: string)
    | Output(ts: seq<Token>)
    | Open(ts: seq<Token>, word: seq<Part>)

  function Plain(s: string): (r: seq<Part>)
    ensures |r| == |s|
  {
    seq(|s|, i requires 0 <= i < |s| => Chr(s[i]))
  }

  // The single quote.
  const QUOTE: char := '\U{27}'

  // Characters that mean themselves outside quotes, wherever they stand in a word.
  predicate IsBare(c: char) {
    IsAlnum(c) || c in "-_./%:,+{}"
  }

  predicate IsOperator(s: string) {
    s == "&&" || s == "||" || s == ">>" || s == ";" || s == "|" || s == ">"
  }

  // A bracket that is a word by itself, and so no part of a pattern.
  predicate IsLone(s: string, cur: Option<seq<Part>>)
    requires s != ""
  {
    (s[0] == '[' || s[0] == ']') && cur.None? && (|s| == 1 || s[1] == ' ' || s[1] == ';' || s[1] == ')')
  }

  function Finished(cur: Option<seq<Part>>): seq<Token> {
    match cur
    case None => []
    case Some(w) => [Word(w)]
  }

  function Begun(cur: Option<seq<Part>>): seq<Part> {
    match cur
    case None => []
    case Some(w) => w
  }

  // Everything was read, up to the parenthesis that closes a nested command; or something stood in the way that
  // is none of quoting, the operators above and expansion within double quotes, behind these tokens and this
  // beginning of a word.
  datatype Lexed = Read(ts: seq<Token>, rest: string) | Stuck(ts: seq<Token>, word: seq<Part>)

  function Put(ts: seq<Token>, r: Lexed): Lexed {
    match r
    case Stuck(us, word) => Stuck(ts + us, word)
    case Read(us, rest) => Read(ts + us, rest)
  }

  // The tokens of the input after the word begun so far.
  function Lex(s: string, cur: Option<seq<Part>>, nested: bool): (r: Lexed)
    ensures r.Read? ==> |r.rest| <= |s|
    decreases |s|
  {
    if s == "" then (if nested then Stuck([], Begun(cur)) else Read(Finished(cur), ""))
    else if nested && s[0] == ')' then Read(Finished(cur), s[1..])
    else if s[0] == ' ' || s[0] == '\t' then Put(Finished(cur), Lex(s[1..], None, nested))
    else if s[0] == QUOTE then InSingle(s[1..], Begun(cur), nested)
    else if s[0] == '"' then InDouble(s[1..], Begun(cur), nested)
    else if s[0] == '\\' then
      if |s| < 2 then Stuck([], Begun(cur))
      else if s[1] == '\n' then Lex(s[2..], cur, nested)
      else Lex(s[2..], Some(Begun(cur) + [Chr(s[1])]), nested)
    else if IsLone(s, cur) then Lex(s[1..], Some([Chr(s[0])]), nested)
    else if |s| >= 2 && IsOperator(s[..2]) then Put(Finished(cur) + [Operator(s[..2])], Lex(s[2..], None, nested))
    else if IsOperator(s[..1]) then Put(Finished(cur) + [Operator(s[..1])], Lex(s[1..], None, nested))
    else if IsBare(s[0]) then Lex(s[1..], Some(Begun(cur) + [Chr(s[0])]), nested)
    else Stuck([], Begun(cur))
  }

  // Inside single quotes every character stands for itself.
  function InSingle(s: string, cur: seq<Part>, nested: bool): (r: Lexed)
    ensures r.Read? ==> |r.rest| <= |s|
    decreases |s|
  {
    if s == "" then Stuck([], cur)
    else if s[0] == QUOTE then Lex(s[1..], Some(cur), nested)
    else InSingle(s[1..], cur + [Chr(s[0])], nested)
  }

  // Inside double quotes all but three do: a backquote, a dollar sign before a name, a special parameter, a
  // brace or a parenthesis, and a backslash before a character that it takes the meaning from.
  function InDouble(s: string, cur: seq<Part>, nested: bool): (r: Lexed)
    ensures r.Read? ==> |r.rest| <= |s|
    decreases |s|
  {
    if s == "" then Stuck([], cur)
    else if s[0] == '"' then Lex(s[1..], Some(cur), nested)
    else if s[0] == '`' then Stuck([], cur + [Open([], [])])
    else if |s| < 2 || !Alters(s[0], s[1]) then InDouble(s[1..], cur + [Chr(s[0])], nested)
    else if s[0] == '\\' then InDouble(s[2..], if s[1] == '\n' then cur else cur + [Chr(s[1])], nested)
    else if s[1] == '{' then Stuck([], cur + [Open([], [])])
    else if s[1] == '(' then
      match Lex(s[2..], None, true)
      case Stuck(ts, word) => Stuck([], cur + [Open(ts, word)])
      case Read(ts, rest) => InDouble(rest, cur + [Output(ts)], nested)
    else
      var k := ParameterLength(s[1..]);
      InDouble(s[1 + k..], cur + [Parameter(s[1..1 + k])], nested)
  }

  predicate IsNameStart(c: char) {
    c == '_' || (IsAlnum(c) && !IsDigit(c))
  }

  // What makes a dollar sign before it start an expansion; before anything else it stands for itself.
  predicate StartsExpansion(c: char) {
    IsAlnum(c) || c in "_@*#?-$!{("
  }

  // What a backslash in double quotes takes the meaning from.
  predicate IsEscapable(c: char) {
    c == '$' || c == '`' || c == '"' || c == '\\' || c == '\n'
  }

  // Whether c stands for something else than itself within double quotes, with d behind it.
  predicate Alters(c: char, d: char) {
    c == '`' || (c == '$' && StartsExpansion(d)) || (c == '\\' && IsEscapable(d))
  }

  // A name as long as it goes; a digit or a special parameter is one character.
  function ParameterLength(s: string): (k: nat)
    requires s != ""
    ensures 1 <= k <= |s|
  {
    if IsNameStart(s[0]) then 1 + NameRest(s[1..]) else 1
  }

  function NameRest(s: string): (k: nat)
    ensures k <= |s|
  {
    if s != "" && (s[0] == '_' || IsAlnum(s[0])) then 1 + NameRest(s[1..]) else 0
  }

  function Tokens(s: string): Option<seq<Token>> {
    match Lex(s, None, false)
    case Stuck(_, _) => None
    case Read(ts, _) => Some(ts)
  }

  // ---------- printing ----------

  // Bare text, quoted text, or the output of a command within double quotes.
  datatype Segment = Bare(s: string) | Single(s: string) | Double(s: string) | Substituted(ps: seq<Piece>)

  // A word with a semicolon behind it or not, an operator, or a bracket that stands alone.
  datatype Piece = Argument(segs: seq<Segment>, semi: bool) | Op(s: string) | Lone(c: char, semi: bool)

  // A single quote leaves the quoting, stands behind a backslash, and enters again.
  function Escaped(s: string): string {
    if s == "" then "" else (if s[0] == QUOTE then [QUOTE, '\\', QUOTE, QUOTE] else [s[0]]) + Escaped(s[1..])
  }

  function Shq(s: string): string {
    [QUOTE] + (Escaped(s) + [QUOTE])
  }

  function Joined(parts: seq<string>): string {
    if parts == [] then "" else if |parts| == 1 then parts[0] else parts[0] + (" " + Joined(parts[1..]))
  }

  function ShownSegment(g: Segment): string {
    match g
    case Bare(s) => s
    case Single(s) => Shq(s)
    case Double(s) => "\"" + (s + "\"")
    case Substituted(ps) => "\"$(" + (ShownAll(ps) + ")\"")
  }

  function ShownSegments(segs: seq<Segment>): string {
    if segs == [] then "" else ShownSegment(segs[0]) + ShownSegments(segs[1..])
  }

  function Shown(p: Piece): string {
    match p
    case Argument(segs, semi) => ShownSegments(segs) + (if semi then ";" else "")
    case Op(s) => s
    case Lone(c, semi) => [c] + (if semi then ";" else "")
  }

  function ShownAll(ps: seq<Piece>): string {
    if ps == [] then "" else if |ps| == 1 then Shown(ps[0]) else Shown(ps[0]) + (" " + ShownAll(ps[1..]))
  }

  predicate SoundSegment(g: Segment) {
    match g
    case Bare(s) => s != "" && forall c | c in s :: IsBare(c)
    case Single(_) => true
    case Double(s) => '"' !in s && Literal(s, '"')
    case Substituted(ps) => forall p | p in ps :: Sound(p)
  }

  // Within double quotes every character stands for itself, with next behind the last.
  predicate Literal(s: string, next: char) {
    forall i | 0 <= i < |s| :: !Alters(s[i], Follower(s, i, next))
  }

  function Follower(s: string, i: nat, next: char): char {
    if i + 1 < |s| then s[i + 1] else next
  }

  predicate Sound(p: Piece) {
    match p
    case Argument(segs, _) => forall g | g in segs :: SoundSegment(g)
    case Op(s) => IsOperator(s)
    case Lone(c, _) => c == '[' || c == ']'
  }

  // Sound but for characters within double quotes that stand for something else than themselves.
  predicate FormedSegment(g: Segment) {
    match g
    case Bare(s) => s != "" && forall c | c in s :: IsBare(c)
    case Single(_) => true
    case Double(s) => '"' !in s
    case Substituted(ps) => forall p | p in ps :: Formed(p)
  }

  predicate Formed(p: Piece) {
    match p
    case Argument(segs, _) => forall g | g in segs :: FormedSegment(g)
    case Op(s) => IsOperator(s)
    case Lone(c, _) => c == '[' || c == ']'
  }

  // ---------- what was meant ----------

  function SegmentParts(g: Segment): seq<Part> {
    match g
    case Bare(s) => Plain(s)
    case Single(s) => Plain(s)
    case Double(s) => Plain(s)
    case Substituted(ps) => [Output(TokensOf(ps))]
  }

  function Parts(segs: seq<Segment>): seq<Part> {
    if segs == [] then [] else SegmentParts(segs[0]) + Parts(segs[1..])
  }

  function TokenOf(p: Piece): seq<Token> {
    match p
    case Argument(segs, semi) =>
      (if segs == [] then [] else [Word(Parts(segs))]) + (if semi then [Operator(";")] else [])
    case Op(s) => [Operator(s)]
    case Lone(c, semi) => [Word([Chr(c)])] + (if semi then [Operator(";")] else [])
  }

  function TokensOf(ps: seq<Piece>): seq<Token> {
    if ps == [] then [] else TokenOf(ps[0]) + TokensOf(ps[1..])
  }

  // ---------- quoted and bare text ----------

  lemma {:induction false} PlainGrows(s: string)
    requires s != ""
    ensures Plain(s) == [Chr(s[0])] + Plain(s[1..])
  {
  }

  lemma {:induction false} QuoteRead(tail: string, cur: seq<Part>, n: bool)
    ensures InSingle([QUOTE, '\\', QUOTE, QUOTE] + tail, cur, n) == InSingle(tail, cur + [Chr(QUOTE)], n)
  {
    var a, b, c := [QUOTE, '\\', QUOTE, QUOTE] + tail, ['\\', QUOTE, QUOTE] + tail, [QUOTE] + tail;
    assert a[1..] == b && b[2..] == c && c[1..] == tail;
    assert InSingle(a, cur, n) == Lex(b, Some(cur), n);
    assert Lex(b, Some(cur), n) == Lex(c, Some(cur + [Chr(QUOTE)]), n);
  }

  lemma {:induction false} EscapedCharRead(c: char, tail: string, cur: seq<Part>, n: bool)
    ensures InSingle((if c == QUOTE then [QUOTE, '\\', QUOTE, QUOTE] else [c]) + tail, cur, n)
            == InSingle(tail, cur + [Chr(c)], n)
  {
    if c == QUOTE {
      QuoteRead(tail, cur, n);
    } else {
      assert ([c] + tail)[1..] == tail;
    }
  }

  lemma {:induction false} EscapedRead(s: string, rest: string, cur: seq<Part>, n: bool)
    ensures InSingle(Escaped(s) + ([QUOTE] + rest), cur, n) == Lex(rest, Some(cur + Plain(s)), n)
    decreases s
  {
    var all := Escaped(s) + ([QUOTE] + rest);
    if s == "" {
      assert all == [QUOTE] + rest && all[1..] == rest;
      assert cur + Plain(s) == cur;
    } else {
      var tail := Escaped(s[1..]) + ([QUOTE] + rest);
      EscapedRead(s[1..], rest, cur + [Chr(s[0])], n);
      PlainGrows(s);
      Grouped(cur, [Chr(s[0])], Plain(s[1..]));
      Grouped(if s[0] == QUOTE then [QUOTE, '\\', QUOTE, QUOTE] else [s[0]], Escaped(s[1..]), [QUOTE] + rest);
      EscapedCharRead(s[0], tail, cur, n);
    }
  }

  /** A single-quoted argument is read back as itself, whatever characters it holds, and joins the word it
      stands in. */
  lemma {:induction false} ShqRead(s: string, rest: string, cur: Option<seq<Part>>, n: bool)
    ensures Lex(Shq(s) + rest, cur, n) == Lex(rest, Some(Begun(cur) + Plain(s)), n)
  {
    var tail := Escaped(s) + ([QUOTE] + rest);
    assert Shq(s) + rest == [QUOTE] + tail;
    assert ([QUOTE] + tail)[1..] == tail;
    EscapedRead(s, rest, Begun(cur), n);
  }

  lemma {:induction false} BareIsPlain(c: char, rest: string)
    requires IsBare(c)
    ensures var all := [c] + rest;
            all[..1] == [c] && !IsOperator(all[..1]) && (|all| >= 2 ==> !IsOperator(all[..2]))
    ensures c != ' ' && c != '\t' && c != QUOTE && c != '"' && c != '\\' && c != '[' && c != ']' && c != ')'
  {
    var all := [c] + rest;
    assert all[..1] == [c];
    if |all| >= 2 {
      assert all[..2][0] == c;
    }
  }

  lemma {:induction false} BareCharRead(c: char, rest: string, cur: Option<seq<Part>>, n: bool)
    requires IsBare(c)
    ensures Lex([c] + rest, cur, n) == Lex(rest, Some(Begun(cur) + [Chr(c)]), n)
  {
    var all := [c] + rest;
    assert all[0] == c && all[1..] == rest;
    BareIsPlain(c, rest);
  }

  lemma {:induction false} BareRead(s: string, rest: string, cur: Option<seq<Part>>, n: bool)
    requires s != "" && forall c | c in s :: IsBare(c)
    ensures Lex(s + rest, cur, n) == Lex(rest, Some(Begun(cur) + Plain(s)), n)
    decreases s
  {
    assert s[0] in s;
    assert s + rest == [s[0]] + (s[1..] + rest);
    BareCharRead(s[0], s[1..] + rest, cur, n);
    PlainGrows(s);
    if |s| == 1 {
      assert s[1..] + rest == rest;
      assert [Chr(s[0])] + Plain("") == [Chr(s[0])];
    } else {
      BareRead(s[1..], rest, Some(Begun(cur) + [Chr(s[0])]), n);
      Grouped(Begun(cur), [Chr(s[0])], Plain(s[1..]));
    }
  }

  lemma {:induction false} LiteralCharRead(c: char, rest: string, cur: seq<Part>, n: bool)
    requires c != '"' && rest != "" && !Alters(c, rest[0])
    ensures InDouble([c] + rest, cur, n) == InDouble(rest, cur + [Chr(c)], n)
  {
    assert ([c] + rest)[1..] == rest;
  }

  lemma {:induction false} LiteralRest(s: string, next: char)
    requires s != ""
    ensures Literal(s, next) <==> !Alters(s[0], Follower(s, 0, next)) && Literal(s[1..], next)
  {
    forall i | 0 <= i < |s| - 1 ensures s[1..][i] == s[i + 1] && Follower(s[1..], i, next) == Follower(s, i + 1, next) {
    }
    if !Alters(s[0], Follower(s, 0, next)) && Literal(s[1..], next) {
      forall i | 0 <= i < |s| ensures !Alters(s[i], Follower(s, i, next)) {
        assert i > 0 ==> s[i] == s[1..][i - 1];
      }
    } else if Literal(s, next) {
      forall i | 0 <= i < |s[1..]| ensures !Alters(s[1..][i], Follower(s[1..], i, next)) {
        assert s[1..][i] == s[i + 1];
      }
    }
  }

  // A text and the closing quote.
  lemma {:induction false} TextRead(s: string, rest: string, cur: seq<Part>, n: bool)
    requires '"' !in s && Literal(s, '"')
    ensures InDouble(s + ("\"" + rest), cur, n) == Lex(rest, Some(cur + Plain(s)), n)
    decreases s
  {
    var tail := "\"" + rest;
    if s == "" {
      assert s + tail == tail && tail[1..] == rest && cur + Plain(s) == cur;
    } else {
      LiteralRest(s, '"');
      assert s + tail == [s[0]] + (s[1..] + tail);
      LiteralCharRead(s[0], s[1..] + tail, cur, n);
      TextRead(s[1..], rest, cur + [Chr(s[0])], n);
      PlainGrows(s);
      Grouped(cur, [Chr(s[0])], Plain(s[1..]));
    }
  }

  // ---------- words ----------

  lemma {:induction false} SubstitutionStarts(tail: string, cur: seq<Part>, n: bool)
    ensures InDouble("$(" + tail, cur, n)
            == match Lex(tail, None, true)
               case Stuck(ts, word) => Stuck([], cur + [Open(ts, word)])
               case Read(ts, rest) => InDouble(rest, cur + [Output(ts)], n)
  {
    var all := "$(" + tail;
    assert all[0] == '$' && all[1] == '(' && all[2..] == tail;
    assert StartsExpansion('(');
  }

  lemma {:induction false} SegmentRead(g: Segment, rest: string, cur: Option<seq<Part>>, n: bool)
    requires SoundSegment(g)
    ensures Lex(ShownSegment(g) + rest, cur, n) == Lex(rest, Some(Begun(cur) + SegmentParts(g)), n)
    decreases g
  {
    match g
    case Bare(s) => BareRead(s, rest, cur, n);
    case Single(s) => ShqRead(s, rest, cur, n);
    case Double(t) =>
      var tail := t + ("\"" + rest);
      assert ShownSegment(g) + rest == "\"" + tail;
      assert ("\"" + tail)[1..] == tail;
      TextRead(t, rest, Begun(cur), n);
    case Substituted(ps) =>
      var tail := ShownAll(ps) + (")\"" + rest);
      assert ShownSegment(g) + rest == "\"" + ("$(" + tail);
      assert ("\"" + ("$(" + tail))[1..] == "$(" + tail;
      SubstitutionStarts(tail, Begun(cur), n);
      CommandRead(ps, ")\"" + rest, true);
      assert (")\"" + rest)[1..] == "\"" + rest && ("\"" + rest)[1..] == rest;
      assert TokensOf(ps) + [] == TokensOf(ps);
  }

  lemma {:induction false} SegmentsRead(segs: seq<Segment>, rest: string, cur: Option<seq<Part>>, n: bool)
    requires segs != [] && forall g | g in segs :: SoundSegment(g)
    ensures Lex(ShownSegments(segs) + rest, cur, n) == Lex(rest, Some(Begun(cur) + Parts(segs)), n)
    decreases segs
  {
    assert segs[0] in segs;
    var tail := ShownSegments(segs[1..]) + rest;
    var word := Begun(cur) + SegmentParts(segs[0]);
    Grouped(ShownSegment(segs[0]), ShownSegments(segs[1..]), rest);
    SegmentRead(segs[0], tail, cur, n);
    if |segs| == 1 {
      assert tail == rest;
      assert Begun(cur) + Parts(segs) == word;
    } else {
      SegmentsRead(segs[1..], rest, Some(word), n);
      Grouped(Begun(cur), SegmentParts(segs[0]), Parts(segs[1..]));
    }
  }

  // ---------- whole commands ----------

  // Where a word ends.
  predicate Ends(rest: string, n: bool) {
    if rest == "" then !n else rest[0] == ' ' || (n && rest[0] == ')')
  }

  lemma {:induction false} PutTwice(ts: seq<Token>, us: seq<Token>, r: Lexed)
    ensures Put(ts + us, r) == Put(ts, Put(us, r)) && Put([], r) == r
  {
    if r.Read? {
      Grouped(ts, us, r.ts);
      assert [] + r.ts == r.ts;
    }
  }

  lemma {:induction false} WordEnds(w: seq<Part>, rest: string, n: bool)
    requires Ends(rest, n)
    ensures Lex(rest, Some(w), n) == Put([Word(w)], Lex(rest, None, n))
  {
    if rest != "" && rest[0] == ' ' {
      PutTwice([Word(w)], [], Lex(rest[1..], None, n));
    }
  }

  lemma {:induction false} NoLongOperator(s: string, rest: string, n: bool)
    requires |s| == 1 && Ends(rest, n)
    ensures |s + rest| >= 2 ==> !IsOperator((s + rest)[..2])
  {
    if |s + rest| >= 2 {
      assert (s + rest)[..2] == [s[0], rest[0]];
    }
  }

  lemma {:induction false} SemicolonRead(cur: Option<seq<Part>>, rest: string, n: bool)
    requires Ends(rest, n)
    ensures Lex(";" + rest, cur, n) == Put(Finished(cur), Put([Operator(";")], Lex(rest, None, n)))
  {
    var all := ";" + rest;
    assert all[1..] == rest && all[..1] == ";";
    NoLongOperator(";", rest, n);
    assert Lex(all, cur, n) == Put(Finished(cur) + [Operator(";")], Lex(rest, None, n));
    PutTwice(Finished(cur), [Operator(";")], Lex(rest, None, n));
  }

  // The end of a word, with a semicolon or not.
  lemma {:induction false} EndRead(w: seq<Part>, semi: bool, rest: string, n: bool)
    requires Ends(rest, n)
    ensures Lex((if semi then ";" else "") + rest, Some(w), n)
            == Put([Word(w)] + (if semi then [Operator(";")] else []), Lex(rest, None, n))
  {
    PutTwice([Word(w)], if semi then [Operator(";")] else [], Lex(rest, None, n));
    if semi {
      SemicolonRead(Some(w), rest, n);
    } else {
      assert "" + rest == rest;
      WordEnds(w, rest, n);
      PutTwice([], [], Lex(rest, None, n));
    }
  }

  lemma {:induction false} OperatorRead(s: string, rest: string, n: bool)
    requires IsOperator(s) && Ends(rest, n)
    ensures Lex(s + rest, None, n) == Put([Operator(s)], Lex(rest, None, n))
  {
    var all := s + rest;
    assert all[..|s|] == s && all[|s|..] == rest && all[0] == s[0];
    assert [] + [Operator(s)] == [Operator(s)];
    if |s| == 1 {
      NoLongOperator(s, rest, n);
    }
  }

  lemma {:induction false} LoneRead(c: char, semi: bool, rest: string, n: bool)
    requires (c == '[' || c == ']') && Ends(rest, n)
    ensures Lex([c] + ((if semi then ";" else "") + rest), None, n)
            == Put([Word([Chr(c)])] + (if semi then [Operator(";")] else []), Lex(rest, None, n))
  {
    var tail := (if semi then ";" else "") + rest;
    var all := [c] + tail;
    assert all[0] == c && all[1..] == tail;
    EndRead([Chr(c)], semi, rest, n);
  }

  lemma {:induction false} PieceRead(p: Piece, rest: string, n: bool)
    requires Sound(p) && Ends(rest, n)
    ensures Lex(Shown(p) + rest, None, n) == Put(TokenOf(p), Lex(rest, None, n))
    decreases p
  {
    match p
    case Argument(segs, semi) =>
      var end := if semi then ";" else "";
      Grouped(ShownSegments(segs), end, rest);
      if segs == [] {
        assert "" + (end + rest) == end + rest;
        NothingRead(semi, rest, n);
      } else {
        SegmentsRead(segs, end + rest, None, n);
        assert [] + Parts(segs) == Parts(segs);
        EndRead(Parts(segs), semi, rest, n);
      }
    case Op(s) => OperatorRead(s, rest, n);
    case Lone(c, semi) =>
      Grouped([c], if semi then ";" else "", rest);
      LoneRead(c, semi, rest, n);
  }

  lemma {:induction false} NothingRead(semi: bool, rest: string, n: bool)
    requires Ends(rest, n)
    ensures Lex((if semi then ";" else "") + rest, None, n)
            == Put([] + (if semi then [Operator(";")] else []), Lex(rest, None, n))
  {
    PutTwice([], [], Lex(rest, None, n));
    if semi {
      SemicolonRead(None, rest, n);
      PutTwice([], [Operator(";")], Lex(rest, None, n));
      PutTwice([], [], Put([Operator(";")], Lex(rest, None, n)));
      assert [] + [Operator(";")] == [Operator(";")];
    } else {
      assert "" + rest == rest;
    }
  }

  lemma {:induction false} BlankRead(rest: string, n: bool)
    ensures Lex(" " + rest, None, n) == Lex(rest, None, n)
  {
    assert (" " + rest)[1..] == rest;
    PutTwice([], [], Lex(rest, None, n));
  }

  /** Printing and splitting undo each other for every command of bare, single-quoted and double-quoted
      text, nested commands and operators: no argument breaks out of its word and none is lost or merged. */
  lemma {:induction false} CommandRead(ps: seq<Piece>, tail: string, n: bool)
    requires forall p | p in ps :: Sound(p)
    requires if n then tail != "" && tail[0] == ')' else tail == ""
    ensures Lex(ShownAll(ps) + tail, None, n) == Put(TokensOf(ps), Lex(tail, None, n))
    decreases ps
  {
    if ps == [] {
      assert ShownAll(ps) + tail == tail;
      PutTwice([], [], Lex(tail, None, n));
    } else if |ps| == 1 {
      assert ps[0] in ps;
      PieceRead(ps[0], tail, n);
      assert TokensOf(ps) == TokenOf(ps[0]) + [] == TokenOf(ps[0]);
    } else {
      assert ps[0] in ps;
      var more := ShownAll(ps[1..]) + tail;
      assert ShownAll(ps) + tail == Shown(ps[0]) + (" " + more);
      PieceRead(ps[0], " " + more, n);
      BlankRead(more, n);
      CommandRead(ps[1..], tail, n);
      PutTwice(TokenOf(ps[0]), TokensOf(ps[1..]), Lex(tail, None, n));
    }
  }

  // ---------- characters that stand for something else are never read as themselves ----------

  // What was read of a word starts with these parts.
  ghost predicate Begins(r: Lexed, w: seq<Part>) {
    if r.ts != [] then r.ts[0].Word? && w <= r.ts[0].parts else r.Stuck? && w <= r.word
  }

  lemma {:induction false} PutBegins(w: seq<Part>, more: seq<Token>, r: Lexed)
    ensures Begins(Put([Word(w)] + more, r), w)
  {
  }

  lemma {:induction false} BeginsLess(r: Lexed, w: seq<Part>, more: seq<Part>)
    requires Begins(r, w + more)
    ensures Begins(r, w)
  {
  }

  // A word once begun keeps what it has.
  lemma {:induction false} WordGrows(s: string, w: seq<Part>, n: bool)
    ensures Begins(Lex(s, Some(w), n), w) && Begins(InSingle(s, w, n), w) && Begins(InDouble(s, w, n), w)
    decreases |s|, 2
  {
    if s == "" {
    } else {
      LexGrows(s, w, n);
      DoubleGrows(s, w, n);
      WordGrows(s[1..], w, n);
      WordGrowsBy(s[1..], w, Chr(s[0]), n);
    }
  }

  lemma {:induction false} WordGrowsBy(s: string, w: seq<Part>, part: Part, n: bool)
    ensures Begins(Lex(s, Some(w + [part]), n), w) && Begins(InSingle(s, w + [part], n), w)
    ensures Begins(InDouble(s, w + [part], n), w)
    decreases |s|, 3
  {
    WordGrows(s, w + [part], n);
    BeginsLess(Lex(s, Some(w + [part]), n), w, [part]);
    BeginsLess(InSingle(s, w + [part], n), w, [part]);
    BeginsLess(InDouble(s, w + [part], n), w, [part]);
  }

  lemma {:induction false} LexGrows(s: string, w: seq<Part>, n: bool)
    requires s != ""
    ensures Begins(Lex(s, Some(w), n), w)
    decreases |s|, 1
  {
    if |s| >= 2 && s[0] == '\\' {
      WordGrows(s[2..], w, n);
      WordGrowsBy(s[2..], w, Chr(s[1]), n);
    } else if s[0] == ' ' || s[0] == '\t' || IsOperator(s[..1]) || (|s| >= 2 && IsOperator(s[..2])) {
      WordStops(s, w, n);
    } else {
      WordGrows(s[1..], w, n);
      WordGrowsBy(s[1..], w, Chr(s[0]), n);
    }
  }

  lemma {:induction false} WordStops(s: string, w: seq<Part>, n: bool)
    requires s != "" && (s[0] == ' ' || s[0] == '\t' || IsOperator(s[..1]) || (|s| >= 2 && IsOperator(s[..2])))
    ensures Begins(Lex(s, Some(w), n), w)
  {
    PutBegins(w, [], Lex(s[1..], None, n));
    PutBegins(w, [Operator(s[..1])], Lex(s[1..], None, n));
    if |s| >= 2 {
      PutBegins(w, [Operator(s[..2])], Lex(s[2..], None, n));
    }
  }

  lemma {:induction false} DoubleGrows(s: string, w: seq<Part>, n: bool)
    requires s != ""
    ensures Begins(InDouble(s, w, n), w)
    decreases |s|, 1
  {
    WordGrows(s[1..], w, n);
    WordGrowsBy(s[1..], w, Chr(s[0]), n);
    if |s| >= 2 && Alters(s[0], s[1]) {
      EscapeGrows(s, w, n);
      ExpansionGrows(s, w, n);
    }
  }

  lemma {:induction false} EscapeGrows(s: string, w: seq<Part>, n: bool)
    requires |s| >= 2 && Alters(s[0], s[1])
    ensures s[0] == '\\' ==> Begins(InDouble(s, w, n), w)
    decreases |s|, 0
  {
    WordGrows(s[2..], w, n);
    WordGrowsBy(s[2..], w, Chr(s[1]), n);
  }

  lemma {:induction false} ExpansionGrows(s: string, w: seq<Part>, n: bool)
    requires |s| >= 2 && Alters(s[0], s[1])
    ensures s[0] != '\\' ==> Begins(InDouble(s, w, n), w)
    decreases |s|, 0
  {
    if s[1] == '(' {
      var inner := Lex(s[2..], None, true);
      if inner.Read? {
        WordGrowsBy(inner.rest, w, Output(inner.ts), n);
      }
    } else {
      var k := ParameterLength(s[1..]);
      WordGrowsBy(s[1 + k..], w, Parameter(s[1..1 + k]), n);
    }
  }

  // The part that was read may yet turn out as the part that was meant.
  ghost predicate PartFits(part: Part, meant: Part)
    decreases part, 0
  {
    part == meant || (part.Open? && meant.Output? && !Departs(part.ts, part.word, true, meant.ts))
  }

  ghost predicate WordFits(word: seq<Part>, meant: seq<Part>)
    decreases word, 1
  {
    forall i | 0 <= i < |word| && i < |meant| :: PartFits(word[i], meant[i])
  }

  // No command of which this was read, and more follows or not, begins with these tokens.
  ghost predicate Departs(ts: seq<Token>, word: seq<Part>, more: bool, meant: seq<Token>)
    decreases word, 2
  {
    && !(meant <= ts)
    && (more && ts < meant ==>
          word != [] && (meant[|ts|].Word? ==> |word| > |meant[|ts|].parts| || !WordFits(word, meant[|ts|].parts)))
  }

  ghost predicate Misread(r: Lexed, meant: seq<Token>) {
    match r
    case Read(ts, _) => Departs(ts, [], false, meant)
    case Stuck(ts, word) => Departs(ts, word, true, meant)
  }

  // The word that was read, or begun, is not the beginning of one that starts with these parts.
  ghost predicate OtherWord(r: Lexed, meant: seq<Part>) {
    if r.ts != [] then r.ts[0].Word? && !(meant <= r.ts[0].parts) else r.Stuck? && !WordFits(r.word, meant)
  }

  lemma {:induction false} OtherWordMore(r: Lexed, w: seq<Part>, more: seq<Part>)
    requires OtherWord(r, w)
    ensures OtherWord(r, w + more)
  {
    if r.ts == [] {
      var i :| 0 <= i < |r.word| && i < |w| && !PartFits(r.word[i], w[i]);
      assert (w + more)[i] == w[i];
    }
  }

  lemma {:induction false} OtherWordMisread(r: Lexed, w: seq<Part>, more: seq<Token>)
    requires OtherWord(r, w)
    ensures Misread(r, [Word(w)] + more)
  {
    var meant := [Word(w)] + more;
    if r.ts != [] {
      if meant <= r.ts || r.ts <= meant {
        assert meant[0] == r.ts[0];
      }
    }
  }

  // Another part stands where this one was meant.
  lemma {:induction false} OtherPart(r: Lexed, cur: seq<Part>, part: Part, meant: seq<Part>)
    requires Begins(r, cur + [part]) && |meant| > |cur| && !PartFits(part, meant[|cur|])
    ensures OtherWord(r, meant)
  {
    assert (cur + [part])[|cur|] == part;
    if r.ts != [] {
      assert r.ts[0].parts[|cur|] == part;
    } else {
      assert r.word[|cur|] == part;
    }
  }

  // ---------- words that fall behind ----------

  // What an escaped backslash and an escaped line break leave behind.
  predicate IsLost(part: Part) {
    part == Chr('\\') || part == Chr('\n')
  }

  // Backslashes and line breaks are what the word lacks.
  ghost predicate Behind(word: seq<Part>, meant: seq<Part>) {
    word < meant && forall i | |word| <= i < |meant| :: IsLost(meant[i])
  }

  lemma {:induction false} BehindLost(word: seq<Part>, meant: seq<Part>, more: seq<Part>)
    requires (word == meant && more != []) || Behind(word, meant)
    requires forall part | part in more :: IsLost(part)
    ensures Behind(word, meant + more)
  {
    forall i | |word| <= i < |meant + more| ensures IsLost((meant + more)[i]) {
      if i >= |meant| {
        assert (meant + more)[i] == more[i - |meant|];
      }
    }
  }

  // The same parts behind both: the word stays behind, or other parts stand in it than were meant.
  lemma {:induction false} BehindMore(word: seq<Part>, meant: seq<Part>, more: seq<Part>)
    requires Behind(word, meant) && word + more <= meant + more
    ensures Behind(word + more, meant + more)
  {
    var d := |meant| - |word|;
    forall i | |word| <= i < |meant + more| ensures IsLost((meant + more)[i]) {
      LostShifts(word, meant, more, i);
    }
  }

  lemma {:induction false} LostShifts(word: seq<Part>, meant: seq<Part>, more: seq<Part>, i: nat)
    requires Behind(word, meant) && word + more <= meant + more && |word| <= i < |meant + more|
    ensures IsLost((meant + more)[i])
    decreases i
  {
    if i < |meant| {
      assert (meant + more)[i] == meant[i];
    } else {
      var d := |meant| - |word|;
      LostShifts(word, meant, more, i - d);
      assert (meant + more)[i] == more[i - |meant|] == (word + more)[i - d] == (meant + more)[i - d];
    }
  }

  lemma {:induction false} StaysBehind(r: Lexed, word: seq<Part>, meant: seq<Part>, more: seq<Part>)
    requires Behind(word, meant) && Begins(r, word + more) && forall part | part in more :: !part.Open?
    ensures OtherWord(r, meant + more) || Behind(word + more, meant + more)
  {
    var all, target := word + more, meant + more;
    if all <= target {
      BehindMore(word, meant, more);
    } else {
      var i :| 0 <= i < |all| && all[i] != target[i];
      assert i >= |word| && all[i] == more[i - |word|];
      assert all[..i + 1] == all[..i] + [all[i]];
      assert all == all[..i + 1] + all[i + 1..];
      BeginsLess(r, all[..i + 1], all[i + 1..]);
      OtherPart(r, all[..i], all[i], target);
    }
  }

  // What was read is another word than was meant, or a word that has fallen behind, in front of the rest.
  ghost predicate Strays(r: Lexed, rest: string, meant: seq<Part>, n: bool) {
    OtherWord(r, meant) || exists word :: Behind(word, meant) && r == Lex(rest, Some(word), n)
  }

  lemma {:induction false} StraysBehind(word: seq<Part>, rest: string, meant: seq<Part>, n: bool)
    requires Behind(word, meant)
    ensures Strays(Lex(rest, Some(word), n), rest, meant, n)
  {
  }

  // The character meant next: a lost one, or that of the text.
  lemma {:induction false} MeantNext(word: seq<Part>, meant: seq<Part>, s: string)
    requires s != "" && (word == meant || Behind(word, meant))
    ensures |meant + Plain(s)| > |word|
    ensures var next := (meant + Plain(s))[|word|]; next == Chr(s[0]) || (Behind(word, meant) && IsLost(next))
  {
  }

  lemma {:induction false} ExpansionStrays(s: string, rest: string, word: seq<Part>, meant: seq<Part>, n: bool)
    requires s != "" && |s + rest| >= 2 && Alters(s[0], (s + rest)[1]) && s[0] != '\\'
    requires word == meant || Behind(word, meant)
    ensures OtherWord(InDouble(s + rest, word, n), meant + Plain(s))
  {
    var all := s + rest;
    var r := InDouble(all, word, n);
    MeantNext(word, meant, s);
    if all[0] == '`' || all[1] == '{' {
      OtherPart(r, word, Open([], []), meant + Plain(s));
    } else if all[1] == '(' {
      var inner := Lex(all[2..], None, true);
      if inner.Read? {
        WordGrows(inner.rest, word + [Output(inner.ts)], n);
        OtherPart(r, word, Output(inner.ts), meant + Plain(s));
      } else {
        OtherPart(r, word, Open(inner.ts, inner.word), meant + Plain(s));
      }
    } else {
      var k := ParameterLength(all[1..]);
      WordGrows(all[1 + k..], word + [Parameter(all[1..1 + k])], n);
      OtherPart(r, word, Parameter(all[1..1 + k]), meant + Plain(s));
    }
  }

  lemma {:induction false} EscapeStrays(s: string, rest: string, word: seq<Part>, meant: seq<Part>, n: bool)
    requires s != "" && |s + rest| >= 2 && Alters('\\', (s + rest)[1]) && s[0] == '\\'
    requires (s + rest)[1] != '\\' && (s + rest)[1] != '\n'
    requires word == meant || Behind(word, meant)
    ensures OtherWord(InDouble(s + rest, word, n), meant + Plain(s))
  {
    var all := s + rest;
    MeantNext(word, meant, s);
    WordGrows(all[2..], word + [Chr(all[1])], n);
    OtherPart(InDouble(all, word, n), word, Chr(all[1]), meant + Plain(s));
  }

  lemma {:induction false} PlainTwo(s: string)
    requires |s| >= 2
    ensures Plain(s) == [Chr(s[0]), Chr(s[1])] + Plain(s[2..])
  {
  }

  // A text that a character in it, or a word behind before it, keeps from being read as itself.
  lemma {:induction false} TextStrays(s: string, rest: string, word: seq<Part>, meant: seq<Part>, n: bool)
    requires '"' !in s && (Behind(word, meant) || (word == meant && !Literal(s, '"')))
    ensures Strays(InDouble(s + ("\"" + rest), word, n), rest, meant + Plain(s), n)
    decreases |s|
  {
    var tail := "\"" + rest;
    if s == "" {
      assert s + tail == tail && tail[1..] == rest && meant + Plain(s) == meant;
      StraysBehind(word, rest, meant, n);
    } else if !Alters(s[0], (s + tail)[1]) {
      LiteralStrays(s, rest, word, meant, n);
    } else if s[0] != '\\' {
      ExpansionStrays(s, tail, word, meant, n);
    } else if (s + tail)[1] == '\\' || (s + tail)[1] == '\n' {
      LostStrays(s, rest, word, meant, n);
    } else {
      EscapeStrays(s, tail, word, meant, n);
    }
  }

  lemma {:induction false} LiteralStrays(s: string, rest: string, word: seq<Part>, meant: seq<Part>, n: bool)
    requires s != "" && '"' !in s && !Alters(s[0], (s + ("\"" + rest))[1])
    requires Behind(word, meant) || (word == meant && !Literal(s, '"'))
    ensures Strays(InDouble(s + ("\"" + rest), word, n), rest, meant + Plain(s), n)
    decreases |s|, 0
  {
    var tail, c := "\"" + rest, [Chr(s[0])];
    var r := InDouble(s[1..] + tail, word + c, n);
    assert s + tail == [s[0]] + (s[1..] + tail);
    LiteralCharRead(s[0], s[1..] + tail, word, n);
    PlainGrows(s);
    Grouped(meant, c, Plain(s[1..]));
    LiteralRest(s, '"');
    WordGrows(s[1..] + tail, word + c, n);
    if Behind(word, meant) {
      StaysBehind(r, word, meant, c);
    }
    if Behind(word + c, meant + c) || word == meant {
      TextStrays(s[1..], rest, word + c, meant + c, n);
    } else {
      OtherWordMore(r, meant + c, Plain(s[1..]));
    }
  }

  lemma {:induction false} LostStrays(s: string, rest: string, word: seq<Part>, meant: seq<Part>, n: bool)
    requires |s| >= 2 && '"' !in s && s[0] == '\\' && (s[1] == '\\' || s[1] == '\n')
    requires word == meant || Behind(word, meant)
    ensures Strays(InDouble(s + ("\"" + rest), word, n), rest, meant + Plain(s), n)
    decreases |s|, 0
  {
    var tail, two := "\"" + rest, [Chr(s[0]), Chr(s[1])];
    var next := if s[1] == '\n' then word else word + [Chr('\\')];
    var r := InDouble(s[2..] + tail, next, n);
    assert (s + tail)[2..] == s[2..] + tail;
    PlainTwo(s);
    Grouped(meant, two, Plain(s[2..]));
    WordGrows(s[2..] + tail, next, n);
    FallsBehind(r, word, meant, s[1]);
    if Behind(next, meant + two) {
      TextStrays(s[2..], rest, next, meant + two, n);
    } else {
      OtherWordMore(r, meant + two, Plain(s[2..]));
    }
  }

  lemma {:induction false} FallsBehind(r: Lexed, word: seq<Part>, meant: seq<Part>, c: char)
    requires (word == meant || Behind(word, meant)) && (c == '\\' || c == '\n')
    requires Begins(r, if c == '\n' then word else word + [Chr('\\')])
    ensures var (next, target) := (if c == '\n' then word else word + [Chr('\\')], meant + [Chr('\\'), Chr(c)]);
            OtherWord(r, target) || Behind(next, target)
  {
    var slash := [Chr('\\')];
    if c == '\n' {
      BehindLost(word, meant, [Chr('\\'), Chr(c)]);
    } else {
      Grouped(meant, slash, slash);
      assert slash + slash == [Chr('\\'), Chr(c)];
      if Behind(word, meant) {
        StaysBehind(r, word, meant, slash);
      }
      if word == meant || Behind(word + slash, meant + slash) {
        BehindLost(word + slash, meant + slash, slash);
      } else {
        OtherWordMore(r, meant + slash, slash);
      }
    }
  }

  lemma {:induction false} SubstitutedStrays(
    ps: seq<Piece>, rest: string, cur: Option<seq<Part>>, meant: seq<Part>, n: bool)
    requires (forall p | p in ps :: Formed(p)) && exists p | p in ps :: !Sound(p)
    requires Begun(cur) == meant || Behind(Begun(cur), meant)
    ensures OtherWord(Lex(ShownSegment(Substituted(ps)) + rest, cur, n), meant + [Output(TokensOf(ps))])
    decreases ps, 1
  {
    var tail, word, target := ShownAll(ps) + (")\"" + rest), Begun(cur), meant + [Output(TokensOf(ps))];
    var all := "\"" + ("$(" + tail);
    assert ShownSegment(Substituted(ps)) + rest == all && all[1..] == "$(" + tail;
    SubstitutionStarts(tail, word, n);
    CommandWrong(ps, ")\"" + rest, true);
    var r, inner := Lex(all, cur, n), Lex(tail, None, true);
    if inner.Read? {
      WordGrows(inner.rest, word + [Output(inner.ts)], n);
      OtherPart(r, word, Output(inner.ts), target);
    } else {
      OtherPart(r, word, Open(inner.ts, inner.word), target);
    }
  }

  // A segment that is not read as itself, or a word that was behind before it.
  lemma {:induction false} SegmentStrays(
    g: Segment, rest: string, cur: Option<seq<Part>>, meant: seq<Part>, n: bool)
    requires FormedSegment(g)
    requires (cur.Some? && Behind(cur.value, meant)) || (Begun(cur) == meant && !SoundSegment(g))
    ensures Strays(Lex(ShownSegment(g) + rest, cur, n), rest, meant + SegmentParts(g), n)
    decreases g, 0
  {
    if SoundSegment(g) {
      var word := cur.value + SegmentParts(g);
      SegmentRead(g, rest, cur, n);
      WordGrows(rest, word, n);
      NothingOpen(g);
      StaysBehind(Lex(rest, Some(word), n), cur.value, meant, SegmentParts(g));
    } else if g.Double? {
      var tail := g.s + ("\"" + rest);
      assert ShownSegment(g) + rest == "\"" + tail;
      assert ("\"" + tail)[1..] == tail;
      TextStrays(g.s, rest, Begun(cur), meant, n);
    } else {
      SubstitutedStrays(g.ps, rest, cur, meant, n);
    }
  }

  lemma {:induction false} NothingOpen(g: Segment)
    ensures forall part | part in SegmentParts(g) :: !part.Open?
  {
  }

  lemma {:induction false} SegmentsStray(
    segs: seq<Segment>, rest: string, cur: Option<seq<Part>>, meant: seq<Part>, n: bool)
    requires forall g | g in segs :: FormedSegment(g)
    requires (cur.Some? && Behind(cur.value, meant))
             || (Begun(cur) == meant && exists g | g in segs :: !SoundSegment(g))
    ensures Strays(Lex(ShownSegments(segs) + rest, cur, n), rest, meant + Parts(segs), n)
    decreases segs, 0
  {
    if segs == [] {
      assert ShownSegments(segs) + rest == rest && meant + Parts(segs) == meant;
      StraysBehind(cur.value, rest, meant, n);
    } else {
      var first, more := segs[0], segs[1..];
      var tail, target := ShownSegments(more) + rest, meant + SegmentParts(first);
      assert segs == [first] + more && first in segs;
      Grouped(ShownSegment(first), ShownSegments(more), rest);
      Grouped(meant, SegmentParts(first), Parts(more));
      if Begun(cur) == meant && SoundSegment(first) {
        SegmentRead(first, tail, cur, n);
        SegmentsStray(more, rest, Some(target), target, n);
      } else {
        var r := Lex(ShownSegment(first) + tail, cur, n);
        SegmentStrays(first, tail, cur, meant, n);
        if OtherWord(r, target) {
          OtherWordMore(r, target, Parts(more));
        } else {
          var word :| Behind(word, target) && r == Lex(tail, Some(word), n);
          SegmentsStray(more, rest, Some(word), target, n);
        }
      }
    }
  }

  lemma {:induction false} PieceWrong(p: Piece, rest: string, n: bool)
    requires Formed(p) && !Sound(p) && Ends(rest, n)
    ensures Misread(Lex(Shown(p) + rest, None, n), TokenOf(p))
    decreases p, 0
  {
    var end, meant := if p.semi then ";" else "", Parts(p.segs);
    var r := Lex(Shown(p) + rest, None, n);
    Grouped(ShownSegments(p.segs), end, rest);
    SegmentsStray(p.segs, end + rest, None, [], n);
    assert [] + meant == meant;
    if !OtherWord(r, meant) {
      var word :| Behind(word, meant) && r == Lex(end + rest, Some(word), n);
      EndRead(word, p.semi, rest, n);
    }
    OtherWordMisread(r, meant, if p.semi then [Operator(";")] else []);
  }

  lemma {:induction false} PutWrong(ts: seq<Token>, us: seq<Token>, r: Lexed)
    requires Misread(r, us)
    ensures Misread(Put(ts, r), ts + us)
  {
    SameHead(ts, us, r.ts);
    SameHead(ts, r.ts, us);
    if ts + r.ts < ts + us {
      assert (ts + us)[|ts + r.ts|] == us[|r.ts|];
    }
  }

  lemma {:induction false} MisreadMore(r: Lexed, ts: seq<Token>, us: seq<Token>)
    requires Misread(r, ts)
    ensures Misread(r, ts + us)
  {
    if |r.ts| < |ts| && r.ts < ts + us {
      assert r.ts < ts && (ts + us)[|r.ts|] == ts[|r.ts|];
    }
  }

  /** A command with a character in a double-quoted text that stands for something else than itself is never
      read as it was meant: what is read differs, or had differed where the reading stops. */
  lemma {:induction false} CommandWrong(ps: seq<Piece>, tail: string, n: bool)
    requires (forall p | p in ps :: Formed(p)) && (exists p | p in ps :: !Sound(p)) && Ends(tail, n)
    ensures Misread(Lex(ShownAll(ps) + tail, None, n), TokensOf(ps))
    decreases ps, 0
  {
    var first, rest := ps[0], ps[1..];
    assert ps == [first] + rest && first in ps;
    var more := if rest == [] then tail else " " + (ShownAll(rest) + tail);
    assert ShownAll(ps) + tail == Shown(first) + more;
    if !Sound(first) {
      PieceWrong(first, more, n);
      MisreadMore(Lex(Shown(first) + more, None, n), TokenOf(first), TokensOf(rest));
    } else {
      PieceRead(first, more, n);
      BlankRead(ShownAll(rest) + tail, n);
      CommandWrong(rest, tail, n);
      PutWrong(TokenOf(first), TokensOf(rest), Lex(more, None, n));
    }
  }

  // ---------- plain arguments ----------

  function Fixed(s: string): Piece {
    Argument([Bare(s)], false)
  }

  function Quoted(s: string): Piece {
    Argument([Single(s)], false)
  }

  lemma {:induction false} OneSegment(g: Segment, semi: bool)
    ensures ShownSegments([g]) == ShownSegment(g) && Parts([g]) == SegmentParts(g)
    ensures Shown(Argument([g], semi)) == ShownSegment(g) + (if semi then ";" else "")
    ensures TokenOf(Argument([g], semi)) == [Word(SegmentParts(g))] + (if semi then [Operator(";")] else [])
  {
    assert [g][1..] == [];
    assert ShownSegment(g) + "" == ShownSegment(g) && SegmentParts(g) + [] == SegmentParts(g);
  }

  lemma {:induction false} PlainArguments(s: string)
    ensures Shown(Fixed(s)) == s && TokenOf(Fixed(s)) == [Word(Plain(s))]
    ensures Shown(Quoted(s)) == Shq(s) && TokenOf(Quoted(s)) == [Word(Plain(s))]
  {
    OneSegment(Bare(s), false);
    OneSegment(Single(s), false);
    assert s + "" == s && Shq(s) + "" == Shq(s);
  }

  function Words(ss: seq<string>): seq<Token> {
    seq(|ss|, i requires 0 <= i < |ss| => Word(Plain(ss[i])))
  }

  function AllQuoted(ss: seq<string>): seq<string> {
    seq(|ss|, i requires 0 <= i < |ss| => Shq(ss[i]))
  }

  predicate IsBareWord(s: string) {
    s != "" && forall c | c in s :: IsBare(c)
  }

  // ---------- commands as lists of strings ----------

  ghost predicate Prints(ps: seq<Piece>, ss: seq<string>) {
    |ps| == |ss| && (forall i | 0 <= i < |ps| :: Shown(ps[i]) == ss[i]) && forall p | p in ps :: Formed(p)
  }

  ghost predicate AllSound(ps: seq<Piece>) {
    forall p | p in ps :: Sound(p)
  }

  // These strings, with a blank between any two, are a command meant as these tokens; it is inert or not: every
  // character of its double-quoted texts stands for itself, or not.
  ghost predicate Means(ss: seq<string>, ts: seq<Token>, inert: bool) {
    exists ps :: Prints(ps, ss) && TokensOf(ps) == ts && (AllSound(ps) <==> inert)
  }

  lemma {:induction false} ShownJoined(ps: seq<Piece>, ss: seq<string>)
    requires Prints(ps, ss)
    ensures ShownAll(ps) == Joined(ss)
    decreases ps
  {
    if |ps| <= 1 {
    } else {
      ShownJoined(ps[1..], ss[1..]);
    }
  }

  // However much of it is read, the tokens are not these.
  ghost predicate NeverRead(s: string, ts: seq<Token>) {
    Misread(Lex(s, None, false), ts)
  }

  /** A command is read as it was meant if and only if every character of its double-quoted texts stands for
      itself; otherwise what is read differs by the time the reading ends, or stops. */
  lemma {:induction false} JoinedReadExactly(ss: seq<string>, ts: seq<Token>, inert: bool)
    requires Means(ss, ts, inert)
    ensures Tokens(Joined(ss)) == Some(ts) <==> inert
    ensures !inert ==> NeverRead(Joined(ss), ts)
  {
    var ps :| Prints(ps, ss) && TokensOf(ps) == ts && (AllSound(ps) <==> inert);
    ShownJoined(ps, ss);
    assert Joined(ss) + "" == Joined(ss);
    if inert {
      CommandRead(ps, "", false);
      assert ts + [] == ts;
    } else {
      CommandWrong(ps, "", false);
      assert ts <= ts;
    }
  }

  lemma {:induction false} TokensJoin(ps: seq<Piece>, qs: seq<Piece>)
    ensures TokensOf(ps + qs) == TokensOf(ps) + TokensOf(qs)
    decreases |ps|
  {
    if ps == [] {
      assert ps + qs == qs;
    } else {
      TokensJoin(ps[1..], qs);
      assert (ps + qs)[0] == ps[0] && (ps + qs)[1..] == ps[1..] + qs;
      Grouped(TokenOf(ps[0]), TokensOf(ps[1..]), TokensOf(qs));
    }
  }

  lemma {:induction false} MeansJoin(
    ss: seq<string>, ts: seq<Token>, inert: bool, more: seq<string>, next: seq<Token>, also: bool)
    requires Means(ss, ts, inert) && Means(more, next, also)
    ensures Means(ss + more, ts + next, inert && also)
  {
    var ps :| Prints(ps, ss) && TokensOf(ps) == ts && (AllSound(ps) <==> inert);
    var qs :| Prints(qs, more) && TokensOf(qs) == next && (AllSound(qs) <==> also);
    TokensJoin(ps, qs);
    SoundJoin(ps, qs);
    PrintsJoin(ps, ss, qs, more);
  }

  lemma {:induction false} PrintsJoin(ps: seq<Piece>, ss: seq<string>, qs: seq<Piece>, more: seq<string>)
    requires Prints(ps, ss) && Prints(qs, more)
    ensures Prints(ps + qs, ss + more)
  {
  }

  lemma {:induction false} SoundJoin(ps: seq<Piece>, qs: seq<Piece>)
    ensures AllSound(ps + qs) <==> AllSound(ps) && AllSound(qs)
  {
    if AllSound(ps + qs) {
      forall p | p in ps || p in qs ensures p in ps + qs {
      }
    }
  }

  lemma {:induction false} MeansPiece(p: Piece)
    requires Formed(p)
    ensures Means([Shown(p)], TokenOf(p), Sound(p))
  {
    assert [p][1..] == [] && TokenOf(p) + [] == TokenOf(p);
    assert TokensOf([p]) == TokenOf(p);
    assert p in [p];
    assert Prints([p], [Shown(p)]) && (AllSound([p]) <==> Sound(p));
  }

  lemma {:induction false} MeansNothing()
    ensures Means([], [], true)
  {
    assert Prints([], []) && TokensOf([]) == [] && AllSound([]);
  }

  lemma {:induction false} MeansOperator(s: string)
    requires IsOperator(s)
    ensures Means([s], [Operator(s)], true)
  {
    MeansPiece(Op(s));
  }

  lemma {:induction false} MeansBare(ss: seq<string>)
    requires forall s | s in ss :: IsBareWord(s)
    ensures Means(ss, Words(ss), true)
    decreases |ss|
  {
    if ss == [] {
      MeansNothing();
    } else {
      assert ss[0] in ss;
      PlainArguments(ss[0]);
      MeansPiece(Fixed(ss[0]));
      assert Sound(Fixed(ss[0]));
      forall s | s in ss[1..] ensures s in ss {
      }
      MeansBare(ss[1..]);
      MeansJoin([ss[0]], [Word(Plain(ss[0]))], true, ss[1..], Words(ss[1..]), true);
      assert [ss[0]] + ss[1..] == ss;
      assert [Word(Plain(ss[0]))] + Words(ss[1..]) == Words(ss);
    }
  }

  lemma {:induction false} MeansQuoted(ss: seq<string>)
    ensures Means(AllQuoted(ss), Words(ss), true)
    decreases |ss|
  {
    if ss == [] {
      MeansNothing();
    } else {
      PlainArguments(ss[0]);
      MeansPiece(Quoted(ss[0]));
      assert Sound(Quoted(ss[0]));
      MeansQuoted(ss[1..]);
      MeansJoin([Shq(ss[0])], [Word(Plain(ss[0]))], true, AllQuoted(ss[1..]), Words(ss[1..]), true);
      assert [Shq(ss[0])] + AllQuoted(ss[1..]) == AllQuoted(ss);
      assert [Word(Plain(ss[0]))] + Words(ss[1..]) == Words(ss);
    }
  }

  lemma {:induction false} ThenMeans(
    ss: seq<string>, ts: seq<Token>, inert: bool, op: string, more: seq<string>, next: seq<Token>, also: bool)
    requires Means(ss, ts, inert) && IsOperator(op) && Means(more, next, also)
    ensures Means(ss + ([op] + more), ts + ([Operator(op)] + next), inert && also)
  {
    MeansOperator(op);
    MeansJoin([op], [Operator(op)], true, more, next, also);
    MeansJoin(ss, ts, inert, [op] + more, [Operator(op)] + next, also);
  }
}
