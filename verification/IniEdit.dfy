/** What the command that writes a setting into a file of key=value lines leaves there: grep and sed on basic
    regular expressions of characters, dots and stars, and one substitution. */
module IniEdit {
  import opened Text
  import opened Wrappers

  // ---------- patterns ----------

  // One character, or any, and as often as it goes with a star.
  datatype Atom = Atom(c: Option<char>, star: bool)

  function DropStars(s: string): (r: string)
    ensures |r| <= |s|
  {
    if s != "" && s[0] == '*' then DropStars(s[1..]) else s
  }

  // A star with nothing before it stands for itself; backslashes, brackets and line breaks are left out.
  function Atoms(s: string): Option<seq<Atom>>
    decreases |s|
  {
    if s == "" then Some([])
    else if s[0] == '\\' || s[0] == '[' || s[0] == '\n' then None
    else
      match Atoms(DropStars(s[1..]))
      case None => None
      case Some(more) =>
        Some([Atom(if s[0] == '.' then None else Some(s[0]), StartsWith(s[1..], "*"))] + more)
  }

  predicate Fits(a: Atom, c: char) {
    a.c == None || a.c == Some(c)
  }

  // The line starts with a text of the pattern.
  predicate Matches(atoms: seq<Atom>, line: string)
    decreases |atoms| + |line|
  {
    if atoms == [] then true
    else if atoms[0].star then
      Matches(atoms[1..], line) || (line != "" && Fits(atoms[0], line[0]) && Matches(atoms, line[1..]))
    else line != "" && Fits(atoms[0], line[0]) && Matches(atoms[1..], line[1..])
  }

  // A pattern for the start of a line.
  function Anchored(pattern: string): Option<seq<Atom>> {
    if StartsWith(pattern, "^") && pattern[|pattern| - 1] != '$' then Atoms(pattern[1..]) else None
  }

  // A pattern for a whole line: its end is whatever follows.
  function WholeLine(pattern: string): Option<seq<Atom>> {
    if |pattern| >= 2 && pattern[|pattern| - 2..] == ".*" then Anchored(pattern[..|pattern| - 2]) else None
  }

  // ---------- substitutions ----------

  // A character, or the text that matched.
  datatype Part = Chr(c: char) | Matched

  datatype Replacement = Closed(parts: seq<Part>, after: string) | Bad | Unknown

  function Before(part: Part, r: Replacement): Replacement {
    if r.Closed? then Closed([part] + r.parts, r.after) else r
  }

  // Up to the delimiter. There are no groups to refer to, and a line break needs a backslash.
  function ReadReplacement(s: string): Replacement
    decreases |s|
  {
    if s == "" || s[0] == '\n' then Bad
    else if s[0] == '|' then Closed([], s[1..])
    else if s[0] == '&' then Before(Matched, ReadReplacement(s[1..]))
    else if s[0] == '\\' then
      if |s| < 2 then Bad
      else if s[1] == '&' || s[1] == '\\' || s[1] == '|' then Before(Chr(s[1]), ReadReplacement(s[2..]))
      else if '1' <= s[1] <= '9' then Bad
      else Unknown
    else Before(Chr(s[0]), ReadReplacement(s[1..]))
  }

  datatype Script = Substitute(pattern: string, parts: seq<Part>) | Refused | Other

  // Behind flags or none stands what is neither a flag nor the end of the command.
  predicate NoFlags(s: string) {
    s != "" && if s[0] in "gpiIM0123456789m" then NoFlags(s[1..]) else s[0] !in "we;#} \t\r\n"
  }

  function ReadScript(script: string): Script {
    if !StartsWith(script, "s|") then Other
    else
      match Find(script[2..], "|")
      case None => Refused
      case Some(i) =>
        var pattern := script[2..][..i];
        if '\\' in pattern || '[' in pattern then Other
        else
          match ReadReplacement(script[2..][i + 1..])
          case Bad => Refused
          case Unknown => Other
          case Closed(parts, after) =>
            if after == "" then Substitute(pattern, parts) else if NoFlags(after) then Refused else Other
  }

  function Expand(parts: seq<Part>, text: string): string {
    if parts == [] then ""
    else (match parts[0] case Chr(c) => [c] case Matched => text) + Expand(parts[1..], text)
  }

  // ---------- the command ----------

  // Lines, and what stands behind the last line break.
  datatype File = File(lines: seq<string>, rest: string)

  predicate Finds(atoms: seq<Atom>, f: File) {
    (exists l | l in f.lines :: Matches(atoms, l)) || (f.rest != "" && Matches(atoms, f.rest))
  }

  function Appended(f: File, text: string): File {
    File(f.lines + [f.rest + text], "")
  }

  function EditedLine(atoms: seq<Atom>, parts: seq<Part>, line: string): string {
    if Matches(atoms, line) then Expand(parts, line) else line
  }

  function Edited(atoms: seq<Atom>, parts: seq<Part>, f: File): File {
    File(seq(|f.lines|, i requires 0 <= i < |f.lines| => EditedLine(atoms, parts, f.lines[i])),
         if f.rest == "" then "" else EditedLine(atoms, parts, f.rest))
  }

  // grep -q pattern && sed -i script || printf '%s\n' text, on one file; None for what is not modelled.
  function Run(pattern: string, script: string, text: string, f: File): Option<File> {
    match Anchored(pattern)
    case None => None
    case Some(atoms) =>
      if !Finds(atoms, f) then Some(Appended(f, text))
      else
        match ReadScript(script)
        case Other => None
        case Refused => Some(Appended(f, text))
        case Substitute(p, parts) =>
          match WholeLine(p)
          case None => None
          case Some(whole) => Some(Edited(whole, parts, f))
  }

  function Setting(key: string, value: string): string {
    key + ("=" + value)
  }

  function KeyPattern(key: string): string {
    "^" + (key + "=")
  }

  function KeyScript(key: string, value: string): string {
    "s|" + ("^" + (key + ("=.*|" + (Setting(key, value) + "|"))))
  }

  // What becomes of the file.
  function Written(key: string, value: string, f: File): Option<File> {
    Run(KeyPattern(key), KeyScript(key, value), Setting(key, value), f)
  }

  // ---------- what is wanted ----------

  predicate IsFor(key: string, line: string) {
    StartsWith(line, key + "=")
  }

  predicate Has(key: string, f: File) {
    (exists l | l in f.lines :: IsFor(key, l)) || (f.rest != "" && IsFor(key, f.rest))
  }

  function SetLine(key: string, value: string, line: string): string {
    if IsFor(key, line) then Setting(key, value) else line
  }

  // The line of the key is replaced, or added as a line of its own where there is none.
  function Wanted(key: string, value: string, f: File): File {
    if Has(key, f) then
      File(seq(|f.lines|, i requires 0 <= i < |f.lines| => SetLine(key, value, f.lines[i])),
           if f.rest == "" then "" else SetLine(key, value, f.rest))
    else File(f.lines + (if f.rest == "" then [] else [f.rest]) + [Setting(key, value)], "")
  }

  // ---------- patterns that stand for themselves ----------

  // No dot, and no star but in front.
  predicate Literal(s: string) {
    '.' !in s && (s != "" ==> '*' !in s[1..])
  }

  lemma {:induction false} AtomsKnown(s: string)
    requires Atoms(s).Some?
    ensures '\\' !in s && '[' !in s && '\n' !in s
    decreases |s|
  {
    if s == "" {
    } else {
      var t := DropStars(s[1..]);
      AtomsKnown(t);
      StarsDropped(s[1..]);
      assert s == [s[0]] + s[1..];
    }
  }

  lemma {:induction false} StarsDropped(s: string)
    ensures forall c | c in s :: c == '*' || c in DropStars(s)
    ensures !StartsWith(s, "*") ==> DropStars(s) == s
    ensures StartsWith(s, "*") ==> |DropStars(s)| < |s|
  {
    if s != "" && s[0] == '*' {
      StarsDropped(s[1..]);
      assert s == ['*'] + s[1..];
    }
  }

  lemma {:induction false} LiteralRest(s: string)
    requires s != ""
    ensures Literal(s) <==> s[0] != '.' && '.' !in s[1..] && '*' !in s[1..]
    ensures '.' !in s[1..] && '*' !in s[1..] ==> Literal(s[1..])
    ensures !StartsWith(s[1..], "*") && Literal(s[1..]) ==> '*' !in s[1..]
  {
    var t := s[1..];
    assert s == [s[0]] + t;
    if t != "" {
      assert t == [t[0]] + t[1..];
      assert t[..1] == [t[0]];
    }
  }

  lemma {:induction false} LiteralMatches(s: string, line: string)
    requires Literal(s) && Atoms(s).Some?
    ensures Matches(Atoms(s).value, line) <==> StartsWith(line, s)
    decreases |s|
  {
    if s == "" {
      assert line[..0] == "";
    } else {
      var t := s[1..];
      LiteralRest(s);
      assert t != "" ==> t[0] in t && t[..1] == [t[0]];
      StarsDropped(t);
      assert Atoms(s).value[1..] == Atoms(t).value;
      if line != "" {
        LiteralMatches(t, line[1..]);
        PrefixRest(line, s);
      }
    }
  }

  lemma {:induction false} PrefixRest(line: string, s: string)
    requires line != "" && s != ""
    ensures StartsWith(line, s) <==> line[0] == s[0] && StartsWith(line[1..], s[1..])
  {
    if |s| <= |line| {
      assert line[..|s|] == [line[0]] + line[1..][..|s| - 1];
      assert s == [s[0]] + s[1..];
    }
  }

  // A shortest text of the pattern, with no dot for a dot.
  function Least(atoms: seq<Atom>): string {
    if atoms == [] then ""
    else (if atoms[0].star then "" else [GetOr(atoms[0].c, 'x')]) + Least(atoms[1..])
  }

  lemma {:induction false} LeastMatches(atoms: seq<Atom>)
    ensures Matches(atoms, Least(atoms))
    decreases |atoms|
  {
    if atoms == [] {
    } else {
      LeastMatches(atoms[1..]);
      var least := Least(atoms);
      if atoms[0].star {
        assert least == Least(atoms[1..]);
      } else {
        assert least[1..] == Least(atoms[1..]);
      }
    }
  }

  lemma {:induction false} LeastExactly(s: string)
    requires Atoms(s).Some?
    ensures var least := Least(Atoms(s).value); |least| <= |s| && (least == s <==> Literal(s))
    decreases |s|
  {
    if s == "" {
    } else {
      var t, more := s[1..], DropStars(s[1..]);
      var atoms := Atoms(s).value;
      LeastExactly(more);
      StarsDropped(t);
      LiteralRest(s);
      assert atoms[1..] == Atoms(more).value;
      if StartsWith(t, "*") {
        assert t[0] == '*' && '*' in t;
        assert Least(atoms) == Least(atoms[1..]);
      } else {
        assert Least(atoms) == [GetOr(atoms[0].c, 'x')] + Least(atoms[1..]);
        assert s == [s[0]] + t;
      }
    }
  }

  // ---------- replacements that stand for themselves ----------

  predicate PlainText(s: string) {
    '&' !in s && '\\' !in s && '|' !in s && '\n' !in s
  }

  function Chars(s: string): seq<Part> {
    seq(|s|, i requires 0 <= i < |s| => Chr(s[i]))
  }

  lemma {:induction false} CharsExpand(s: string, text: string)
    ensures Expand(Chars(s), text) == s
    decreases |s|
  {
    if s == "" {
    } else {
      CharsExpand(s[1..], text);
      assert Chars(s)[1..] == Chars(s[1..]);
      assert s == [s[0]] + s[1..];
    }
  }

  lemma {:induction false} PlainRead(s: string)
    requires PlainText(s)
    ensures ReadReplacement(s + "|") == Closed(Chars(s), "")
    decreases |s|
  {
    if s == "" {
    } else {
      assert s == [s[0]] + s[1..] && s[0] in s;
      assert (s + "|")[1..] == s[1..] + "|";
      PlainRead(s[1..]);
      assert Chars(s) == [Chr(s[0])] + Chars(s[1..]);
    }
  }

  lemma {:induction false} ReplacementSize(s: string)
    requires ReadReplacement(s).Closed?
    ensures var r := ReadReplacement(s); |r.parts| + 1 + |r.after| <= |s|
    decreases |s|
  {
    if s[0] == '|' {
    } else if s[0] == '\\' {
      ReplacementSize(s[2..]);
    } else {
      ReplacementSize(s[1..]);
    }
  }

  lemma {:induction false} ClosedExactly(s: string)
    requires ReadReplacement(s + "|").Closed? && ReadReplacement(s + "|").after == ""
    ensures var parts := ReadReplacement(s + "|").parts; PlainText(s) || Matched in parts || |parts| < |s|
    decreases |s|
  {
    var all := s + "|";
    if s == "" {
    } else {
      assert s == [s[0]] + s[1..];
      assert all[1..] == s[1..] + "|";
      if s[0] == '\\' {
        ReplacementSize(all[2..]);
        assert |s| == 1 ==> all[2..] == "";
      } else if s[0] != '|' {
        ClosedExactly(s[1..]);
      }
    }
  }

  lemma {:induction false} ExpandedSize(parts: seq<Part>, text: string)
    ensures Matched in parts ==> |Expand(parts, text)| >= |text|
    ensures Matched !in parts ==> |Expand(parts, text)| == |parts|
    decreases |parts|
  {
    if parts == [] {
    } else {
      assert parts == [parts[0]] + parts[1..];
      ExpandedSize(parts[1..], text);
    }
  }

  // ---------- the script ----------

  // The delimiter before a text ends the replacement there or earlier.
  lemma {:induction false} ClosedEarly(a: string, b: string)
    requires '\\' !in a
    ensures var r := ReadReplacement(a + ("|" + b)); r.Closed? ==> |r.after| >= |b|
    decreases |a|
  {
    var all := a + ("|" + b);
    if a == "" {
      assert all[1..] == b;
    } else {
      assert a[0] in a && a == [a[0]] + a[1..];
      assert all[1..] == a[1..] + ("|" + b);
      ClosedEarly(a[1..], b);
    }
  }

  lemma {:induction false} ScriptRead(key: string, value: string)
    requires Atoms(key + "=").Some?
    ensures var script := ReadScript(KeyScript(key, value));
            if '|' in key then !script.Substitute?
            else
              match ReadReplacement(Setting(key, value) + "|")
              case Bad => script == Refused
              case Unknown => script == Other
              case Closed(parts, after) =>
                if after == "" then script == Substitute("^" + (key + "=.*"), parts)
                else script == if NoFlags(after) then Refused else Other
  {
    var text, pattern := Setting(key, value) + "|", "^" + (key + "=.*");
    AtomsKnown(key + "=");
    if '|' in key {
      BarInKey(key, text, "^" + (key + ("=.*|" + text)));
    } else {
      assert "^" + (key + ("=.*|" + text)) == pattern + ("|" + text);
      PatternThenText(pattern, text);
    }
  }

  lemma {:induction false} PatternThenText(pattern: string, text: string)
    requires '|' !in pattern && '\\' !in pattern && '[' !in pattern
    ensures ReadScript("s|" + (pattern + ("|" + text)))
            == match ReadReplacement(text)
               case Bad => Refused
               case Unknown => Other
               case Closed(parts, after) =>
                 if after == "" then Substitute(pattern, parts) else if NoFlags(after) then Refused else Other
  {
    var tail := pattern + ("|" + text);
    var script := "s|" + tail;
    assert script[..2] == "s|" && script[2..] == tail;
    FindFirst(pattern, '|', text);
    assert tail[..|pattern|] == pattern && tail[|pattern| + 1..] == text;
  }

  lemma {:induction false} BarInKey(key: string, text: string, tail: string)
    requires '|' in key && '\\' !in key && text != "" && tail == "^" + (key + ("=.*|" + text))
    ensures !ReadScript("s|" + tail).Substitute?
  {
    var i := FirstBar(key);
    var before, more := "^" + key[..i], key[i + 1..] + "=.*";
    assert key == key[..i] + ("|" + key[i + 1..]);
    assert tail == before + ("|" + (more + ("|" + text)));
    BarInPattern(before, more, text);
  }

  lemma {:induction false} BarInPattern(before: string, more: string, text: string)
    requires '|' !in before && '\\' !in more && text != ""
    ensures !ReadScript("s|" + (before + ("|" + (more + ("|" + text))))).Substitute?
  {
    var tail := before + ("|" + (more + ("|" + text)));
    var script := "s|" + tail;
    assert script[..2] == "s|" && script[2..] == tail;
    FindFirst(before, '|', more + ("|" + text));
    assert tail[|before| + 1..] == more + ("|" + text);
    ClosedEarly(more, text);
  }

  lemma {:induction false} FirstBar(s: string) returns (i: nat)
    requires '|' in s
    ensures i < |s| && s[i] == '|' && '|' !in s[..i]
    decreases |s|
  {
    if s[0] == '|' {
      i := 0;
    } else {
      assert s == [s[0]] + s[1..];
      var k := FirstBar(s[1..]);
      i := k + 1;
      assert s[..i] == [s[0]] + s[1..][..k];
    }
  }

  // ---------- where it works ----------

  // What is modelled: a key without backslashes, brackets and line breaks, a value of one line, and no sed
  // command but a substitution, or something sed refuses.
  predicate Known(key: string, value: string) {
    Atoms(key + "=").Some? && ReadScript(KeyScript(key, value)) != Other && '\n' !in value
  }

  // No character of key or value means anything to grep or sed.
  predicate Plain(key: string, value: string) {
    Literal(key + "=") && PlainText(Setting(key, value))
  }

  predicate Right(key: string, value: string, f: File) {
    Written(key, value, f) == Some(Wanted(key, value, f))
  }

  lemma {:induction false} PatternRead(key: string)
    ensures Anchored(KeyPattern(key)) == Atoms(key + "=")
    ensures WholeLine("^" + (key + "=.*")) == Atoms(key + "=")
  {
    var pattern, whole := KeyPattern(key), "^" + (key + "=.*");
    assert pattern[..1] == "^" && pattern[1..] == key + "=" && pattern[|pattern| - 1] == '=';
    assert whole == pattern + ".*" && whole[|whole| - 2..] == ".*" && whole[..|whole| - 2] == pattern;
  }

  lemma {:induction false} WrittenAs(key: string, value: string, f: File)
    requires Known(key, value)
    ensures var atoms, script := Atoms(key + "=").value, ReadScript(KeyScript(key, value));
            Written(key, value, f)
            == Some(if Finds(atoms, f) && script.Substitute? then Edited(atoms, script.parts, f)
                    else Appended(f, Setting(key, value)))
  {
    PatternRead(key);
    ScriptRead(key, value);
  }

  lemma {:induction false} PlainScript(key: string, value: string)
    requires Known(key, value) && Plain(key, value)
    ensures ReadScript(KeyScript(key, value)) == Substitute("^" + (key + "=.*"), Chars(Setting(key, value)))
  {
    ScriptRead(key, value);
    PlainRead(Setting(key, value));
    assert forall c | c in key :: c in Setting(key, value);
  }

  lemma {:induction false} FindsKey(key: string, f: File)
    requires Literal(key + "=") && Atoms(key + "=").Some?
    ensures Finds(Atoms(key + "=").value, f) <==> Has(key, f)
    ensures forall l :: Matches(Atoms(key + "=").value, l) <==> IsFor(key, l)
  {
    forall l ensures Matches(Atoms(key + "=").value, l) <==> IsFor(key, l) {
      LiteralMatches(key + "=", l);
    }
  }

  /** For a plain key and value the file is left as wanted if and only if it has the key or ends with a line
      break: otherwise the setting is glued to the last line. */
  lemma {:induction false} SetOnFileExactly(key: string, value: string, f: File)
    requires Known(key, value) && Plain(key, value)
    ensures Right(key, value, f) <==> f.rest == "" || Has(key, f)
  {
    var kv, atoms := Setting(key, value), Atoms(key + "=").value;
    WrittenAs(key, value, f);
    PlainScript(key, value);
    FindsKey(key, f);
    if Has(key, f) {
      forall l ensures EditedLine(atoms, Chars(kv), l) == SetLine(key, value, l) {
        CharsExpand(kv, l);
      }
      assert Edited(atoms, Chars(kv), f).lines == Wanted(key, value, f).lines;
    } else if f.rest == "" {
      assert "" + kv == kv && f.lines + [] == f.lines;
    } else {
      assert |Appended(f, kv).lines| != |Wanted(key, value, f).lines|;
    }
  }

  lemma {:induction false} RefusedIsWrong(key: string, value: string)
    requires Known(key, value) && ReadScript(KeyScript(key, value)) == Refused
    ensures !Right(key, value, File([key + "="], ""))
  {
    var f := File([key + "="], "");
    WrittenAs(key, value, f);
    var line := key + "=";
    assert line[..|key| + 1] == line && IsFor(key, line) && line in f.lines && Has(key, f);
    assert |Appended(f, Setting(key, value)).lines| == 2 && |Wanted(key, value, f).lines| == 1;
  }

  lemma {:induction false} PatternIsWrong(key: string, value: string)
    requires Known(key, value) && ReadScript(KeyScript(key, value)).Substitute? && !Literal(key + "=")
    ensures !Right(key, value, File([Least(Atoms(key + "=").value)], ""))
  {
    var atoms := Atoms(key + "=").value;
    var least := Least(atoms);
    var f := File([least], "");
    WrittenAs(key, value, f);
    LeastMatches(atoms);
    LeastIsOther(key);
    assert least in f.lines && Finds(atoms, f);
    assert !Has(key, f);
    assert |Edited(atoms, ReadScript(KeyScript(key, value)).parts, f).lines| == 1;
    assert |Wanted(key, value, f).lines| == 2;
  }

  lemma {:induction false} LeastIsOther(key: string)
    requires Atoms(key + "=").Some? && !Literal(key + "=")
    ensures !IsFor(key, Least(Atoms(key + "=").value))
  {
    var s, least := key + "=", Least(Atoms(key + "=").value);
    LeastExactly(s);
    assert |least| == |s| ==> least[..|s|] == least;
  }

  lemma {:induction false} ReplacementIsWrong(key: string, value: string)
    requires Known(key, value) && ReadScript(KeyScript(key, value)).Substitute? && Literal(key + "=")
    requires !PlainText(Setting(key, value))
    ensures !Right(key, value, File([key + "=" + Setting(key, value)], ""))
  {
    var kv, atoms := Setting(key, value), Atoms(key + "=").value;
    var line := key + "=" + kv;
    var f, parts := File([line], ""), ReadScript(KeyScript(key, value)).parts;
    WrittenAs(key, value, f);
    ScriptRead(key, value);
    FindsKey(key, f);
    assert line[..|key| + 1] == key + "=" && IsFor(key, line) && line in f.lines;
    ClosedExactly(kv);
    ExpandedSize(parts, line);
    assert Edited(atoms, parts, f).lines[0] == Expand(parts, line);
    assert Wanted(key, value, f).lines[0] == kv;
  }

  /** Every file that ends with a line break is left as wanted if and only if no character of key and value means
      anything to grep and sed: no dot and no star (but in front) in the key, no ampersand, backslash or bar in
      either. */
  lemma {:induction false} SetExactly(key: string, value: string)
    requires Known(key, value)
    ensures (forall f: File | f.rest == "" :: Right(key, value, f)) <==> Plain(key, value)
  {
    if Plain(key, value) {
      forall f: File | f.rest == "" ensures Right(key, value, f) {
        SetOnFileExactly(key, value, f);
      }
    } else if ReadScript(KeyScript(key, value)) == Refused {
      RefusedIsWrong(key, value);
      assert File([key + "="], "").rest == "";
    } else if !Literal(key + "=") {
      PatternIsWrong(key, value);
      assert File([Least(Atoms(key + "=").value)], "").rest == "";
    } else {
      ReplacementIsWrong(key, value);
      assert File([key + "=" + Setting(key, value)], "").rest == "";
    }
  }

  // ---------- what the wanted file holds ----------

  function Count(key: string, lines: seq<string>): nat {
    if lines == [] then 0 else (if IsFor(key, lines[0]) then 1 else 0) + Count(key, lines[1..])
  }

  function AllLines(f: File): seq<string> {
    f.lines + (if f.rest == "" then [] else [f.rest])
  }

  lemma {:induction false} SettingIsFor(key: string, value: string)
    ensures IsFor(key, Setting(key, value))
  {
    assert Setting(key, value) == (key + "=") + value;
  }

  lemma {:induction false} CountSet(key: string, value: string, lines: seq<string>, after: seq<string>)
    requires |after| == |lines| && forall i | 0 <= i < |lines| :: after[i] == SetLine(key, value, lines[i])
    ensures Count(key, after) == Count(key, lines)
    decreases |lines|
  {
    if lines == [] {
    } else {
      SettingIsFor(key, value);
      CountSet(key, value, lines[1..], after[1..]);
    }
  }

  lemma {:induction false} CountNone(key: string, lines: seq<string>, more: seq<string>)
    requires forall l | l in lines :: !IsFor(key, l)
    ensures Count(key, lines + more) == Count(key, more)
    decreases |lines|
  {
    if lines == [] {
      assert lines + more == more;
    } else {
      assert lines[0] in lines;
      assert (lines + more)[1..] == lines[1..] + more;
      CountNone(key, lines[1..], more);
    }
  }

  lemma {:induction false} WantedCount(key: string, value: string, f: File)
    ensures Count(key, AllLines(Wanted(key, value, f))) == if Has(key, f) then Count(key, AllLines(f)) else 1
  {
    var g, kv := Wanted(key, value, f), Setting(key, value);
    SettingIsFor(key, value);
    if Has(key, f) {
      assert f.rest != "" ==> SetLine(key, value, f.rest) != "";
      CountSet(key, value, AllLines(f), AllLines(g));
    } else {
      assert AllLines(g) == AllLines(f) + [kv];
      CountNone(key, AllLines(f), [kv]);
      assert [kv][1..] == [];
    }
  }

  lemma {:induction false} HasKept(key: string, value: string, f: File)
    ensures Has(key, Wanted(key, value, f))
  {
    var g, kv := Wanted(key, value, f), Setting(key, value);
    SettingIsFor(key, value);
    if Has(key, f) {
      if l :| l in f.lines && IsFor(key, l) {
        var i :| 0 <= i < |f.lines| && f.lines[i] == l;
        assert g.lines[i] == kv && kv in g.lines;
      }
    } else {
      assert kv in g.lines;
    }
  }

  lemma {:induction false} WantedTwice(key: string, value: string, f: File)
    ensures Wanted(key, value, Wanted(key, value, f)) == Wanted(key, value, f)
  {
    var g := Wanted(key, value, f);
    HasKept(key, value, f);
    forall l | l in g.lines ensures SetLine(key, value, l) == l || !Has(key, f) {
      if Has(key, f) {
        var i :| 0 <= i < |f.lines| && g.lines[i] == l;
        assert l == SetLine(key, value, f.lines[i]);
      }
    }
    if Has(key, f) {
      assert Wanted(key, value, g).lines == g.lines;
    } else {
      forall i | 0 <= i < |g.lines| ensures SetLine(key, value, g.lines[i]) == g.lines[i] {
        assert i < |f.lines| ==> g.lines[i] == f.lines[i] && f.lines[i] in f.lines;
      }
      assert Wanted(key, value, g).lines == g.lines;
    }
  }

  /** Afterwards the file has the key: as many lines of it as before, or one where there was none, and each is the
      new setting; every other line stands where it stood; and writing the setting again changes nothing. */
  lemma {:induction false} WantedHolds(key: string, value: string, f: File)
    ensures var g := Wanted(key, value, f);
            && Has(key, g) && Wanted(key, value, g) == g
            && Count(key, AllLines(g)) == (if Has(key, f) then Count(key, AllLines(f)) else 1)
            && (forall l | l in AllLines(g) && IsFor(key, l) :: l == Setting(key, value))
            && |AllLines(f)| <= |AllLines(g)|
            && forall i | 0 <= i < |AllLines(f)| && !IsFor(key, AllLines(f)[i]) :: AllLines(g)[i] == AllLines(f)[i]
  {
    HasKept(key, value, f);
    WantedTwice(key, value, f);
    WantedCount(key, value, f);
    SettingIsFor(key, value);
  }
}
