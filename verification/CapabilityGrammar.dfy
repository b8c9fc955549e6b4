/** The capability grammar and its chain: whatever the grammar lets the model say is read back slot by
    slot, checked by the validator and turned into a command. */
module CapabilityGrammar {
  import opened CapabilityCall
  import opened CapabilityReadBack
  import opened Gbnf
  import opened Text
  import opened Wrappers

  // ---------- the grammar ----------

  predicate SafePath(p: string) {
    p != "" && forall c | c in p :: IsAlnum(c) || c in "/._- "
  }

  // The observed paths that can stand in a grammar literal.
  function SafePaths(observed: seq<string>): (r: seq<string>)
    ensures forall p :: p in r <==> p in observed && SafePath(p)
  {
    if observed == [] then []
    else if SafePath(observed[0]) then [observed[0]] + SafePaths(observed[1..])
    else SafePaths(observed[1..])
  }

  datatype Key =
    | PathKey | SourceDir | SourceFile | DestKey | DestFile
    | Selector | NewName | Recursive | Content | Filter | ModeKey | Pattern

  function KeyName(k: Key): string {
    match k
    case PathKey => "path"
    case SourceDir => "source_dir"
    case SourceFile => "source"
    case DestKey => "dest"
    case DestFile => "dest_file"
    case Selector => "selector"
    case NewName => "new_name"
    case Recursive => "recursive"
    case Content => "content"
    case Filter => "filter"
    case ModeKey => "mode"
    case Pattern => "pattern"
  }

  lemma {:induction false} KeysNamed(k: Key)
    ensures IsName(KeyName(k))
  {
  }

  lemma {:induction false} KeysDiffer(k: Key, l: Key)
    ensures KeyName(k) == KeyName(l) <==> k == l
  {
    if k != l && |KeyName(k)| == |KeyName(l)| {
      assert KeyName(k)[0] != KeyName(l)[0];
    }
  }

  datatype Form = Source | Dest | Free | OneOfWords(choices: seq<string>, quoted: bool)

  datatype Slot = Slot(key: Key, form: Form, optional: bool)

  datatype Shape = Move | Copy | Rename | MakeFolder | WriteFile | Delete | ExtractValue | ExtractCount | ExtractList

  function Verb(s: Shape): string {
    match s
    case Move => "move"
    case Copy => "copy"
    case Rename => "rename"
    case MakeFolder => "make_folder"
    case WriteFile => "write_file"
    case Delete => "delete"
    case _ => "extract_to_file"
  }

  function Must(key: Key, form: Form): Slot { Slot(key, form, false) }

  function May(key: Key, form: Form): Slot { Slot(key, form, true) }

  function Mode(name: string): Slot { Must(ModeKey, OneOfWords([name], true)) }

  function SlotsOf(s: Shape): seq<Slot> {
    match s
    case Move => [Must(SourceDir, Source), Must(Selector, Free), Must(DestKey, Dest), May(NewName, Free)]
    case Copy =>
      [Must(SourceDir, Source), Must(Selector, Free), Must(DestKey, Dest),
       May(Recursive, OneOfWords(["true"], false)), May(NewName, Free)]
    case Rename => [Must(PathKey, Source), Must(NewName, Free)]
    case MakeFolder => [Must(PathKey, Dest)]
    case WriteFile => [Must(PathKey, Dest), May(Content, Free)]
    case Delete =>
      [Must(SourceDir, Source), Must(Selector, Free), May(Filter, OneOfWords(["empty", "larger_than_1k"], true))]
    case ExtractValue => [Mode("value"), Must(SourceFile, Source), Must(Pattern, Free), Must(DestFile, Dest)]
    case ExtractCount => [Mode("count"), Must(SourceDir, Source), Must(Selector, Free), Must(DestFile, Dest)]
    case ExtractList => [Mode("list"), Must(SourceDir, Source), Must(Selector, Free), Must(DestFile, Dest)]
  }

  function OneOf(ss: seq<string>): Rule
    requires ss != []
  {
    if |ss| == 1 then Lit(ss[0]) else Alt(Lit(ss[0]), OneOf(ss[1..]))
  }

  const FREE_STRING := Around("\"", Star(FreeText), "\"")

  function Spelled(w: string, quoted: bool): string {
    if quoted then "\"" + (w + "\"") else w
  }

  function Literals(words: seq<string>, quoted: bool): seq<string> {
    seq(|words|, i requires 0 <= i < |words| => Spelled(words[i], quoted))
  }

  const NEW_CHILD := Opt(Cat(Lit("/"), Plus(Segment)))

  function FormRule(form: Form, paths: seq<string>): Rule
    requires form.OneOfWords? ==> form.choices != []
  {
    match form
    case Source => if paths == [] then FREE_STRING else Around("\"", OneOf(paths), "\"")
    case Dest => if paths == [] then FREE_STRING else Around("\"", Cat(OneOf(paths), NEW_CHILD), "\"")
    case Free => FREE_STRING
    case OneOfWords(choices, quoted) => OneOf(Literals(choices, quoted))
  }

  predicate ProperSlot(slot: Slot) {
    slot.form.OneOfWords? ==>
      slot.form.choices != [] && forall w | w in slot.form.choices :: ProperWord(w, slot.form.quoted)
  }

  predicate ProperWord(w: string, quoted: bool) {
    if quoted then '"' !in w else IsName(w)
  }

  function SlotRule(sep: string, slot: Slot, paths: seq<string>): Rule
    requires ProperSlot(slot)
  {
    var body := Cat(Lit(sep + (KeyName(slot.key) + "=")), FormRule(slot.form, paths));
    if slot.optional then Opt(body) else body
  }

  ghost predicate Proper(slots: seq<Slot>) {
    forall slot | slot in slots :: ProperSlot(slot)
  }

  ghost function SlotsRule(sep: string, slots: seq<Slot>, paths: seq<string>): Rule
    requires Proper(slots)
    decreases |slots|
  {
    if slots == [] then Lit(")")
    else
      assert slots[0] in slots;
      Cat(SlotRule(sep, slots[0], paths), SlotsRule(", ", slots[1..], paths))
  }

  const SHAPES := [Move, Copy, Rename, MakeFolder, WriteFile, Delete, ExtractValue, ExtractCount, ExtractList]

  ghost function ShapeRule(shape: Shape, paths: seq<string>): Rule {
    ShapesProper(shape);
    SlotsRule(Verb(shape) + "(", SlotsOf(shape), paths)
  }

  ghost function AnyOf(shapes: seq<Shape>, paths: seq<string>): Rule
    requires shapes != []
  {
    if |shapes| == 1 then ShapeRule(shapes[0], paths)
    else Alt(ShapeRule(shapes[0], paths), AnyOf(shapes[1..], paths))
  }

  ghost function Grammar(observed: seq<string>): Rule {
    Around("[", AnyOf(SHAPES, SafePaths(observed)), "]")
  }

  lemma {:induction false} ShapesProper(shape: Shape)
    ensures Proper(SlotsOf(shape)) && IsName(Verb(shape))
    ensures SlotsOf(shape) != [] && !SlotsOf(shape)[0].optional
  {
  }

  // ---------- derivations ----------

  datatype Filler =
    | Absent
    | Observed(path: string)
    | Child(path: string, seg: string)
    | Text(text: string)
    | Chosen(word: string)

  datatype Derivation = Derivation(shape: Shape, fills: seq<Filler>)

  function Value(f: Filler): string {
    match f
    case Absent => ""
    case Observed(p) => p
    case Child(p, seg) => p + ("/" + seg)
    case Text(t) => t
    case Chosen(w) => w
  }

  predicate IsFree(f: Filler) {
    f.Text? && AllIn(f.text, FreeText)
  }

  predicate FormFits(form: Form, f: Filler, paths: seq<string>) {
    match form
    case Source => if paths == [] then IsFree(f) else f.Observed? && f.path in paths
    case Dest =>
      if paths == [] then IsFree(f)
      else (f.Observed? && f.path in paths) || (f.Child? && f.path in paths && f.seg != "" && AllIn(f.seg, Segment))
    case Free => IsFree(f)
    case OneOfWords(choices, _) => f.Chosen? && f.word in choices
  }

  predicate SlotFits(slot: Slot, f: Filler, paths: seq<string>) {
    (slot.optional && f.Absent?) || FormFits(slot.form, f, paths)
  }

  predicate AllFit(slots: seq<Slot>, fills: seq<Filler>, paths: seq<string>) {
    |slots| == |fills| && forall i | 0 <= i < |slots| :: SlotFits(slots[i], fills[i], paths)
  }

  predicate Fits(d: Derivation, observed: seq<string>) {
    AllFit(SlotsOf(d.shape), d.fills, SafePaths(observed))
  }

  function ArgOf(slot: Slot, f: Filler): Arg {
    Arg(KeyName(slot.key), Value(f), slot.form.OneOfWords? ==> slot.form.quoted)
  }

  function SlotText(sep: string, slot: Slot, f: Filler): string {
    if f.Absent? then "" else sep + Shown(ArgOf(slot, f))
  }

  function SlotsText(sep: string, slots: seq<Slot>, fills: seq<Filler>): string
    requires |slots| == |fills|
    decreases |slots|
  {
    if slots == [] then ")" else SlotText(sep, slots[0], fills[0]) + SlotsText(", ", slots[1..], fills[1..])
  }

  function Print(d: Derivation): string
    requires |d.fills| == |SlotsOf(d.shape)|
  {
    "[" + (SlotsText(Verb(d.shape) + "(", SlotsOf(d.shape), d.fills) + "]")
  }

  // ---------- the language is the printed derivations ----------

  lemma {:induction false} OneOfExactly(ss: seq<string>, s: string)
    requires ss != []
    ensures Derives(OneOf(ss), s) <==> s in ss
    decreases |ss|
  {
    if |ss| == 1 {
    } else {
      OneOfExactly(ss[1..], s);
      assert ss == [ss[0]] + ss[1..];
    }
  }

  lemma {:induction false} LiteralsExactly(words: seq<string>, quoted: bool, s: string)
    ensures s in Literals(words, quoted) <==> exists w :: w in words && s == Spelled(w, quoted)
  {
    if s in Literals(words, quoted) {
      var i :| 0 <= i < |words| && Literals(words, quoted)[i] == s;
      assert words[i] in words;
    }
    forall w | w in words && s == Spelled(w, quoted) ensures s in Literals(words, quoted) {
      var i :| 0 <= i < |words| && words[i] == w;
      assert Literals(words, quoted)[i] == s;
    }
  }

  lemma {:induction false} ChildDerivable(paths: seq<string>, s: string) returns (f: Filler)
    requires paths != [] && Derives(Cat(OneOf(paths), NEW_CHILD), s)
    ensures FormFits(Dest, f, paths) && s == Value(f)
  {
    var p, t := CatElim(OneOf(paths), NEW_CHILD, s);
    OneOfExactly(paths, p);
    if t == "" {
      assert p + t == p;
      f := Observed(p);
    } else {
      var slash, seg := CatElim(Lit("/"), Plus(Segment), t);
      f := Child(p, seg);
    }
  }

  lemma {:induction false} ChildPrintable(paths: seq<string>, f: Filler)
    requires paths != [] && FormFits(Dest, f, paths)
    ensures Derives(Cat(OneOf(paths), NEW_CHILD), Value(f))
  {
    OneOfExactly(paths, f.path);
    if f.Observed? {
      CatIntro(OneOf(paths), NEW_CHILD, f.path, "");
      assert f.path + "" == f.path;
    } else {
      CatIntro(Lit("/"), Plus(Segment), "/", f.seg);
      CatIntro(OneOf(paths), NEW_CHILD, f.path, "/" + f.seg);
    }
  }

  lemma {:induction false} FormDerivable(form: Form, paths: seq<string>, s: string) returns (f: Filler)
    requires (form.OneOfWords? ==> form.choices != []) && Derives(FormRule(form, paths), s)
    ensures FormFits(form, f, paths) && s == Spelled(Value(f), form.OneOfWords? ==> form.quoted)
  {
    if form.OneOfWords? {
      OneOfExactly(Literals(form.choices, form.quoted), s);
      LiteralsExactly(form.choices, form.quoted, s);
      var w :| w in form.choices && s == Spelled(w, form.quoted);
      f := Chosen(w);
    } else if form.Free? || paths == [] {
      var t := AroundElim("\"", Star(FreeText), "\"", s);
      f := Text(t);
    } else if form.Source? {
      var p := AroundElim("\"", OneOf(paths), "\"", s);
      OneOfExactly(paths, p);
      f := Observed(p);
    } else {
      var v := AroundElim("\"", Cat(OneOf(paths), NEW_CHILD), "\"", s);
      f := ChildDerivable(paths, v);
    }
  }

  lemma {:induction false} FormPrintable(form: Form, paths: seq<string>, f: Filler)
    requires (form.OneOfWords? ==> form.choices != []) && FormFits(form, f, paths)
    ensures Derives(FormRule(form, paths), Spelled(Value(f), form.OneOfWords? ==> form.quoted))
  {
    if form.OneOfWords? {
      LiteralsExactly(form.choices, form.quoted, Spelled(f.word, form.quoted));
      OneOfExactly(Literals(form.choices, form.quoted), Spelled(f.word, form.quoted));
    } else if form.Free? || paths == [] {
      AroundIntro("\"", Star(FreeText), "\"", f.text);
    } else if form.Source? {
      OneOfExactly(paths, f.path);
      AroundIntro("\"", OneOf(paths), "\"", f.path);
    } else {
      ChildPrintable(paths, f);
      AroundIntro("\"", Cat(OneOf(paths), NEW_CHILD), "\"", Value(f));
    }
  }

  lemma {:induction false} SlotTextParts(sep: string, slot: Slot, f: Filler)
    requires !f.Absent?
    ensures SlotText(sep, slot, f)
            == (sep + (KeyName(slot.key) + "=")) + Spelled(Value(f), slot.form.OneOfWords? ==> slot.form.quoted)
  {
  }

  lemma {:induction false} NotAbsent(form: Form, f: Filler, paths: seq<string>)
    requires FormFits(form, f, paths)
    ensures !f.Absent?
  {
  }

  lemma {:induction false} SlotDerivable(sep: string, slot: Slot, paths: seq<string>, s: string) returns (f: Filler)
    requires ProperSlot(slot) && Derives(SlotRule(sep, slot, paths), s)
    ensures SlotFits(slot, f, paths) && s == SlotText(sep, slot, f)
  {
    if slot.optional && s == "" {
      f := Absent;
    } else {
      var opening := Lit(sep + (KeyName(slot.key) + "="));
      var a, b := CatElim(opening, FormRule(slot.form, paths), s);
      f := FormDerivable(slot.form, paths, b);
      NotAbsent(slot.form, f, paths);
      SlotTextParts(sep, slot, f);
    }
  }

  lemma {:induction false} SlotPrintable(sep: string, slot: Slot, paths: seq<string>, f: Filler)
    requires ProperSlot(slot) && SlotFits(slot, f, paths)
    ensures Derives(SlotRule(sep, slot, paths), SlotText(sep, slot, f))
  {
    if !f.Absent? {
      FormPrintable(slot.form, paths, f);
      CatIntro(Lit(sep + (KeyName(slot.key) + "=")), FormRule(slot.form, paths), sep + (KeyName(slot.key) + "="),
               Spelled(Value(f), slot.form.OneOfWords? ==> slot.form.quoted));
      SlotTextParts(sep, slot, f);
    }
  }

  lemma {:induction false} SlotsDerivable(sep: string, slots: seq<Slot>, paths: seq<string>, s: string)
    returns (fills: seq<Filler>)
    requires Proper(slots) && Derives(SlotsRule(sep, slots, paths), s)
    ensures AllFit(slots, fills, paths) && s == SlotsText(sep, slots, fills)
    decreases |slots|
  {
    if slots == [] {
      fills := [];
    } else {
      assert slots[0] in slots;
      var a, b := CatElim(SlotRule(sep, slots[0], paths), SlotsRule(", ", slots[1..], paths), s);
      var f := SlotDerivable(sep, slots[0], paths, a);
      var more := SlotsDerivable(", ", slots[1..], paths, b);
      fills := [f] + more;
      assert fills[1..] == more;
    }
  }

  lemma {:induction false} SlotsPrintable(sep: string, slots: seq<Slot>, paths: seq<string>, fills: seq<Filler>)
    requires Proper(slots) && AllFit(slots, fills, paths)
    ensures Derives(SlotsRule(sep, slots, paths), SlotsText(sep, slots, fills))
    decreases |slots|
  {
    if slots == [] {
    } else {
      assert slots[0] in slots;
      SlotPrintable(sep, slots[0], paths, fills[0]);
      SlotsPrintable(", ", slots[1..], paths, fills[1..]);
      CatIntro(SlotRule(sep, slots[0], paths), SlotsRule(", ", slots[1..], paths),
               SlotText(sep, slots[0], fills[0]), SlotsText(", ", slots[1..], fills[1..]));
    }
  }

  lemma {:induction false} AnyOfExactly(shapes: seq<Shape>, paths: seq<string>, s: string)
    requires shapes != []
    ensures Derives(AnyOf(shapes, paths), s) <==> exists shape :: shape in shapes && Derives(ShapeRule(shape, paths), s)
    decreases |shapes|
  {
    if |shapes| == 1 {
    } else {
      AnyOfExactly(shapes[1..], paths, s);
      assert shapes == [shapes[0]] + shapes[1..];
    }
  }

  lemma {:induction false} AllShapes(shape: Shape)
    ensures shape in SHAPES
  {
    assert SHAPES[0] == Move && SHAPES[1] == Copy && SHAPES[2] == Rename && SHAPES[3] == MakeFolder;
    assert SHAPES[4] == WriteFile && SHAPES[5] == Delete && SHAPES[6] == ExtractValue && SHAPES[7] == ExtractCount;
    assert SHAPES[8] == ExtractList;
  }

  lemma {:induction false} Derivable(observed: seq<string>, s: string) returns (d: Derivation)
    requires Derives(Grammar(observed), s)
    ensures Fits(d, observed) && s == Print(d)
  {
    var paths := SafePaths(observed);
    var call := AroundElim("[", AnyOf(SHAPES, paths), "]", s);
    AnyOfExactly(SHAPES, paths, call);
    var shape :| shape in SHAPES && Derives(ShapeRule(shape, paths), call);
    ShapesProper(shape);
    var fills := SlotsDerivable(Verb(shape) + "(", SlotsOf(shape), paths, call);
    d := Derivation(shape, fills);
  }

  lemma {:induction false} Printable(observed: seq<string>, d: Derivation)
    requires Fits(d, observed)
    ensures Derives(Grammar(observed), Print(d))
  {
    var paths := SafePaths(observed);
    ShapesProper(d.shape);
    SlotsPrintable(Verb(d.shape) + "(", SlotsOf(d.shape), paths, d.fills);
    AllShapes(d.shape);
    AnyOfExactly(SHAPES, paths, SlotsText(Verb(d.shape) + "(", SlotsOf(d.shape), d.fills));
    AroundIntro("[", AnyOf(SHAPES, paths), "]", SlotsText(Verb(d.shape) + "(", SlotsOf(d.shape), d.fills));
  }

  /** The grammar's language is exactly the printed derivations over the safe observed paths. */
  lemma {:induction false} LanguageIsDerivations(observed: seq<string>, s: string)
    ensures Derives(Grammar(observed), s) <==> exists d :: Fits(d, observed) && s == Print(d)
  {
    if Derives(Grammar(observed), s) {
      var d := Derivable(observed, s);
    }
    forall d | Fits(d, observed) && s == Print(d) ensures Derives(Grammar(observed), s) {
      Printable(observed, d);
    }
  }

  // ---------- reading back ----------

  function Present(slots: seq<Slot>, fills: seq<Filler>): seq<Arg>
    requires |slots| == |fills|
  {
    if slots == [] then []
    else if fills[0].Absent? then Present(slots[1..], fills[1..])
    else [ArgOf(slots[0], fills[0])] + Present(slots[1..], fills[1..])
  }

  lemma {:induction false} TailGrows(arg: Arg, more: seq<Arg>, text: string)
    requires text == Tail(more) + ")"
    ensures (", " + Shown(arg)) + text == Tail([arg] + more) + ")"
  {
    assert ([arg] + more)[1..] == more;
    assert (", " + Shown(arg)) + text == (", " + (Shown(arg) + Tail(more))) + ")";
  }

  lemma {:induction false} TextOfSlot(sep: string, slot: Slot, f: Filler, text: string, args: seq<Arg>)
    requires sep == ", " && text == Tail(args) + ")"
    ensures SlotText(sep, slot, f) + text == Tail(if f.Absent? then args else [ArgOf(slot, f)] + args) + ")"
  {
    if f.Absent? {
      assert "" + text == text;
    } else {
      TailGrows(ArgOf(slot, f), args, text);
    }
  }

  lemma {:induction false} TextOfTail(sep: string, slots: seq<Slot>, fills: seq<Filler>)
    requires |slots| == |fills| && sep == ", "
    ensures SlotsText(sep, slots, fills) == Tail(Present(slots, fills)) + ")"
    decreases |slots|
  {
    if slots == [] {
    } else {
      TextOfTail(sep, slots[1..], fills[1..]);
      TextOfSlot(sep, slots[0], fills[0], SlotsText(sep, slots[1..], fills[1..]), Present(slots[1..], fills[1..]));
    }
  }

  lemma {:induction false} Regrouped(verb: string, shown: string, tail: string)
    ensures "[" + ((((verb + "(") + shown) + (tail + ")")) + "]") == "[" + (verb + ("(" + (shown + (tail + ")]"))))
  {
    assert (tail + ")") + "]" == tail + ")]";
    assert ((verb + "(") + shown) + (tail + ")]") == verb + ("(" + (shown + (tail + ")]")));
  }

  lemma {:induction false} PrintIsLine(verb: string, slots: seq<Slot>, fills: seq<Filler>)
    requires |slots| == |fills| > 0 && !fills[0].Absent?
    ensures Present(slots, fills) != []
    ensures "[" + (SlotsText(verb + "(", slots, fills) + "]") == Line(verb, Present(slots, fills))
  {
    var shown, more := Shown(ArgOf(slots[0], fills[0])), Present(slots[1..], fills[1..]);
    TextOfTail(", ", slots[1..], fills[1..]);
    assert Present(slots, fills)[0] == ArgOf(slots[0], fills[0]) && Present(slots, fills)[1..] == more;
    Regrouped(verb, shown, Tail(more));
  }

  lemma {:induction false} FreeHasNoQuote(t: string)
    requires AllIn(t, FreeText)
    ensures '"' !in t
  {
  }

  predicate AllSafe(paths: seq<string>) {
    forall p | p in paths :: SafePath(p)
  }

  // A filled path slot holds path characters only.
  lemma {:induction false} PathValue(f: Filler)
    requires f.Observed? || (f.Child? && AllIn(f.seg, Segment))
    requires SafePath(f.path)
    ensures Value(f) != "" && '"' !in Value(f) && '<' !in Value(f) && '>' !in Value(f)
    ensures '*' !in Value(f) && '?' !in Value(f) && '[' !in Value(f)
  {
  }

  lemma {:induction false} ArgSound(slot: Slot, f: Filler, paths: seq<string>)
    requires ProperSlot(slot) && SlotFits(slot, f, paths) && !f.Absent? && AllSafe(paths)
    ensures Sound(ArgOf(slot, f))
  {
    KeysNamed(slot.key);
    if f.Text? {
      FreeHasNoQuote(f.text);
    } else if f.Observed? || f.Child? {
      PathValue(f);
    }
  }

  lemma {:induction false} ArgsSound(slots: seq<Slot>, fills: seq<Filler>, paths: seq<string>)
    requires Proper(slots) && AllFit(slots, fills, paths) && AllSafe(paths)
    ensures forall a | a in Present(slots, fills) :: Sound(a)
    decreases |slots|
  {
    if slots == [] {
    } else {
      assert slots[0] in slots;
      ArgsSound(slots[1..], fills[1..], paths);
      if !fills[0].Absent? {
        ArgSound(slots[0], fills[0], paths);
      }
    }
  }

  // The call a derivation stands for.
  function Meant(d: Derivation): Call
    requires |d.fills| == |SlotsOf(d.shape)|
  {
    Call(Verb(d.shape), Slots(Present(SlotsOf(d.shape), d.fills)))
  }

  lemma {:induction false} PrintReadBack(d: Derivation, observed: seq<string>)
    requires Fits(d, observed)
    ensures CallOf(Print(d)) == Some(Meant(d))
  {
    var slots := SlotsOf(d.shape);
    ShapesProper(d.shape);
    NotAbsent(slots[0].form, d.fills[0], SafePaths(observed));
    PrintIsLine(Verb(d.shape), slots, d.fills);
    ArgsSound(slots, d.fills, SafePaths(observed));
    LineReadBack(Verb(d.shape), Present(slots, d.fills));
  }
}
