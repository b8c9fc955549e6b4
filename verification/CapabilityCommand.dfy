/** What a shell makes of the command built for a capability call: every slot arrives as one argument, in its
    place, exactly when each character of the slots the command uses stands for itself in double quotes. */
module CapabilityCommand {
  import opened CapabilityCall
  import opened Sequences
  import opened Shell
  import opened Text
  import opened Wrappers

  // What is left of a slot once it is quoted.
  function Kept(s: string): string {
    Without(s, '"')
  }

  // Once quoted, every character of the slot stands for itself.
  predicate Inert(s: string) {
    Literal(Kept(s), '"')
  }

  // ---------- single words ----------

  // The string is meant as one word, inert or not.
  ghost predicate IsWord(text: string, parts: seq<Part>, inert: bool) {
    exists p: Piece ::
      Formed(p) && !p.Op? && !p.semi && Shown(p) == text && TokenOf(p) == [Word(parts)] && Sound(p) == inert
  }

  lemma {:induction false} WordMeans(text: string, parts: seq<Part>, inert: bool)
    requires IsWord(text, parts, inert)
    ensures Means([text], [Word(parts)], inert)
    ensures Means([text + ";"], [Word(parts), Operator(";")], inert)
  {
    var p: Piece :|
      Formed(p) && !p.Op? && !p.semi && Shown(p) == text && TokenOf(p) == [Word(parts)] && Sound(p) == inert;
    MeansPiece(p);
    SemiShown(p);
    MeansPiece(p.(semi := true));
  }

  lemma {:induction false} SemiShown(p: Piece)
    requires !p.Op? && !p.semi && |TokenOf(p)| == 1
    ensures var q := p.(semi := true);
            && Shown(q) == Shown(p) + ";" && TokenOf(q) == TokenOf(p) + [Operator(";")]
            && Sound(q) == Sound(p) && Formed(q) == Formed(p)
  {
    match p
    case Argument(segs, _) => assert ShownSegments(segs) + "" == ShownSegments(segs);
    case Lone(c, _) => assert [c] + "" == [c];
  }

  lemma {:induction false} SegmentsAreWord(segs: seq<Segment>)
    requires segs != [] && forall g | g in segs :: FormedSegment(g)
    ensures IsWord(ShownSegments(segs), Parts(segs), Sound(Argument(segs, false)))
  {
    var p := Argument(segs, false);
    assert Shown(p) == ShownSegments(segs) + "" == ShownSegments(segs);
    assert TokenOf(p) == [Word(Parts(segs))] + [] == [Word(Parts(segs))];
  }

  lemma {:induction false} SegmentIsWord(g: Segment)
    requires FormedSegment(g)
    ensures IsWord(ShownSegment(g), SegmentParts(g), SoundSegment(g))
  {
    OneSegment(g, false);
    SegmentsAreWord([g]);
    assert g in [g];
    assert Sound(Argument([g], false)) == SoundSegment(g);
  }

  lemma {:induction false} TwoSegmentsAreWord(g: Segment, h: Segment)
    requires FormedSegment(g) && FormedSegment(h)
    ensures IsWord(ShownSegment(g) + ShownSegment(h), SegmentParts(g) + SegmentParts(h),
                   SoundSegment(g) && SoundSegment(h))
  {
    OneSegment(h, false);
    assert [g, h][1..] == [h];
    SegmentsAreWord([g, h]);
    assert g in [g, h] && h in [g, h];
    assert Sound(Argument([g, h], false)) == (SoundSegment(g) && SoundSegment(h));
  }

  lemma {:induction false} BareIsWord(s: string)
    requires IsBareWord(s)
    ensures IsWord(s, Plain(s), true)
  {
    SegmentIsWord(Bare(s));
  }

  lemma {:induction false} SingleIsWord(s: string)
    ensures IsWord(Shq(s), Plain(s), true)
  {
    SegmentIsWord(Single(s));
  }

  lemma {:induction false} BracketsAreWords()
    ensures IsWord("[", Plain("["), true) && IsWord("]", Plain("]"), true)
  {
    assert Shown(Lone('[', false)) == "[" && TokenOf(Lone('[', false)) == [Word([Chr('[')])];
    assert Shown(Lone(']', false)) == "]" && TokenOf(Lone(']', false)) == [Word([Chr(']')])];
    assert Plain("[") == [Chr('[')] && Plain("]") == [Chr(']')];
    assert Sound(Lone('[', false)) && Sound(Lone(']', false));
  }

  lemma {:induction false} KeptExactly(s: string)
    ensures '"' !in Kept(s) && forall c | c != '"' :: c in Kept(s) <==> c in s
  {
    if s == "" {
    } else {
      assert s == [s[0]] + s[1..];
      KeptExactly(s[1..]);
    }
  }

  // A quoted slot.
  function SlotSegment(s: string): Segment {
    Double(Kept(s))
  }

  lemma {:induction false} SlotShown(s: string)
    ensures FormedSegment(SlotSegment(s)) && ShownSegment(SlotSegment(s)) == Q(s)
    ensures SegmentParts(SlotSegment(s)) == Plain(Kept(s))
    ensures SoundSegment(SlotSegment(s)) == Inert(s)
  {
    KeptExactly(s);
  }

  lemma {:induction false} SlotIsWord(s: string)
    ensures IsWord(Q(s), Plain(Kept(s)), Inert(s))
  {
    SlotShown(s);
    SegmentIsWord(SlotSegment(s));
  }

  lemma {:induction false} SlotSlashIsWord(s: string)
    ensures IsWord(Q(s) + "/", Plain(Kept(s) + "/"), Inert(s))
  {
    SlotShown(s);
    TwoSegmentsAreWord(SlotSegment(s), Bare("/"));
    assert Plain(Kept(s)) + Plain("/") == Plain(Kept(s) + "/");
  }

  // The output of a command, within double quotes.
  lemma {:induction false} SubstitutionShown(ss: seq<string>, ts: seq<Token>, inert: bool) returns (g: Segment)
    requires Means(ss, ts, inert)
    ensures FormedSegment(g) && ShownSegment(g) == "\"$(" + (Joined(ss) + ")\"") && SegmentParts(g) == [Output(ts)]
    ensures SoundSegment(g) == inert
  {
    var ps :| Prints(ps, ss) && TokensOf(ps) == ts && (AllSound(ps) <==> inert);
    ShownJoined(ps, ss);
    g := Substituted(ps);
  }

  lemma {:induction false} SubstitutionIsWord(ss: seq<string>, ts: seq<Token>, inert: bool)
    requires Means(ss, ts, inert)
    ensures IsWord("\"$(" + (Joined(ss) + ")\""), [Output(ts)], inert)
  {
    var g := SubstitutionShown(ss, ts, inert);
    SegmentIsWord(g);
  }

  // ---------- lists of words ----------

  lemma {:induction false} WordThen(
    text: string, value: string, inert: bool, texts: seq<string>, values: seq<string>, also: bool)
    requires IsWord(text, Plain(value), inert) && Means(texts, Words(values), also)
    ensures Means([text] + texts, Words([value] + values), inert && also)
  {
    WordMeans(text, Plain(value), inert);
    MeansJoin([text], [Word(Plain(value))], inert, texts, Words(values), also);
    assert [Word(Plain(value))] + Words(values) == Words([value] + values);
  }

  lemma {:induction false} InertWordsMean(texts: seq<string>, values: seq<string>)
    requires |texts| == |values| && forall i | 0 <= i < |texts| :: IsWord(texts[i], Plain(values[i]), true)
    ensures Means(texts, Words(values), true)
    decreases |texts|
  {
    if texts == [] {
      MeansNothing();
      assert Words(values) == [];
    } else {
      InertWordsMean(texts[1..], values[1..]);
      WordThen(texts[0], values[0], true, texts[1..], values[1..], true);
      assert [texts[0]] + texts[1..] == texts && [values[0]] + values[1..] == values;
    }
  }

  // Words of which one is a slot.
  lemma {:induction false} OneSlotMeans(texts: seq<string>, values: seq<string>, k: nat, inert: bool)
    requires k < |texts| == |values|
    requires forall i | 0 <= i < |texts| && i != k :: IsWord(texts[i], Plain(values[i]), true)
    requires IsWord(texts[k], Plain(values[k]), inert)
    ensures Means(texts, Words(values), inert)
    decreases k
  {
    if k == 0 {
      InertWordsMean(texts[1..], values[1..]);
      WordThen(texts[0], values[0], inert, texts[1..], values[1..], true);
    } else {
      OneSlotMeans(texts[1..], values[1..], k - 1, inert);
      WordThen(texts[0], values[0], true, texts[1..], values[1..], inert);
    }
    assert [texts[0]] + texts[1..] == texts && [values[0]] + values[1..] == values;
  }

  lemma {:induction false} WordsJoin(values: seq<string>, more: seq<string>)
    ensures Words(values) + Words(more) == Words(values + more)
  {
  }

  // Bare words, a slot, and what comes next.
  lemma {:induction false} SlotThen(bare: seq<string>, slot: string, ss: seq<string>, values: seq<string>, also: bool)
    requires (forall s | s in bare :: IsBareWord(s)) && Means(ss, Words(values), also)
    ensures Means(bare + ([Q(slot)] + ss), Words(bare + ([Kept(slot)] + values)), Inert(slot) && also)
  {
    MeansBare(bare);
    SlotIsWord(slot);
    WordThen(Q(slot), Kept(slot), Inert(slot), ss, values, also);
    MeansJoin(bare, Words(bare), true, [Q(slot)] + ss, Words([Kept(slot)] + values), Inert(slot) && also);
    WordsJoin(bare, [Kept(slot)] + values);
  }

  lemma {:induction false} MeansSlot(slot: string)
    ensures Means([Q(slot)], Words([Kept(slot)]), Inert(slot))
  {
    SlotIsWord(slot);
    OneSlotMeans([Q(slot)], [Kept(slot)], 0, Inert(slot));
  }

  lemma {:induction false} BareWords()
    ensures IsBareWord("mkdir") && IsBareWord("-p") && IsBareWord("mv") && IsBareWord("cp") && IsBareWord("-r")
    ensures IsBareWord("if") && IsBareWord("-f") && IsBareWord("then") && IsBareWord("else") && IsBareWord("fi")
    ensures IsBareWord("printf") && IsBareWord("dirname")
  {
  }

  lemma {:induction false} FindWords()
    ensures IsBareWord("find") && IsBareWord("-maxdepth") && IsBareWord("1") && IsBareWord("-name")
    ensures IsBareWord("-type") && IsBareWord("f") && IsBareWord("-exec") && IsBareWord("rm") && IsBareWord("{}")
    ensures IsBareWord("+") && IsBareWord("-t") && IsBareWord("-empty") && IsBareWord("-size") && IsBareWord("+1k")
    ensures IsBareWord("-printf")
  {
  }

  lemma {:induction false} PipeWords()
    ensures IsBareWord("grep") && IsBareWord("-oE") && IsBareWord("head") && IsBareWord("-1")
    ensures IsBareWord("wc") && IsBareWord("-l")
  {
  }

  lemma {:induction false} BareAreWords()
    ensures forall s: string | IsBareWord(s) :: IsWord(s, Plain(s), true)
  {
    forall s: string | IsBareWord(s) ensures IsWord(s, Plain(s), true) {
      BareIsWord(s);
    }
  }

  // ---------- make_folder, write_file, rename ----------

  function DirOutput(path: string): Part {
    Output(Words(["dirname", Kept(path)]))
  }

  lemma {:induction false} DirMeans(path: string)
    ensures Means(["dirname", Q(path)], Words(["dirname", Kept(path)]), Inert(path))
    ensures DirOf(Q(path)) == "\"$(" + (Joined(["dirname", Q(path)]) + ")\"")
  {
    BareWords();
    BareIsWord("dirname");
    SlotIsWord(path);
    OneSlotMeans(["dirname", Q(path)], ["dirname", Kept(path)], 1, Inert(path));
    assert ["dirname", Q(path)][1..] == [Q(path)];
    assert Joined(["dirname", Q(path)]) == "dirname" + (" " + Q(path));
  }

  lemma {:induction false} DirIsWord(path: string)
    ensures IsWord(DirOf(Q(path)), [DirOutput(path)], Inert(path))
  {
    DirMeans(path);
    SubstitutionIsWord(["dirname", Q(path)], Words(["dirname", Kept(path)]), Inert(path));
  }

  // mkdir -p with one folder
  function Mkdir(folder: string): seq<Token> {
    Words(["mkdir", "-p", Kept(folder)])
  }

  lemma {:induction false} MkdirMeans(folder: string)
    ensures Means(["mkdir", "-p", Q(folder)], Mkdir(folder), Inert(folder))
  {
    BareWords();
    BareAreWords();
    SlotIsWord(folder);
    OneSlotMeans(["mkdir", "-p", Q(folder)], ["mkdir", "-p", Kept(folder)], 2, Inert(folder));
  }

  // mkdir -p with the folder that dirname gives, and what comes next
  function MkdirFor(path: string, next: seq<Token>): seq<Token> {
    Words(["mkdir", "-p"]) + ([Word([DirOutput(path)]), Operator(";")] + next)
  }

  lemma {:induction false} MkdirForMeans(path: string, ss: seq<string>, next: seq<Token>, also: bool)
    requires Means(ss, next, also)
    ensures Means(["mkdir", "-p"] + ([DirOf(Q(path)) + ";"] + ss), MkdirFor(path, next), Inert(path) && also)
  {
    BareWords();
    MeansBare(["mkdir", "-p"]);
    DirIsWord(path);
    WordMeans(DirOf(Q(path)), [DirOutput(path)], Inert(path));
    MeansJoin([DirOf(Q(path)) + ";"], [Word([DirOutput(path)]), Operator(";")], Inert(path), ss, next, also);
    MeansJoin(["mkdir", "-p"], Words(["mkdir", "-p"]), true, [DirOf(Q(path)) + ";"] + ss,
              [Word([DirOutput(path)]), Operator(";")] + next, Inert(path) && also);
  }

  // A command whose output goes to the file.
  function Into(command: seq<Token>, path: string): seq<Token> {
    command + ([Operator(">")] + Words([Kept(path)]))
  }

  lemma {:induction false} IntoMeans(ss: seq<string>, command: seq<Token>, inert: bool, path: string)
    requires Means(ss, command, inert)
    ensures Means(ss + [">", Q(path)], Into(command, path), inert && Inert(path))
  {
    MeansSlot(path);
    ThenMeans(ss, command, inert, ">", [Q(path)], Words([Kept(path)]), Inert(path));
    assert ss + ([">"] + [Q(path)]) == ss + [">", Q(path)];
  }

  lemma {:induction false} PrintfShown()
    ensures Shq("%s") == "'%s'" && Shq("%s\\n") == "'%s\\n'"
  {
    assert Escaped("n") == "n" && Escaped("s") == "s";
    assert Escaped("\\n") == "\\n";
    assert Escaped("s\\n") == "s\\n";
  }

  lemma {:induction false} NamesShown()
    ensures Shq("%f\\n") == "'%f\\n'"
  {
    assert Escaped("n") == "n";
    assert Escaped("\\n") == "\\n";
    assert Escaped("f\\n") == "f\\n";
  }

  function WriteTokens(path: string, content: string): seq<Token> {
    MkdirFor(path, Into(Words(["printf", "%s", Kept(content)]), path))
  }

  lemma {:induction false} PrintfMeans(content: string)
    ensures Means(["printf", "'%s'", Q(content)], Words(["printf", "%s", Kept(content)]), Inert(content))
  {
    BareWords();
    BareIsWord("printf");
    PrintfShown();
    SingleIsWord("%s");
    SlotIsWord(content);
    OneSlotMeans(["printf", "'%s'", Q(content)], ["printf", "%s", Kept(content)], 2, Inert(content));
  }

  lemma {:induction false} WriteMeans(path: string, content: string)
    ensures Means(WriteFileWords(path, content), WriteTokens(path, content), Inert(path) && Inert(content))
  {
    var printf, words := ["printf", "'%s'", Q(content)], Words(["printf", "%s", Kept(content)]);
    PrintfMeans(content);
    IntoMeans(printf, words, Inert(content), path);
    MkdirForMeans(path, printf + [">", Q(path)], Into(words, path), Inert(content) && Inert(path));
    assert WriteFileWords(path, content) == ["mkdir", "-p"] + ([DirOf(Q(path)) + ";"] + (printf + [">", Q(path)]));
  }

  // The new name stands in the folder of the old one.
  function RenameTokens(path: string, nn: string): seq<Token> {
    Words(["mv", Kept(path)]) + [Word([DirOutput(path)] + (Plain("/") + Plain(Kept(nn))))]
  }

  lemma {:induction false} RenamedIsWord(path: string, nn: string)
    ensures IsWord(DirOf(Q(path)) + ("/" + Q(nn)), [DirOutput(path)] + (Plain("/") + Plain(Kept(nn))),
                   Inert(path) && Inert(nn))
  {
    DirMeans(path);
    var g := SubstitutionShown(["dirname", Q(path)], Words(["dirname", Kept(path)]), Inert(path));
    SlotShown(nn);
    ThreeSegments(g, Bare("/"), SlotSegment(nn));
    SegmentsAreWord([g, Bare("/"), SlotSegment(nn)]);
  }

  lemma {:induction false} ThreeSegments(g: Segment, h: Segment, k: Segment)
    ensures ShownSegments([g, h, k]) == ShownSegment(g) + (ShownSegment(h) + ShownSegment(k))
    ensures Parts([g, h, k]) == SegmentParts(g) + (SegmentParts(h) + SegmentParts(k))
    ensures Sound(Argument([g, h, k], false)) == (SoundSegment(g) && SoundSegment(h) && SoundSegment(k))
  {
    OneSegment(k, false);
    assert [h, k][1..] == [k] && [g, h, k][1..] == [h, k];
    assert g in [g, h, k] && h in [g, h, k] && k in [g, h, k];
  }

  lemma {:induction false} MovedMeans(path: string)
    ensures Means(["mv", Q(path)], Words(["mv", Kept(path)]), Inert(path))
  {
    BareWords();
    BareAreWords();
    SlotIsWord(path);
    OneSlotMeans(["mv", Q(path)], ["mv", Kept(path)], 1, Inert(path));
  }

  lemma {:induction false} RenameMeans(path: string, nn: string)
    ensures Means(RenameWords(path, nn), RenameTokens(path, nn), Inert(path) && Inert(nn))
  {
    var last := DirOf(Q(path)) + ("/" + Q(nn));
    var parts := [DirOutput(path)] + (Plain("/") + Plain(Kept(nn)));
    RenamedIsWord(path, nn);
    MovedMeans(path);
    WordMeans(last, parts, Inert(path) && Inert(nn));
    MeansJoin(["mv", Q(path)], Words(["mv", Kept(path)]), Inert(path), [last], [Word(parts)], Inert(path) && Inert(nn));
    assert RenameWords(path, nn) == ["mv", Q(path)] + [last];
  }

  // ---------- find, delete, extract_to_file ----------

  function FindTokens(sd: string, sel: string): seq<Token> {
    Words(["find", Kept(sd), "-maxdepth", "1", "-name", Kept(sel), "-type", "f"])
  }

  // What find looks for, with the selector spelled as given.
  function NamedFiles(sel: string): seq<string> {
    ["-maxdepth", "1", "-name"] + ([sel] + ["-type", "f"])
  }

  lemma {:induction false} NamedMeans(sel: string)
    ensures Means(NamedFiles(Q(sel)), Words(NamedFiles(Kept(sel))), Inert(sel))
  {
    FindWords();
    MeansBare(["-type", "f"]);
    SlotThen(["-maxdepth", "1", "-name"], sel, ["-type", "f"], ["-type", "f"], true);
  }

  lemma {:induction false} FoundShape(sd: string, sel: string)
    ensures FoundWords(sd, sel) == ["find"] + ([Q(sd)] + NamedFiles(Q(sel)))
    ensures FindTokens(sd, sel) == Words(["find"] + ([Kept(sd)] + NamedFiles(Kept(sel))))
  {
    assert ["find", Kept(sd), "-maxdepth", "1", "-name", Kept(sel), "-type", "f"]
        == ["find"] + ([Kept(sd)] + NamedFiles(Kept(sel)));
  }

  lemma {:induction false} FoundMeans(sd: string, sel: string)
    ensures Means(FoundWords(sd, sel), FindTokens(sd, sel), Inert(sd) && Inert(sel))
  {
    FindWords();
    NamedMeans(sel);
    FoundShape(sd, sel);
    SlotThen(["find"], sd, NamedFiles(Q(sel)), NamedFiles(Kept(sel)), Inert(sel));
  }

  function FilterTokens(filter: string): seq<Token> {
    match filter
    case "empty" => Words(["-empty"])
    case "larger_than_1k" => Words(["-size", "+1k"])
    case _ => []
  }

  lemma {:induction false} BlankMeans()
    ensures Means([""], [], true)
  {
    var p := Argument([], false);
    assert Shown(p) == "" && TokenOf(p) == [] && Sound(p);
    MeansPiece(p);
  }

  lemma {:induction false} FilterMeans(filter: string)
    ensures Means(FilterWords(filter), FilterTokens(filter), true)
  {
    FindWords();
    MeansBare(["-empty"]);
    MeansBare(["-size", "+1k"]);
    BlankMeans();
  }

  function DeleteTokens(sd: string, sel: string, filter: string): seq<Token> {
    FindTokens(sd, sel) + (FilterTokens(filter) + Words(["-exec", "rm", "-f", "{}", "+"]))
  }

  lemma {:induction false} DeleteMeans(sd: string, sel: string, filter: string)
    ensures Means(DeleteWords(sd, sel, FilterWords(filter)), DeleteTokens(sd, sel, filter), Inert(sd) && Inert(sel))
  {
    var exec := ["-exec", "rm", "-f", "{}", "+"];
    FindWords();
    BareWords();
    MeansBare(exec);
    FoundMeans(sd, sel);
    FilterMeans(filter);
    MeansJoin(FilterWords(filter), FilterTokens(filter), true, exec, Words(exec), true);
    MeansJoin(FoundWords(sd, sel), FindTokens(sd, sel), Inert(sd) && Inert(sel),
              FilterWords(filter) + exec, FilterTokens(filter) + Words(exec), true);
    Grouped(FoundWords(sd, sel), FilterWords(filter), exec);
  }

  function InnerTokens(p: Params): seq<Token> {
    var sd, sel := Get(p, "source_dir"), Get(p, "selector");
    match Get(p, "mode")
    case "value" => FirstMatchTokens(Get(p, "pattern"), Get(p, "source"))
    case "count" => FindTokens(sd, sel) + ([Operator("|")] + Words(["wc", "-l"]))
    case _ => FindTokens(sd, sel) + Words(["-printf", "%f\\n"])
  }

  function FirstMatchTokens(pat: string, src: string): seq<Token> {
    Words(["grep", "-oE", Kept(pat), Kept(src)]) + ([Operator("|")] + Words(["head", "-1"]))
  }

  lemma {:induction false} FirstMatchMeans(pat: string, src: string)
    ensures Means(FirstMatchWords(pat, src), FirstMatchTokens(pat, src), Inert(pat) && Inert(src))
  {
    PipeWords();
    MeansNothing();
    assert Words([]) == [];
    var grep, words := ["grep", "-oE", Q(pat), Q(src)], ["grep", "-oE", Kept(pat), Kept(src)];
    SlotThen([], src, [], [], true);
    SlotThen(["grep", "-oE"], pat, [] + ([Q(src)] + []), [] + ([Kept(src)] + []), Inert(src));
    assert grep == ["grep", "-oE"] + ([Q(pat)] + ([] + ([Q(src)] + [])));
    assert words == ["grep", "-oE"] + ([Kept(pat)] + ([] + ([Kept(src)] + [])));
    MeansBare(["head", "-1"]);
    ThenMeans(grep, Words(words), Inert(pat) && Inert(src), "|", ["head", "-1"], Words(["head", "-1"]), true);
    assert FirstMatchWords(pat, src) == grep + (["|"] + ["head", "-1"]);
  }

  lemma {:induction false} CountMeans(sd: string, sel: string)
    ensures Means(FoundWords(sd, sel) + ["|", "wc", "-l"],
                  FindTokens(sd, sel) + ([Operator("|")] + Words(["wc", "-l"])), Inert(sd) && Inert(sel))
  {
    PipeWords();
    FoundMeans(sd, sel);
    MeansBare(["wc", "-l"]);
    ThenMeans(FoundWords(sd, sel), FindTokens(sd, sel), Inert(sd) && Inert(sel), "|",
              ["wc", "-l"], Words(["wc", "-l"]), true);
    assert ["|"] + ["wc", "-l"] == ["|", "wc", "-l"];
  }

  lemma {:induction false} ListMeans(sd: string, sel: string)
    ensures Means(FoundWords(sd, sel) + ["-printf", "'%f\\n'"],
                  FindTokens(sd, sel) + Words(["-printf", "%f\\n"]), Inert(sd) && Inert(sel))
  {
    FindWords();
    NamesShown();
    BareIsWord("-printf");
    SingleIsWord("%f\\n");
    FoundMeans(sd, sel);
    OneSlotMeans(["-printf", "'%f\\n'"], ["-printf", "%f\\n"], 0, true);
    MeansJoin(FoundWords(sd, sel), FindTokens(sd, sel), Inert(sd) && Inert(sel),
              ["-printf", "'%f\\n'"], Words(["-printf", "%f\\n"]), true);
  }

  function ExtractTokens(inner: seq<Token>, dest: string): seq<Token> {
    MkdirFor(dest, Into(Words(["printf", "%s\\n"]) + [Word([Output(inner)])], dest))
  }

  lemma {:induction false} PrintfOutputMeans(ss: seq<string>, inner: seq<Token>, inert: bool)
    requires Means(ss, inner, inert)
    ensures Means(["printf", "'%s\\n'"] + ["\"$(" + (Joined(ss) + ")\"")],
                  Words(["printf", "%s\\n"]) + [Word([Output(inner)])], inert)
  {
    BareWords();
    PrintfShown();
    BareIsWord("printf");
    SingleIsWord("%s\\n");
    SubstitutionIsWord(ss, inner, inert);
    var format, text := ["printf", "'%s\\n'"], "\"$(" + (Joined(ss) + ")\"");
    OneSlotMeans(format, ["printf", "%s\\n"], 0, true);
    WordMeans(text, [Output(inner)], inert);
    MeansJoin(format, Words(["printf", "%s\\n"]), true, [text], [Word([Output(inner)])], inert);
  }

  lemma {:induction false} ExtractMeans(ss: seq<string>, inner: seq<Token>, inert: bool, dest: string)
    requires Means(ss, inner, inert)
    ensures Means(ExtractWords(Joined(ss), dest), ExtractTokens(inner, dest), inert && Inert(dest))
  {
    var printf := ["printf", "'%s\\n'"] + ["\"$(" + (Joined(ss) + ")\"")];
    var command := Words(["printf", "%s\\n"]) + [Word([Output(inner)])];
    PrintfOutputMeans(ss, inner, inert);
    IntoMeans(printf, command, inert, dest);
    MkdirForMeans(dest, printf + [">", Q(dest)], Into(command, dest), inert && Inert(dest));
    assert ExtractWords(Joined(ss), dest) == ["mkdir", "-p"] + ([DirOf(Q(dest)) + ";"] + (printf + [">", Q(dest)]));
  }

  // ---------- move and copy ----------

  function FlagTokens(cf: string): seq<Token> {
    if cf == "" then [] else Words([cf])
  }

  lemma {:induction false} FlagMeans(cf: string)
    requires cf == "" || IsBareWord(cf)
    ensures Means([cf], FlagTokens(cf), true)
  {
    BlankMeans();
    if cf != "" {
      MeansBare([cf]);
    }
  }

  // A program with a flag or none, and its arguments.
  lemma {:induction false} FlaggedMeans(program: seq<string>, cf: string, ss: seq<string>, ts: seq<Token>, inert: bool)
    requires (forall s | s in program :: IsBareWord(s)) && (cf == "" || IsBareWord(cf)) && Means(ss, ts, inert)
    ensures Means(program + ([cf] + ss), Words(program) + (FlagTokens(cf) + ts), inert)
  {
    MeansBare(program);
    FlagMeans(cf);
    MeansJoin([cf], FlagTokens(cf), true, ss, ts, inert);
    MeansJoin(program, Words(program), true, [cf] + ss, FlagTokens(cf) + ts, inert);
  }

  // mkdir -p with the folder, and then a program with a flag or none.
  lemma {:induction false} MadeMeans(
    dest: string, op: string, cf: string, files: seq<string>, kept: seq<string>, inert: bool)
    requires IsBareWord(op) && (cf == "" || IsBareWord(cf)) && Means(files, Words(kept), inert)
    ensures Means(["mkdir", "-p", Q(dest)] + (["&&"] + ([op] + ([cf] + files))),
                  Mkdir(dest) + ([Operator("&&")] + (Words([op]) + (FlagTokens(cf) + Words(kept)))),
                  Inert(dest) && inert)
  {
    FlaggedMeans([op], cf, files, Words(kept), inert);
    MkdirMeans(dest);
    ThenMeans(["mkdir", "-p", Q(dest)], Mkdir(dest), Inert(dest), "&&",
              [op] + ([cf] + files), Words([op]) + (FlagTokens(cf) + Words(kept)), inert);
  }

  function OneFileTokens(op: string, cf: string, src: string, dest: string, nn: string): seq<Token> {
    Mkdir(dest)
    + ([Operator("&&")] + (Words([op]) + (FlagTokens(cf) + Words([Kept(src), Kept(dest + ("/" + nn))]))))
  }

  lemma {:induction false} KeptJoins(a: string, b: string)
    ensures Kept(a + b) == Kept(a) + Kept(b)
    decreases a
  {
    if a == "" {
      assert a + b == b && Kept(a) + Kept(b) == Kept(b);
    } else {
      assert (a + b)[1..] == a[1..] + b;
      KeptJoins(a[1..], b);
      Grouped(if a[0] == '"' then "" else [a[0]], Kept(a[1..]), Kept(b));
    }
  }

  lemma {:induction false} LiteralJoins(a: string, b: string, next: char)
    requires b != ""
    ensures Literal(a + b, next) <==> Literal(a, b[0]) && Literal(b, next)
    decreases a
  {
    if a == "" {
      assert a + b == b;
    } else {
      var all := a + b;
      assert all[0] == a[0] && all[1..] == a[1..] + b && Follower(all, 0, next) == Follower(a, 0, b[0]);
      LiteralRest(all, next);
      LiteralRest(a, b[0]);
      LiteralJoins(a[1..], b, next);
    }
  }

  // Behind a folder that is inert by itself, a name spoils a path if and only if it spoils itself.
  lemma {:induction false} SlashInert(a: string, b: string)
    requires Inert(a)
    ensures Inert(a + ("/" + b)) == Inert(b)
  {
    var rest := "/" + Kept(b);
    KeptJoins(a, "/" + b);
    KeptJoins("/", b);
    assert Kept("/") == "/";
    LiteralJoins(Kept(a), rest, '"');
    assert rest[1..] == Kept(b);
    LiteralRest(rest, '"');
    forall i | 0 <= i < |Kept(a)| ensures !Alters(Kept(a)[i], Follower(Kept(a), i, '/')) {
      assert !Alters(Kept(a)[i], Follower(Kept(a), i, '"'));
    }
  }

  lemma {:induction false} TwoSlotsMean(a: string, b: string)
    ensures Means([Q(a), Q(b)], Words([Kept(a), Kept(b)]), Inert(a) && Inert(b))
  {
    SlotIsWord(a);
    MeansSlot(b);
    WordThen(Q(a), Kept(a), Inert(a), [Q(b)], [Kept(b)], Inert(b));
    assert [Q(a)] + [Q(b)] == [Q(a), Q(b)] && [Kept(a)] + [Kept(b)] == [Kept(a), Kept(b)];
  }

  lemma {:induction false} OneFileMeans(op: string, cf: string, src: string, dest: string, nn: string)
    requires IsBareWord(op) && (cf == "" || IsBareWord(cf))
    ensures Means(OneFileWords(op, cf, src, dest, nn), OneFileTokens(op, cf, src, dest, nn),
                  Inert(dest) && Inert(src) && Inert(nn))
  {
    var target := dest + ("/" + nn);
    var files, kept := [Q(src), Q(target)], [Kept(src), Kept(target)];
    TwoSlotsMean(src, target);
    MadeMeans(dest, op, cf, files, kept, Inert(src) && Inert(target));
    if Inert(dest) {
      SlashInert(dest, nn);
    }
    assert OneFileWords(op, cf, src, dest, nn) == ["mkdir", "-p", Q(dest)] + (["&&"] + ([op] + ([cf] + files)));
  }

  function WholeFolderTokens(op: string, cf: string, sd: string, dest: string): seq<Token> {
    Mkdir(dest) + ([Operator("&&")] + (Words([op]) + (FlagTokens(cf) + Words([Kept(sd), Kept(dest) + "/"]))))
  }

  lemma {:induction false} WholeFolderMeans(op: string, cf: string, sd: string, dest: string)
    requires IsBareWord(op) && (cf == "" || IsBareWord(cf))
    ensures Means(WholeFolderWords(op, cf, sd, dest), WholeFolderTokens(op, cf, sd, dest), Inert(dest) && Inert(sd))
  {
    var files, kept := [Q(sd), Q(dest) + "/"], [Kept(sd), Kept(dest) + "/"];
    SlotIsWord(sd);
    SlotSlashIsWord(dest);
    OneSlotMeans([Q(dest) + "/"], [Kept(dest) + "/"], 0, Inert(dest));
    WordThen(Q(sd), Kept(sd), Inert(sd), [Q(dest) + "/"], [Kept(dest) + "/"], Inert(dest));
    MadeMeans(dest, op, cf, files, kept, Inert(sd) && Inert(dest));
    assert WholeFolderWords(op, cf, sd, dest) == ["mkdir", "-p", Q(dest)] + (["&&"] + ([op] + ([cf] + files)));
  }

  // Words of which the last ends a command.
  lemma {:induction false} WordsEnd(
    texts: seq<string>, values: seq<string>, inert: bool, text: string, value: string, also: bool)
    requires Means(texts, Words(values), inert) && IsWord(text, Plain(value), also)
    ensures Means(texts + [text + ";"], Words(values) + Ended(value), inert && also)
  {
    WordMeans(text, Plain(value), also);
    MeansJoin(texts, Words(values), inert, [text + ";"], Ended(value), also);
  }

  function Ended(value: string): seq<Token> {
    [Word(Plain(value)), Operator(";")]
  }

  // if [ -f source ];
  function TestTokens(sd: string): seq<Token> {
    Words(["if", "[", "-f", Kept(sd)]) + Ended("]")
  }

  lemma {:induction false} TestMeans(sd: string)
    ensures Means(["if", "[", "-f", Q(sd)] + ["];"], TestTokens(sd), Inert(sd))
  {
    BareWords();
    BareIsWord("if");
    BareIsWord("-f");
    BracketsAreWords();
    SlotIsWord(sd);
    OneSlotMeans(["if", "[", "-f", Q(sd)], ["if", "[", "-f", Kept(sd)], 3, Inert(sd));
    WordsEnd(["if", "[", "-f", Q(sd)], ["if", "[", "-f", Kept(sd)], Inert(sd), "]", "]", true);
    assert "]" + ";" == "];";
  }

  // then the file itself;
  function FileTokens(op: string, cf: string, sd: string, dest: string): seq<Token> {
    Words(["then", op]) + (FlagTokens(cf) + (Words([Kept(sd)]) + Ended(Kept(dest) + "/")))
  }

  lemma {:induction false} FileMeans(op: string, cf: string, sd: string, dest: string)
    requires IsBareWord(op) && (cf == "" || IsBareWord(cf))
    ensures Means(["then", op] + ([cf] + ([Q(sd)] + [Q(dest) + "/" + ";"])), FileTokens(op, cf, sd, dest),
                  Inert(sd) && Inert(dest))
  {
    BareWords();
    MeansSlot(sd);
    SlotSlashIsWord(dest);
    WordsEnd([Q(sd)], [Kept(sd)], Inert(sd), Q(dest) + "/", Kept(dest) + "/", Inert(dest));
    FlaggedMeans(["then", op], cf, [Q(sd)] + [Q(dest) + "/" + ";"], Words([Kept(sd)]) + Ended(Kept(dest) + "/"),
                 Inert(sd) && Inert(dest));
  }

  function DepthTokens(depth: seq<string>): seq<Token> {
    if depth == [""] then [] else Words(depth)
  }

  // -name selector -type f -exec program into the folder;
  function ExecTokens(op: string, cf: string, sel: string, dest: string): seq<Token> {
    Words(["-name", Kept(sel), "-type", "f", "-exec", op])
    + (FlagTokens(cf) + (Words(["-t", Kept(dest) + "/", "{}"]) + Ended("+")))
  }

  function ExecWords(op: string, cf: string, sel: string, dest: string): seq<string> {
    ["-name", Q(sel), "-type", "f", "-exec", op] + ([cf] + (["-t", Q(dest) + "/", "{}"] + ["+;"]))
  }

  lemma {:induction false} ExecMeans(op: string, cf: string, sel: string, dest: string)
    requires IsBareWord(op) && (cf == "" || IsBareWord(cf))
    ensures Means(ExecWords(op, cf, sel, dest), ExecTokens(op, cf, sel, dest), Inert(sel) && Inert(dest))
  {
    var target, kept := ["-t", Q(dest) + "/", "{}"], ["-t", Kept(dest) + "/", "{}"];
    FindWords();
    BareAreWords();
    SlotSlashIsWord(dest);
    OneSlotMeans(target, kept, 1, Inert(dest));
    WordsEnd(target, kept, Inert(dest), "+", "+", true);
    assert "+" + ";" == "+;";
    NameMeans(op, cf, sel, target + ["+;"], Words(kept) + Ended("+"), Inert(dest));
  }

  lemma {:induction false} NameMeans(
    op: string, cf: string, sel: string, ss: seq<string>, ts: seq<Token>, also: bool)
    requires IsBareWord(op) && (cf == "" || IsBareWord(cf)) && Means(ss, ts, also)
    ensures Means(["-name", Q(sel), "-type", "f", "-exec", op] + ([cf] + ss),
                  Words(["-name", Kept(sel), "-type", "f", "-exec", op]) + (FlagTokens(cf) + ts), Inert(sel) && also)
  {
    var test, kept := ["-name", Q(sel), "-type", "f", "-exec", op], ["-name", Kept(sel), "-type", "f", "-exec", op];
    FindWords();
    MeansBare(["-type", "f", "-exec", op]);
    SlotThen(["-name"], sel, ["-type", "f", "-exec", op], ["-type", "f", "-exec", op], true);
    assert test == ["-name"] + ([Q(sel)] + ["-type", "f", "-exec", op]);
    assert kept == ["-name"] + ([Kept(sel)] + ["-type", "f", "-exec", op]);
    FlagMeans(cf);
    MeansJoin([cf], FlagTokens(cf), true, ss, ts, also);
    MeansJoin(test, Words(kept), Inert(sel), [cf] + ss, FlagTokens(cf) + ts, also);
  }

  // else find in the folder
  function SearchTokens(depth: seq<string>, sd: string, exec: seq<Token>): seq<Token> {
    Words(["else", "find", Kept(sd)]) + (DepthTokens(depth) + (exec + Words(["fi"])))
  }

  lemma {:induction false} DepthMeans(depth: seq<string>)
    requires depth == [""] || depth == ["-maxdepth", "1"]
    ensures Means(depth, DepthTokens(depth), true)
  {
    FindWords();
    BlankMeans();
    MeansBare(["-maxdepth", "1"]);
  }

  lemma {:induction false} ElseFindMeans(sd: string)
    ensures Means(["else", "find", Q(sd)], Words(["else", "find", Kept(sd)]), Inert(sd))
  {
    BareWords();
    FindWords();
    BareIsWord("else");
    BareIsWord("find");
    SlotIsWord(sd);
    OneSlotMeans(["else", "find", Q(sd)], ["else", "find", Kept(sd)], 2, Inert(sd));
  }

  lemma {:induction false} SearchMeans(depth: seq<string>, sd: string, ss: seq<string>, exec: seq<Token>, also: bool)
    requires (depth == [""] || depth == ["-maxdepth", "1"]) && Means(ss, exec, also)
    ensures Means(["else", "find", Q(sd)] + (depth + (ss + ["fi"])), SearchTokens(depth, sd, exec), Inert(sd) && also)
  {
    BareWords();
    MeansBare(["fi"]);
    DepthMeans(depth);
    ElseFindMeans(sd);
    var fi := ["fi"];
    MeansJoin(ss, exec, also, fi, Words(fi), true);
    MeansJoin(depth, DepthTokens(depth), true, ss + fi, exec + Words(fi), also);
    MeansJoin(["else", "find", Q(sd)], Words(["else", "find", Kept(sd)]), Inert(sd), depth + (ss + fi),
              DepthTokens(depth) + (exec + Words(fi)), also);
  }

  // A file goes as a file; from a folder go the files that match.
  function MatchingTokens(
    op: string, cf: string, depth: seq<string>, sd: string, sel: string, dest: string): seq<Token>
  {
    Mkdir(dest)
    + ([Operator("&&")]
       + (TestTokens(sd) + (FileTokens(op, cf, sd, dest) + SearchTokens(depth, sd, ExecTokens(op, cf, sel, dest)))))
  }

  lemma {:induction false} MatchingMeans(
    op: string, cf: string, depth: seq<string>, sd: string, sel: string, dest: string)
    requires IsBareWord(op) && (cf == "" || IsBareWord(cf)) && (depth == [""] || depth == ["-maxdepth", "1"])
    ensures Means(MatchingWords(op, cf, depth, sd, sel, dest), MatchingTokens(op, cf, depth, sd, sel, dest),
                  Inert(dest) && Inert(sd) && Inert(sel))
  {
    var test := ["if", "[", "-f", Q(sd)] + ["];"];
    var file := ["then", op] + ([cf] + ([Q(sd)] + [Q(dest) + "/" + ";"]));
    var exec := ExecWords(op, cf, sel, dest);
    var search := ["else", "find", Q(sd)] + (depth + (exec + ["fi"]));
    var searched := SearchTokens(depth, sd, ExecTokens(op, cf, sel, dest));
    var inert := Inert(dest) && Inert(sd) && Inert(sel);
    ExecMeans(op, cf, sel, dest);
    SearchMeans(depth, sd, exec, ExecTokens(op, cf, sel, dest), Inert(sel) && Inert(dest));
    FileMeans(op, cf, sd, dest);
    MeansJoin(file, FileTokens(op, cf, sd, dest), Inert(sd) && Inert(dest), search, searched, inert);
    TestMeans(sd);
    MeansJoin(test, TestTokens(sd), Inert(sd), file + search, FileTokens(op, cf, sd, dest) + searched, inert);
    MkdirMeans(dest);
    ThenMeans(["mkdir", "-p", Q(dest)], Mkdir(dest), Inert(dest), "&&", test + (file + search),
              TestTokens(sd) + (FileTokens(op, cf, sd, dest) + searched), inert);
    MatchingGrouped(op, cf, depth, sd, sel, dest);
  }

  lemma {:induction false} MatchingGrouped(
    op: string, cf: string, depth: seq<string>, sd: string, sel: string, dest: string)
    ensures MatchingWords(op, cf, depth, sd, sel, dest)
            == ["mkdir", "-p", Q(dest)]
               + (["&&"]
                  + ((["if", "[", "-f", Q(sd)] + ["];"])
                     + ((["then", op] + ([cf] + ([Q(sd)] + [Q(dest) + "/" + ";"])))
                        + (["else", "find", Q(sd)] + (depth + (ExecWords(op, cf, sel, dest) + ["fi"]))))))
  {
    assert Q(dest) + "/;" == Q(dest) + "/" + ";";
  }

  // ---------- every command ----------

  function TransferTokens(op: string, p: Params): seq<Token> {
    var (sd, sel) := FolderAndSelector(Get(p, "source_dir"), Get(p, "selector"));
    var dest, nn, all := Get(p, "dest"), Get(p, "new_name"), Get(p, "recursive") == "true";
    var cf := if op == "cp" && all then "-r" else "";
    if nn != "" && '*' !in sel then OneFileTokens(op, cf, OneFile(sd, sel), dest, nn)
    else if sel == "" then WholeFolderTokens(op, cf, sd, dest)
    else MatchingTokens(op, cf, if all then [""] else ["-maxdepth", "1"], sd, sel, dest)
  }

  function Destination(p: Params): string {
    if Get(p, "dest_file") == "" then Get(p, "dest") else Get(p, "dest_file")
  }

  // What each call means, as the shell should read it.
  function CommandTokens(call: Call): seq<Token> {
    var p := call.params;
    match call.verb
    case "make_folder" => Mkdir(Get(p, "path"))
    case "write_file" => WriteTokens(Get(p, "path"), Get(p, "content"))
    case "move" => TransferTokens("mv", p)
    case "copy" => TransferTokens("cp", p)
    case "rename" => RenameTokens(Get(p, "path"), Get(p, "new_name"))
    case "delete" =>
      var (sd, sel) := FolderAndSelector(Get(p, "source_dir"), Get(p, "selector"));
      DeleteTokens(sd, sel, Get(p, "filter"))
    case _ => ExtractTokens(InnerTokens(p), Destination(p))
  }

  // The slots that the command uses are inert. A new name is used with a selector that is no pattern, and the
  // file it is for is one argument.
  predicate TransferInert(p: Params) {
    var (sd, sel) := FolderAndSelector(Get(p, "source_dir"), Get(p, "selector"));
    var dest, nn := Get(p, "dest"), Get(p, "new_name");
    if nn != "" && '*' !in sel then Inert(dest) && Inert(OneFile(sd, sel)) && Inert(nn)
    else Inert(dest) && Inert(sd) && Inert(sel)
  }

  function OneFile(sd: string, sel: string): string {
    if sel == "" then sd else sd + ("/" + sel)
  }

  predicate InnerInert(p: Params) {
    if Get(p, "mode") == "value" then Inert(Get(p, "pattern")) && Inert(Get(p, "source"))
    else Inert(Get(p, "source_dir")) && Inert(Get(p, "selector"))
  }

  predicate UsedInert(call: Call) {
    var p := call.params;
    match call.verb
    case "make_folder" => Inert(Get(p, "path"))
    case "write_file" => Inert(Get(p, "path")) && Inert(Get(p, "content"))
    case "move" => TransferInert(p)
    case "copy" => TransferInert(p)
    case "rename" => Inert(Get(p, "path")) && Inert(Get(p, "new_name"))
    case "delete" =>
      var (sd, sel) := FolderAndSelector(Get(p, "source_dir"), Get(p, "selector"));
      Inert(sd) && Inert(sel)
    case _ => InnerInert(p) && Inert(Destination(p))
  }

  lemma {:induction false} OneFileReadExactly(op: string, cf: string, src: string, dest: string, nn: string)
    requires IsBareWord(op) && (cf == "" || IsBareWord(cf))
    ensures var cmd, ts := Joined(OneFileWords(op, cf, src, dest, nn)), OneFileTokens(op, cf, src, dest, nn);
            var inert := Inert(dest) && Inert(src) && Inert(nn);
            (Tokens(cmd) == Some(ts) <==> inert) && (!inert ==> NeverRead(cmd, ts))
  {
    OneFileMeans(op, cf, src, dest, nn);
    JoinedReadExactly(OneFileWords(op, cf, src, dest, nn), OneFileTokens(op, cf, src, dest, nn),
                      Inert(dest) && Inert(src) && Inert(nn));
  }

  lemma {:induction false} WholeFolderReadExactly(op: string, cf: string, sd: string, dest: string)
    requires IsBareWord(op) && (cf == "" || IsBareWord(cf))
    ensures var cmd, ts := Joined(WholeFolderWords(op, cf, sd, dest)), WholeFolderTokens(op, cf, sd, dest);
            var inert := Inert(dest) && Inert(sd);
            (Tokens(cmd) == Some(ts) <==> inert) && (!inert ==> NeverRead(cmd, ts))
  {
    WholeFolderMeans(op, cf, sd, dest);
    JoinedReadExactly(WholeFolderWords(op, cf, sd, dest), WholeFolderTokens(op, cf, sd, dest),
                      Inert(dest) && Inert(sd));
  }

  lemma {:induction false} MatchingReadExactly(
    op: string, cf: string, depth: seq<string>, sd: string, sel: string, dest: string)
    requires IsBareWord(op) && (cf == "" || IsBareWord(cf)) && (depth == [""] || depth == ["-maxdepth", "1"])
    ensures var (cmd, ts) :=
              (Joined(MatchingWords(op, cf, depth, sd, sel, dest)), MatchingTokens(op, cf, depth, sd, sel, dest));
            var inert := Inert(dest) && Inert(sd) && Inert(sel);
            (Tokens(cmd) == Some(ts) <==> inert) && (!inert ==> NeverRead(cmd, ts))
  {
    MatchingMeans(op, cf, depth, sd, sel, dest);
    JoinedReadExactly(MatchingWords(op, cf, depth, sd, sel, dest), MatchingTokens(op, cf, depth, sd, sel, dest),
                      Inert(dest) && Inert(sd) && Inert(sel));
  }

  lemma {:induction false} TransferReadExactly(op: string, p: Params)
    requires (op == "mv" || op == "cp") && Transfer(op, p).Some?
    ensures Tokens(Transfer(op, p).value) == Some(TransferTokens(op, p)) <==> TransferInert(p)
    ensures !TransferInert(p) ==> NeverRead(Transfer(op, p).value, TransferTokens(op, p))
  {
    var (sd, sel) := FolderAndSelector(Get(p, "source_dir"), Get(p, "selector"));
    var dest, nn, all := Get(p, "dest"), Get(p, "new_name"), Get(p, "recursive") == "true";
    var cf := if op == "cp" && all then "-r" else "";
    BareWords();
    if nn != "" && '*' !in sel {
      OneFileReadExactly(op, cf, OneFile(sd, sel), dest, nn);
    } else if sel == "" {
      WholeFolderReadExactly(op, cf, sd, dest);
    } else {
      MatchingReadExactly(op, cf, if all then [""] else ["-maxdepth", "1"], sd, sel, dest);
    }
  }

  lemma {:induction false} DeleteReadExactly(call: Call)
    requires call.verb == "delete" && CommandOf(call).Some?
    ensures Tokens(CommandOf(call).value) == Some(CommandTokens(call)) <==> UsedInert(call)
    ensures !UsedInert(call) ==> NeverRead(CommandOf(call).value, CommandTokens(call))
  {
    var p := call.params;
    var (sd, sel) := FolderAndSelector(Get(p, "source_dir"), Get(p, "selector"));
    DeleteMeans(sd, sel, Get(p, "filter"));
    JoinedReadExactly(DeleteWords(sd, sel, FilterWords(Get(p, "filter"))), DeleteTokens(sd, sel, Get(p, "filter")),
                      Inert(sd) && Inert(sel));
  }

  // What runs inside an extraction, as the words it is joined from.
  lemma {:induction false} InnerMeans(p: Params) returns (ss: seq<string>)
    requires Inner(p).Some?
    ensures Inner(p).value == Joined(ss) && Means(ss, InnerTokens(p), InnerInert(p))
  {
    var sd, sel := Get(p, "source_dir"), Get(p, "selector");
    match Get(p, "mode")
    case "value" =>
      FirstMatchMeans(Get(p, "pattern"), Get(p, "source"));
      ss := FirstMatchWords(Get(p, "pattern"), Get(p, "source"));
    case "count" =>
      CountMeans(sd, sel);
      ss := FoundWords(sd, sel) + ["|", "wc", "-l"];
    case _ =>
      ListMeans(sd, sel);
      ss := FoundWords(sd, sel) + ["-printf", "'%f\\n'"];
  }

  lemma {:induction false} ExtractedExactly(ss: seq<string>, ts: seq<Token>, inert: bool, dest: string)
    requires Means(ss, ts, inert)
    ensures Tokens(Joined(ExtractWords(Joined(ss), dest))) == Some(ExtractTokens(ts, dest)) <==> inert && Inert(dest)
    ensures !(inert && Inert(dest)) ==> NeverRead(Joined(ExtractWords(Joined(ss), dest)), ExtractTokens(ts, dest))
  {
    ExtractMeans(ss, ts, inert, dest);
    JoinedReadExactly(ExtractWords(Joined(ss), dest), ExtractTokens(ts, dest), inert && Inert(dest));
  }

  lemma {:induction false} ExtractReadExactly(call: Call)
    requires call.verb == "extract_to_file" && CommandOf(call).Some?
    ensures Tokens(CommandOf(call).value) == Some(CommandTokens(call)) <==> UsedInert(call)
    ensures !UsedInert(call) ==> NeverRead(CommandOf(call).value, CommandTokens(call))
  {
    var p := call.params;
    var ss := InnerMeans(p);
    ExtractedExactly(ss, InnerTokens(p), InnerInert(p), Destination(p));
  }

  lemma {:induction false} PathReadExactly(call: Call)
    requires call.verb == "make_folder" || call.verb == "write_file" || call.verb == "rename"
    requires CommandOf(call).Some?
    ensures Tokens(CommandOf(call).value) == Some(CommandTokens(call)) <==> UsedInert(call)
    ensures !UsedInert(call) ==> NeverRead(CommandOf(call).value, CommandTokens(call))
  {
    var p := call.params;
    var path, content, nn := Get(p, "path"), Get(p, "content"), Get(p, "new_name");
    if call.verb == "make_folder" {
      MkdirMeans(path);
      JoinedReadExactly(["mkdir", "-p", Q(path)], Mkdir(path), Inert(path));
    } else if call.verb == "write_file" {
      WriteMeans(path, content);
      JoinedReadExactly(WriteFileWords(path, content), WriteTokens(path, content), Inert(path) && Inert(content));
    } else {
      RenameMeans(path, nn);
      JoinedReadExactly(RenameWords(path, nn), RenameTokens(path, nn), Inert(path) && Inert(nn));
    }
  }

  /** For every call with a command: a shell reads it as exactly the programs, flags and operators meant,
      with each slot as one argument in its place, if and only if every character of the slots that the command
      uses stands for itself within double quotes: no backquote, no dollar sign that starts an expansion, no
      backslash before a character it takes the meaning from, the closing quote included. */
  lemma {:induction false} CommandReadExactly(call: Call)
    requires CommandOf(call).Some?
    ensures Tokens(CommandOf(call).value) == Some(CommandTokens(call)) <==> UsedInert(call)
    ensures !UsedInert(call) ==> NeverRead(CommandOf(call).value, CommandTokens(call))
  {
    if call.verb == "move" {
      TransferReadExactly("mv", call.params);
    } else if call.verb == "copy" {
      TransferReadExactly("cp", call.params);
    } else if call.verb == "delete" {
      DeleteReadExactly(call);
    } else if call.verb == "extract_to_file" {
      ExtractReadExactly(call);
    } else {
      PathReadExactly(call);
    }
  }
}
