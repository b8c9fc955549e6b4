/** Typed capability calls: reading one from model output, checking its path slots, building its command. */
module CapabilityCall {
  import opened Shell
  import opened Text
  import opened Wrappers

  type Params = map<string, string>

  datatype Call = Call(verb: string, params: Params)

  // ---------- reading ----------

  function Body(line: string): string {
    Trim(StripEnd(StripStart(Trim(line), "["), "]"))
  }

  // The pieces between the commas outside quotes; a blank last piece is dropped.
  function Arguments(s: string, inQuote: bool, cur: string): seq<string>
    decreases s
  {
    if s == "" then (if Trim(cur) == "" then [] else [cur])
    else if s[0] == '"' then Arguments(s[1..], !inQuote, cur + [s[0]])
    else if s[0] == ',' && !inQuote then [cur] + Arguments(s[1..], inQuote, "")
    else Arguments(s[1..], inQuote, cur + [s[0]])
  }

  function ValueOf(raw: string): string {
    Strip(Strip(Trim(raw), "\""), "<>")
  }

  // What one key=value piece adds.
  function Entry(part: string): Params {
    match Find(part, "=")
    case None => map[]
    case Some(i) => map[Lower(Trim(part[..i])) := ValueOf(part[i + 1..])]
  }

  // A later piece of the same key wins.
  function Entries(parts: seq<string>): Params {
    if parts == [] then map[] else Entry(parts[0]) + Entries(parts[1..])
  }

  function VerbOf(s: string): string {
    Lower(StripEnd(Trim(s), ":"))
  }

  function CallOf(line: string): Option<Call> {
    var s := Body(line);
    match (Find(s, "("), FindLast(s, ')'))
    case (Some(open), Some(close)) =>
      if close < open then None
      else
        assert s[open..open + 1] == "(";
        Some(Call(VerbOf(s[..open]), Entries(Arguments(s[open + 1..close], false, ""))))
    case _ => None
  }

  method ParseCapabilityCall(line: string) returns (call: Option<Call>)
    ensures call == CallOf(line)
  {
    var s := Body(line);
    var open := Find(s, "(");
    if open.None? {
      return None;
    }
    var close := FindLast(s, ')');
    if close.None? || close.value < open.value {
      return None;
    }
    assert s[open.value..open.value + 1] == "(";
    var inner := s[open.value + 1..close.value];
    var parts := SplitArguments(inner);
    var params := CollectEntries(parts);
    return Some(Call(VerbOf(s[..open.value]), params));
  }

  method SplitArguments(inner: string) returns (parts: seq<string>)
    ensures parts == Arguments(inner, false, "")
  {
    parts := [];
    var cur, inQuote := "", false;
    var i := 0;
    while i < |inner|
      invariant 0 <= i <= |inner|
      invariant parts + Arguments(inner[i..], inQuote, cur) == Arguments(inner, false, "")
    {
      ArgumentsStep(inner, i, inQuote, cur, parts);
      match inner[i] {
        case '"' =>
          inQuote := !inQuote;
          cur := cur + [inner[i]];
        case ',' =>
          if inQuote {
            cur := cur + [inner[i]];
          } else {
            parts := parts + [cur];
            cur := "";
          }
        case c => cur := cur + [c];
      }
      i := i + 1;
    }
    if Trim(cur) != "" {
      parts := parts + [cur];
    }
  }

  lemma {:induction false} ArgumentsStep(s: string, i: nat, q: bool, cur: string, parts: seq<string>)
    requires i < |s|
    ensures parts + Arguments(s[i..], q, cur)
            == (if s[i] == '"' then parts + Arguments(s[i + 1..], !q, cur + [s[i]])
                else if s[i] == ',' && !q then (parts + [cur]) + Arguments(s[i + 1..], q, "")
                else parts + Arguments(s[i + 1..], q, cur + [s[i]]))
  {
    assert s[i..][0] == s[i] && s[i..][1..] == s[i + 1..];
    assert parts + ([cur] + Arguments(s[i + 1..], q, "")) == (parts + [cur]) + Arguments(s[i + 1..], q, "");
  }

  method CollectEntries(parts: seq<string>) returns (params: Params)
    ensures params == Entries(parts)
  {
    params := map[];
    assert parts[0..] == parts;
    var i := 0;
    while i < |parts|
      invariant 0 <= i <= |parts|
      invariant params + Entries(parts[i..]) == Entries(parts)
    {
      EntriesStep(params, parts, i);
      params := AddEntry(params, parts[i]);
      i := i + 1;
    }
    assert parts[i..] == [];
  }

  method AddEntry(params: Params, part: string) returns (more: Params)
    ensures more == params + Entry(part)
  {
    var at := Find(part, "=");
    if at.None? {
      return params;
    }
    return params[Lower(Trim(part[..at.value])) := ValueOf(part[at.value + 1..])];
  }

  lemma {:induction false} EntriesStep(m: Params, parts: seq<string>, i: nat)
    requires i < |parts|
    ensures m + Entries(parts[i..]) == (m + Entry(parts[i])) + Entries(parts[i + 1..])
  {
    assert parts[i..][0] == parts[i] && parts[i..][1..] == parts[i + 1..];
    Onto(m, Entry(parts[i]), Entries(parts[i + 1..]));
  }

  lemma {:induction false} Onto(m: Params, n: Params, o: Params)
    ensures m + (n + o) == (m + n) + o
  {
  }

  // The first line that is not blank, trimmed.
  function FirstText(lines: seq<string>): Option<string> {
    if lines == [] then None
    else if Trim(lines[0]) != "" then Some(Trim(lines[0]))
    else FirstText(lines[1..])
  }

  // The call in the output of the model: only its first text line is looked at.
  function ReadOutput(output: string): Option<Call> {
    match FirstText(Lines(output))
    case None => None
    case Some(line) => CallOf(line)
  }

  // ---------- checking ----------

  const VERBS := ["make_folder", "write_file", "move", "copy", "rename", "delete", "extract_to_file"]
  const PATH_KEYS := ["path", "source_dir", "source", "dest", "dest_file"]

  datatype Refusal = UnknownVerb(verb: string) | Ungrounded(key: string, value: string)

  // The path, something beneath it, or something it lies beneath.
  predicate Related(v: string, g: string) {
    v == g || StartsWith(v, g + "/") || StartsWith(g, v + "/")
  }

  predicate Grounded(v: string, grounded: seq<string>) {
    && StartsWith(v, "/") && !Contains(v, "..")
    && exists g | g in grounded :: Related(v, g)
  }

  function FirstUngrounded(keys: seq<string>, params: Params, grounded: seq<string>): Option<Refusal> {
    if keys == [] then None
    else if keys[0] in params && !Grounded(params[keys[0]], grounded) then Some(Ungrounded(keys[0], params[keys[0]]))
    else FirstUngrounded(keys[1..], params, grounded)
  }

  function Validate(call: Call, grounded: seq<string>): Option<Refusal> {
    if call.verb !in VERBS then Some(UnknownVerb(call.verb)) else FirstUngrounded(PATH_KEYS, call.params, grounded)
  }

  // ---------- building ----------

  function Get(p: Params, key: string): string {
    if key in p then p[key] else ""
  }

  function Without(s: string, c: char): string {
    if s == "" then "" else (if s[0] == c then "" else [s[0]]) + Without(s[1..], c)
  }

  function Q(s: string): string {
    "\"" + (Without(s, '"') + "\"")
  }

  // A pattern left in the folder slot is split off as the selector.
  function FolderAndSelector(sd: string, sel: string): (string, string) {
    if '*' in sd || '?' in sd || '[' in sd then
      match FindLast(sd, '/')
      case Some(i) => (sd[..i], if sel == "" then sd[i + 1..] else sel)
      case None => (sd, sel)
    else (sd, sel)
  }

  function DirOf(quoted: string): string {
    "\"$(dirname " + (quoted + ")\"")
  }

  function Transfer(op: string, p: Params): Option<string> {
    var (sd, sel) := FolderAndSelector(Get(p, "source_dir"), Get(p, "selector"));
    var dest, nn, all := Get(p, "dest"), Get(p, "new_name"), Get(p, "recursive") == "true";
    var cf := if op == "cp" && all then "-r" else "";
    var depth := if all then [""] else ["-maxdepth", "1"];
    if sd == "" || dest == "" then None
    else if nn != "" && '*' !in sel then
      Some(Joined(OneFileWords(op, cf, if sel == "" then sd else sd + ("/" + sel), dest, nn)))
    else if sel == "" then Some(Joined(WholeFolderWords(op, cf, sd, dest)))
    else Some(Joined(MatchingWords(op, cf, depth, sd, sel, dest)))
  }

  function OneFileWords(op: string, cf: string, src: string, dest: string, nn: string): seq<string> {
    ["mkdir", "-p", Q(dest), "&&", op, cf, Q(src), Q(dest + ("/" + nn))]
  }

  function WholeFolderWords(op: string, cf: string, sd: string, dest: string): seq<string> {
    ["mkdir", "-p", Q(dest), "&&", op, cf, Q(sd), Q(dest) + "/"]
  }

  function MatchingWords(op: string, cf: string, depth: seq<string>, sd: string, sel: string, dest: string): seq<string>
  {
    ["mkdir", "-p", Q(dest), "&&", "if", "[", "-f", Q(sd), "];", "then", op, cf, Q(sd), Q(dest) + "/;", "else",
     "find", Q(sd)] + depth
    + ["-name", Q(sel), "-type", "f", "-exec", op, cf, "-t", Q(dest) + "/", "{}", "+;", "fi"]
  }

  function Inner(p: Params): Option<string> {
    var sd, sel := Get(p, "source_dir"), Get(p, "selector");
    match Get(p, "mode")
    case "value" =>
      var src, pat := Get(p, "source"), Get(p, "pattern");
      if src == "" || pat == "" then None else Some(Joined(FirstMatchWords(pat, src)))
    case "count" => if sd == "" then None else Some(Joined(FoundWords(sd, sel) + ["|", "wc", "-l"]))
    case "list" => if sd == "" then None else Some(Joined(FoundWords(sd, sel) + ["-printf", "'%f\\n'"]))
    case _ => None
  }

  function FirstMatchWords(pat: string, src: string): seq<string> {
    ["grep", "-oE", Q(pat), Q(src), "|", "head", "-1"]
  }

  function FoundWords(sd: string, sel: string): seq<string> {
    ["find", Q(sd), "-maxdepth", "1", "-name", Q(sel), "-type", "f"]
  }

  function FilterWords(filter: string): seq<string> {
    match filter
    case "empty" => ["-empty"]
    case "larger_than_1k" => ["-size", "+1k"]
    case _ => [""]
  }

  function CommandOf(call: Call): Option<string> {
    var p := call.params;
    match call.verb
    case "make_folder" => if Get(p, "path") == "" then None else Some(Joined(["mkdir", "-p", Q(Get(p, "path"))]))
    case "write_file" =>
      if Get(p, "path") == "" then None
      else Some(Joined(WriteFileWords(Get(p, "path"), Get(p, "content"))))
    case "move" => Transfer("mv", p)
    case "copy" => Transfer("cp", p)
    case "rename" =>
      if Get(p, "path") == "" || Get(p, "new_name") == "" then None
      else Some(Joined(RenameWords(Get(p, "path"), Get(p, "new_name"))))
    case "delete" =>
      var (sd, sel) := FolderAndSelector(Get(p, "source_dir"), Get(p, "selector"));
      if sd == "" || sel == "" then None else Some(Joined(DeleteWords(sd, sel, FilterWords(Get(p, "filter")))))
    case "extract_to_file" =>
      var dest := if Get(p, "dest_file") == "" then Get(p, "dest") else Get(p, "dest_file");
      if dest == "" then None
      else (
        match Inner(p)
        case None => None
        case Some(inner) => Some(Joined(ExtractWords(inner, dest)))
      )
    case _ => None
  }

  function WriteFileWords(path: string, content: string): seq<string> {
    ["mkdir", "-p", DirOf(Q(path)) + ";", "printf", "'%s'", Q(content), ">", Q(path)]
  }

  function RenameWords(path: string, nn: string): seq<string> {
    ["mv", Q(path), DirOf(Q(path)) + ("/" + Q(nn))]
  }

  function DeleteWords(sd: string, sel: string, filter: seq<string>): seq<string> {
    FoundWords(sd, sel) + filter + ["-exec", "rm", "-f", "{}", "+"]
  }

  function ExtractWords(inner: string, dest: string): seq<string> {
    ["mkdir", "-p", DirOf(Q(dest)) + ";", "printf", "'%s\\n'", "\"$(" + (inner + ")\""), ">", Q(dest)]
  }

  // One attempt: the call is read, checked and built, and any failure leaves nothing to execute.
  function Attempt(output: string, observed: seq<string>): Option<string> {
    match ReadOutput(output)
    case None => None
    case Some(call) => if Validate(call, observed).None? then CommandOf(call) else None
  }
}
