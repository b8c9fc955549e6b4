/** What becomes of a call the grammar allowed: its slots, the validator's verdict, and the command. */
module CapabilityChain {
  import opened CapabilityCall
  import opened CapabilityGrammar
  import opened CapabilityReadBack
  import opened Gbnf
  import opened Text
  import opened Wrappers

  // ---------- slots by key ----------

  predicate DistinctKeys(slots: seq<Slot>) {
    forall i, j | 0 <= i < j < |slots| :: slots[i].key != slots[j].key
  }

  predicate FilledAs(slots: seq<Slot>, fills: seq<Filler>, i: int, key: string)
    requires |slots| == |fills|
  {
    0 <= i < |slots| && !fills[i].Absent? && KeyName(slots[i].key) == key
  }

  // The parameters hold exactly the filled slots, each up to its outer angle brackets.
  ghost predicate SlotsRead(slots: seq<Slot>, fills: seq<Filler>, params: Params)
    requires |slots| == |fills|
  {
    && (forall key | key in params :: exists i :: FilledAs(slots, fills, i, key))
    && forall i, key | FilledAs(slots, fills, i, key) :: key in params && params[key] == Strip(Value(fills[i]), "<>")
  }

  lemma {:induction false} PresentRead(slots: seq<Slot>, fills: seq<Filler>)
    requires |slots| == |fills| && DistinctKeys(slots)
    ensures SlotsRead(slots, fills, Slots(Present(slots, fills)))
    decreases |slots|
  {
    if slots == [] {
    } else {
      var slots1, fills1 := slots[1..], fills[1..];
      var more := Slots(Present(slots1, fills1));
      PresentRead(slots1, fills1);
      MoreRead(slots, fills, more);
      if !fills[0].Absent? {
        var args := [ArgOf(slots[0], fills[0])] + Present(slots1, fills1);
        assert args[1..] == Present(slots1, fills1);
      }
    }
  }

  lemma {:induction false} MoreRead(slots: seq<Slot>, fills: seq<Filler>, more: Params)
    requires |slots| == |fills| > 0 && DistinctKeys(slots)
    requires SlotsRead(slots[1..], fills[1..], more)
    ensures fills[0].Absent? ==> SlotsRead(slots, fills, more)
    ensures !fills[0].Absent? ==>
              SlotsRead(slots, fills, map[KeyName(slots[0].key) := Strip(Value(fills[0]), "<>")] + more)
  {
    forall key | key in more ensures exists i :: FilledAs(slots, fills, i, key) && i > 0 {
      var i :| FilledAs(slots[1..], fills[1..], i, key);
      assert FilledAs(slots, fills, i + 1, key);
    }
    forall i, key | FilledAs(slots, fills, i, key) && i > 0
      ensures key in more && more[key] == Strip(Value(fills[i]), "<>")
    {
      assert FilledAs(slots[1..], fills[1..], i - 1, key);
    }
    if !fills[0].Absent? {
      assert FilledAs(slots, fills, 0, KeyName(slots[0].key));
      forall i, key | FilledAs(slots, fills, i, key) && i > 0 ensures key != KeyName(slots[0].key) {
        KeysDiffer(slots[0].key, slots[i].key);
      }
    }
  }

  lemma {:induction false} ShapesDistinct(shape: Shape)
    ensures DistinctKeys(SlotsOf(shape))
  {
  }

  lemma {:induction false} MeantRead(d: Derivation)
    requires |d.fills| == |SlotsOf(d.shape)|
    ensures SlotsRead(SlotsOf(d.shape), d.fills, Meant(d).params)
  {
    ShapesDistinct(d.shape);
    PresentRead(SlotsOf(d.shape), d.fills);
  }

  lemma {:induction false} GetFilled(d: Derivation, i: nat)
    requires |d.fills| == |SlotsOf(d.shape)| && i < |d.fills|
    ensures Get(Meant(d).params, KeyName(SlotsOf(d.shape)[i].key)) == Strip(Value(d.fills[i]), "<>")
  {
    var slots, key := SlotsOf(d.shape), KeyName(SlotsOf(d.shape)[i].key);
    MeantRead(d);
    ShapesDistinct(d.shape);
    if d.fills[i].Absent? {
      if key in Meant(d).params {
        var j :| FilledAs(slots, d.fills, j, key);
        KeysDiffer(slots[i].key, slots[j].key);
        assert false;
      }
    } else {
      assert FilledAs(slots, d.fills, i, key);
    }
  }

  // ---------- the validator ----------

  predicate IsPath(f: Filler) {
    f.Observed? || f.Child?
  }

  predicate CleanPath(p: string) {
    StartsWith(p, "/") && !Contains(p, "..")
  }

  predicate PathOk(f: Filler)
    requires IsPath(f)
  {
    CleanPath(f.path) && (f.Child? ==> !Contains(f.seg, ".."))
  }

  /** Related paths are the same, or one lies beneath the other, at a slash. */
  lemma {:induction false} RelatedExactly(v: string, g: string)
    ensures Related(v, g) <==> v == g || (exists rest :: v == g + ("/" + rest)) || exists rest :: g == v + ("/" + rest)
  {
    BeneathExactly(v, g);
    BeneathExactly(g, v);
  }

  lemma {:induction false} BeneathExactly(v: string, g: string)
    ensures StartsWith(v, g + "/") <==> exists rest :: v == g + ("/" + rest)
  {
    if StartsWith(v, g + "/") {
      assert v == (g + "/") + v[|g| + 1..];
      assert v == g + ("/" + v[|g| + 1..]);
    }
    forall rest | v == g + ("/" + rest) ensures StartsWith(v, g + "/") {
      assert v == (g + "/") + rest;
    }
  }

  lemma {:induction false} ChecksEveryKey(keys: seq<string>, params: Params, grounded: seq<string>)
    ensures FirstUngrounded(keys, params, grounded).None?
            <==> forall k | k in keys && k in params :: Grounded(params[k], grounded)
    decreases |keys|
  {
    if keys == [] {
    } else {
      ChecksEveryKey(keys[1..], params, grounded);
      assert keys == [keys[0]] + keys[1..];
    }
  }

  // An absolute path with nothing of ".." in it that is, lies beneath or lies above one that was seen.
  ghost predicate Trusted(v: string, grounded: seq<string>) {
    && v != "" && v[0] == '/' && (forall i :: !StandsAt(v, "..", i))
    && exists g :: g in grounded && Near(v, g)
  }

  ghost predicate Near(v: string, g: string) {
    v == g || (exists rest :: v == g + ("/" + rest)) || exists rest :: g == v + ("/" + rest)
  }

  predicate IsVerb(verb: string) {
    || verb == "make_folder" || verb == "write_file" || verb == "move" || verb == "copy" || verb == "rename"
    || verb == "delete" || verb == "extract_to_file"
  }

  // The slots that name paths, in the order they are looked at.
  function PathSlot(i: nat): string
    requires i < 5
  {
    match i
    case 0 => "path"
    case 1 => "source_dir"
    case 2 => "source"
    case 3 => "dest"
    case 4 => "dest_file"
  }

  lemma {:induction false} TrustedExactly(v: string, grounded: seq<string>)
    ensures Grounded(v, grounded) <==> Trusted(v, grounded)
  {
    ContainsExactly(v, "..");
    assert StartsWith(v, "/") <==> v != "" && v[0] == '/' by {
      if v != "" {
        assert v[..1] == [v[0]];
      }
    }
    forall g ensures Related(v, g) <==> Near(v, g) {
      RelatedExactly(v, g);
    }
  }

  lemma {:induction false} FirstRefused(keys: seq<string>, params: Params, grounded: seq<string>)
    ensures match FirstUngrounded(keys, params, grounded)
            case None => forall i | 0 <= i < |keys| && keys[i] in params :: Grounded(params[keys[i]], grounded)
            case Some(refusal) =>
              exists i :: 0 <= i < |keys| && keys[i] in params
                          && refusal == Ungrounded(keys[i], params[keys[i]]) && !Grounded(params[keys[i]], grounded)
                          && forall j | 0 <= j < i && keys[j] in params :: Grounded(params[keys[j]], grounded)
    decreases |keys|
  {
    if keys == [] {
    } else if keys[0] in params && !Grounded(params[keys[0]], grounded) {
    } else {
      FirstRefused(keys[1..], params, grounded);
      if FirstUngrounded(keys[1..], params, grounded).Some? {
        var i :| 0 <= i < |keys[1..]| && keys[1..][i] in params
                 && FirstUngrounded(keys, params, grounded).value == Ungrounded(keys[1..][i], params[keys[1..][i]])
                 && !Grounded(params[keys[1..][i]], grounded)
                 && forall j | 0 <= j < i && keys[1..][j] in params :: Grounded(params[keys[1..][j]], grounded);
        assert keys[i + 1] == keys[1..][i];
        forall j | 0 <= j < i + 1 && keys[j] in params ensures Grounded(params[keys[j]], grounded) {
          assert j > 0 ==> keys[j] == keys[1..][j - 1];
        }
      } else {
        forall i | 0 <= i < |keys| && keys[i] in params ensures Grounded(params[keys[i]], grounded) {
          assert i > 0 ==> keys[i] == keys[1..][i - 1];
        }
      }
    }
  }

  lemma {:induction false} VerbsExactly(verb: string)
    ensures verb in VERBS <==> IsVerb(verb)
  {
    assert VERBS[0] in VERBS && VERBS[1] in VERBS && VERBS[2] in VERBS && VERBS[3] in VERBS;
    assert VERBS[4] in VERBS && VERBS[5] in VERBS && VERBS[6] in VERBS;
  }

  /** The validator, for every call: an unknown verb is refused by name; of a known one, each path slot that is there
      must be trusted, and the first that is not is refused with its value. */
  lemma {:induction false} ValidateExactly(call: Call, grounded: seq<string>)
    ensures match Validate(call, grounded)
            case None =>
              && IsVerb(call.verb)
              && forall i: nat | i < 5 && PathSlot(i) in call.params :: Trusted(call.params[PathSlot(i)], grounded)
            case Some(UnknownVerb(verb)) => verb == call.verb && !IsVerb(verb)
            case Some(Ungrounded(key, value)) =>
              && IsVerb(call.verb)
              && exists i: nat :: i < 5 && key == PathSlot(i) && key in call.params && value == call.params[key]
                                  && !Trusted(value, grounded)
                                  && forall j: nat | j < i && PathSlot(j) in call.params ::
                                       Trusted(call.params[PathSlot(j)], grounded)
  {
    VerbsExactly(call.verb);
    forall v ensures Grounded(v, grounded) <==> Trusted(v, grounded) {
      TrustedExactly(v, grounded);
    }
    if call.verb in VERBS {
      FirstRefused(PATH_KEYS, call.params, grounded);
      SlotsInOrder();
      if Validate(call, grounded).Some? {
        var i :| 0 <= i < |PATH_KEYS| && PATH_KEYS[i] in call.params
                 && Validate(call, grounded).value == Ungrounded(PATH_KEYS[i], call.params[PATH_KEYS[i]])
                 && !Grounded(call.params[PATH_KEYS[i]], grounded)
                 && forall j | 0 <= j < i && PATH_KEYS[j] in call.params ::
                      Grounded(call.params[PATH_KEYS[j]], grounded);
        assert PathSlot(i) == PATH_KEYS[i];
      }
    }
  }

  lemma {:induction false} SlotsInOrder()
    ensures |PATH_KEYS| == 5 && forall i: nat | i < 5 :: PATH_KEYS[i] == PathSlot(i)
  {
  }

  /** A pattern in the folder slot is split at its last slash: what stands behind is the selector, where there is none;
      any other folder slot stays as it is. */
  lemma {:induction false} FolderSplitExactly(sd: string, sel: string, folder: string, last: string)
    ensures ('*' !in sd && '?' !in sd && '[' !in sd) || '/' !in sd ==> FolderAndSelector(sd, sel) == (sd, sel)
    ensures sd == folder + ("/" + last) && '/' !in last && ('*' in sd || '?' in sd || '[' in sd) ==>
              FolderAndSelector(sd, sel) == (folder, if sel == "" then last else sel)
  {
    if sd == folder + ("/" + last) && '/' !in last {
      var k := FindLast(sd, '/');
      assert sd[|folder|] == '/' && '/' in sd;
      forall j | k.value < j < |sd| ensures sd[j] != '/' {
        assert sd[j] == sd[k.value + 1..][j - k.value - 1];
      }
      forall j | |folder| < j < |sd| ensures sd[j] != '/' {
        assert sd[j] == last[j - |folder| - 1];
      }
      assert k.value == |folder| && sd[..|folder|] == folder && sd[|folder| + 1..] == last;
    }
  }

  lemma {:induction false} DotsIn(s: string, i: int)
    ensures StandsAt(s, "..", i) <==> 0 <= i && i + 1 < |s| && s[i] == '.' && s[i + 1] == '.'
  {
    if 0 <= i && i + 1 < |s| {
      assert s[i..i + 2] == [s[i], s[i + 1]];
    }
  }

  lemma {:induction false} DotsKept(p: string, seg: string, i: int)
    ensures StandsAt(p, "..", i) ==> StandsAt(p + ("/" + seg), "..", i)
    ensures StandsAt(seg, "..", i) ==> StandsAt(p + ("/" + seg), "..", |p| + 1 + i)
  {
    DotsIn(p, i);
    DotsIn(seg, i);
    DotsIn(p + ("/" + seg), i);
    DotsIn(p + ("/" + seg), |p| + 1 + i);
  }

  lemma {:induction false} DotsFrom(p: string, seg: string, i: int)
    requires StandsAt(p + ("/" + seg), "..", i)
    ensures StandsAt(p, "..", i) || StandsAt(seg, "..", i - |p| - 1)
  {
    DotsIn(p, i);
    DotsIn(seg, i - |p| - 1);
    DotsIn(p + ("/" + seg), i);
  }

  // Two dots cannot straddle a slash.
  lemma {:induction false} DotsApart(p: string, seg: string)
    ensures Contains(p + ("/" + seg), "..") <==> Contains(p, "..") || Contains(seg, "..")
  {
    var s := p + ("/" + seg);
    ContainsExactly(s, "..");
    ContainsExactly(p, "..");
    ContainsExactly(seg, "..");
    forall i | StandsAt(p, "..", i) ensures StandsAt(s, "..", i) {
      DotsKept(p, seg, i);
    }
    forall i | StandsAt(seg, "..", i) ensures StandsAt(s, "..", |p| + 1 + i) {
      DotsKept(p, seg, i);
    }
    forall i | StandsAt(s, "..", i) ensures StandsAt(p, "..", i) || StandsAt(seg, "..", i - |p| - 1) {
      DotsFrom(p, seg, i);
    }
  }

  lemma {:induction false} GroundedExactly(f: Filler, observed: seq<string>)
    requires IsPath(f) && f.path in observed && f.path != ""
    ensures Grounded(Value(f), observed) <==> PathOk(f)
  {
    if f.Child? {
      DotsApart(f.path, f.seg);
      assert Value(f)[..|f.path + "/"|] == f.path + "/";
      assert Value(f)[..1] == f.path[..1];
    }
    assert Related(Value(f), f.path);
  }

  predicate IsPathKey(k: Key) {
    k.PathKey? || k.SourceDir? || k.SourceFile? || k.DestKey? || k.DestFile?
  }

  lemma {:induction false} PathKeysExactly(k: Key)
    ensures KeyName(k) in PATH_KEYS <==> IsPathKey(k)
  {
    assert PATH_KEYS
        == [KeyName(PathKey), KeyName(SourceDir), KeyName(SourceFile), KeyName(DestKey), KeyName(DestFile)];
    if IsPathKey(k) {
      assert PATH_KEYS[0] == KeyName(PathKey) && PATH_KEYS[1] == KeyName(SourceDir);
      assert PATH_KEYS[2] == KeyName(SourceFile);
      assert PATH_KEYS[3] == KeyName(DestKey) && PATH_KEYS[4] == KeyName(DestFile);
    } else {
      KeysDiffer(k, PathKey);
      KeysDiffer(k, SourceDir);
      KeysDiffer(k, SourceFile);
      KeysDiffer(k, DestKey);
      KeysDiffer(k, DestFile);
    }
  }

  // The grammar binds exactly the slots the validator checks.
  lemma {:induction false} BoundSlotsAreChecked(shape: Shape, i: nat)
    requires i < |SlotsOf(shape)|
    ensures var slot := SlotsOf(shape)[i]; (slot.form.Source? || slot.form.Dest?) <==> IsPathKey(slot.key)
  {
  }

  lemma {:induction false} SlotChecked(d: Derivation, observed: seq<string>, i: nat)
    requires Fits(d, observed) && SafePaths(observed) != [] && i < |d.fills| && !d.fills[i].Absent?
    ensures KeyName(SlotsOf(d.shape)[i].key) in PATH_KEYS <==> IsPath(d.fills[i])
    ensures IsPath(d.fills[i]) ==>
              && d.fills[i].path in observed && Strip(Value(d.fills[i]), "<>") == Value(d.fills[i]) != ""
              && (Grounded(Value(d.fills[i]), observed) <==> PathOk(d.fills[i]))
  {
    var slot, f := SlotsOf(d.shape)[i], d.fills[i];
    PathKeysExactly(slot.key);
    BoundSlotsAreChecked(d.shape, i);
    assert SlotFits(slot, f, SafePaths(observed));
    if IsPath(f) {
      PathValue(f);
      assert Value(f)[0] in Value(f) && Value(f)[|Value(f)| - 1] in Value(f);
      NoOuter(Value(f), "<>");
      GroundedExactly(f, observed);
    }
  }

  lemma {:induction false} VerbKnown(shape: Shape)
    ensures Verb(shape) in VERBS
  {
    assert VERBS[0] == "make_folder" && VERBS[1] == "write_file" && VERBS[2] == "move" && VERBS[3] == "copy";
    assert VERBS[4] == "rename" && VERBS[5] == "delete" && VERBS[6] == "extract_to_file";
  }

  /** The validator accepts a derivable call exactly when every path it uses is absolute and free of
      "..", the new part of a new child included. */
  lemma {:induction false} AcceptedExactly(d: Derivation, observed: seq<string>)
    requires Fits(d, observed) && SafePaths(observed) != []
    ensures Validate(Meant(d), observed).None?
            <==> forall i | 0 <= i < |d.fills| && IsPath(d.fills[i]) :: PathOk(d.fills[i])
  {
    var slots, params := SlotsOf(d.shape), Meant(d).params;
    VerbKnown(d.shape);
    MeantRead(d);
    ChecksEveryKey(PATH_KEYS, params, observed);
    if FirstUngrounded(PATH_KEYS, params, observed).None? {
      forall i | 0 <= i < |d.fills| && IsPath(d.fills[i]) ensures PathOk(d.fills[i]) {
        SlotChecked(d, observed, i);
        assert FilledAs(slots, d.fills, i, KeyName(slots[i].key));
      }
    }
    if forall i | 0 <= i < |d.fills| && IsPath(d.fills[i]) :: PathOk(d.fills[i]) {
      forall key | key in PATH_KEYS && key in params ensures Grounded(params[key], observed) {
        var i :| FilledAs(slots, d.fills, i, key);
        SlotChecked(d, observed, i);
      }
    }
  }

  /** Where every safe observed path is absolute and free of "..", only a new child's own part can be
      refused. */
  lemma {:induction false} AcceptedUnlessDotsInChild(d: Derivation, observed: seq<string>)
    requires Fits(d, observed) && SafePaths(observed) != [] && forall p | p in SafePaths(observed) :: CleanPath(p)
    ensures Validate(Meant(d), observed).None?
            <==> forall i | 0 <= i < |d.fills| && d.fills[i].Child? :: !Contains(d.fills[i].seg, "..")
  {
    AcceptedExactly(d, observed);
    forall i | 0 <= i < |d.fills| && IsPath(d.fills[i])
      ensures PathOk(d.fills[i]) <==> (d.fills[i].Child? ==> !Contains(d.fills[i].seg, ".."))
    {
      assert SlotFits(SlotsOf(d.shape)[i], d.fills[i], SafePaths(observed));
    }
  }

  // ---------- the command ----------

  // A slot the command cannot do without was left empty, or holds only angle brackets.
  predicate LacksSlot(d: Derivation)
    requires |d.fills| == |SlotsOf(d.shape)|
  {
    match d.shape
    case Rename => Strip(Value(d.fills[1]), "<>") == ""
    case Delete => Strip(Value(d.fills[1]), "<>") == ""
    case ExtractValue => Strip(Value(d.fills[2]), "<>") == ""
    case _ => false
  }

  lemma {:induction false} PathGet(d: Derivation, observed: seq<string>, i: nat)
    requires Fits(d, observed) && SafePaths(observed) != [] && i < |d.fills|
    requires IsPathKey(SlotsOf(d.shape)[i].key)
    ensures IsPath(d.fills[i]) && Value(d.fills[i]) != ""
    ensures Get(Meant(d).params, KeyName(SlotsOf(d.shape)[i].key)) == Value(d.fills[i])
    ensures forall sel :: FolderAndSelector(Value(d.fills[i]), sel) == (Value(d.fills[i]), sel)
  {
    BoundSlotsAreChecked(d.shape, i);
    PathSlotsFilled(d.shape, i);
    assert SlotFits(SlotsOf(d.shape)[i], d.fills[i], SafePaths(observed));
    PathValue(d.fills[i]);
    GetFilled(d, i);
    SlotChecked(d, observed, i);
  }

  lemma {:induction false} PathSlotsFilled(shape: Shape, i: nat)
    requires i < |SlotsOf(shape)| && IsPathKey(SlotsOf(shape)[i].key)
    ensures !SlotsOf(shape)[i].optional
  {
  }

  // What each verb cannot do without.
  predicate TransferLacks(p: Params) {
    FolderAndSelector(Get(p, "source_dir"), Get(p, "selector")).0 == "" || Get(p, "dest") == ""
  }

  predicate InnerLacks(p: Params) {
    match Get(p, "mode")
    case "value" => Get(p, "source") == "" || Get(p, "pattern") == ""
    case "count" => Get(p, "source_dir") == ""
    case "list" => Get(p, "source_dir") == ""
    case _ => true
  }

  predicate Lacks(call: Call) {
    var p := call.params;
    match call.verb
    case "make_folder" => Get(p, "path") == ""
    case "write_file" => Get(p, "path") == ""
    case "move" => TransferLacks(p)
    case "copy" => TransferLacks(p)
    case "rename" => Get(p, "path") == "" || Get(p, "new_name") == ""
    case "delete" =>
      var (sd, sel) := FolderAndSelector(Get(p, "source_dir"), Get(p, "selector"));
      sd == "" || sel == ""
    case "extract_to_file" => (Get(p, "dest_file") == "" && Get(p, "dest") == "") || InnerLacks(p)
    case _ => true
  }

  lemma {:induction false} TransferBuiltExactly(op: string, p: Params)
    ensures Transfer(op, p).None? <==> TransferLacks(p)
  {
  }

  lemma {:induction false} InnerBuiltExactly(p: Params)
    ensures Inner(p).None? <==> InnerLacks(p)
  {
  }

  /** For every call whatsoever: no command exactly when the verb is unknown or a slot it needs is empty. */
  lemma {:induction false} BuiltExactly(call: Call)
    ensures CommandOf(call).None? <==> Lacks(call)
  {
    TransferBuiltExactly("mv", call.params);
    TransferBuiltExactly("cp", call.params);
    InnerBuiltExactly(call.params);
  }

  lemma {:induction false} ModeWord(d: Derivation, observed: seq<string>)
    requires Fits(d, observed)
    ensures d.shape.ExtractValue? ==> Get(Meant(d).params, "mode") == "value"
    ensures d.shape.ExtractCount? ==> Get(Meant(d).params, "mode") == "count"
    ensures d.shape.ExtractList? ==> Get(Meant(d).params, "mode") == "list"
  {
    var slot := SlotsOf(d.shape)[0];
    assert SlotFits(slot, d.fills[0], SafePaths(observed));
    if d.shape.ExtractValue? || d.shape.ExtractCount? || d.shape.ExtractList? {
      assert d.fills[0].word == slot.form.choices[0];
      NoOuter(d.fills[0].word, "<>");
      GetFilled(d, 0);
    }
  }

  // What the command builder gets from the i-th slot, called by this name.
  lemma {:induction false} PathAt(d: Derivation, observed: seq<string>, i: nat, name: string)
    requires Fits(d, observed) && SafePaths(observed) != [] && i < |d.fills|
    requires IsPathKey(SlotsOf(d.shape)[i].key) && KeyName(SlotsOf(d.shape)[i].key) == name
    ensures var v := Get(Meant(d).params, name); v != "" && forall sel :: FolderAndSelector(v, sel) == (v, sel)
  {
    PathGet(d, observed, i);
  }

  lemma {:induction false} TextAt(d: Derivation, i: nat, name: string)
    requires |d.fills| == |SlotsOf(d.shape)| && i < |d.fills| && KeyName(SlotsOf(d.shape)[i].key) == name
    ensures Get(Meant(d).params, name) == Strip(Value(d.fills[i]), "<>")
  {
    GetFilled(d, i);
  }

  lemma {:induction false} TransferComplete(d: Derivation, observed: seq<string>)
    requires Fits(d, observed) && SafePaths(observed) != [] && (d.shape.Move? || d.shape.Copy?)
    ensures !Lacks(Meant(d))
  {
    PathAt(d, observed, 0, "source_dir");
    PathAt(d, observed, 2, "dest");
  }

  lemma {:induction false} PathComplete(d: Derivation, observed: seq<string>)
    requires Fits(d, observed) && SafePaths(observed) != [] && (d.shape.MakeFolder? || d.shape.WriteFile?)
    ensures !Lacks(Meant(d))
  {
    PathAt(d, observed, 0, "path");
  }

  lemma {:induction false} RenameLacks(d: Derivation, observed: seq<string>)
    requires Fits(d, observed) && SafePaths(observed) != [] && d.shape.Rename?
    ensures Lacks(Meant(d)) <==> Strip(Value(d.fills[1]), "<>") == ""
  {
    PathAt(d, observed, 0, "path");
    TextAt(d, 1, "new_name");
  }

  lemma {:induction false} DeleteLacks(d: Derivation, observed: seq<string>)
    requires Fits(d, observed) && SafePaths(observed) != [] && d.shape.Delete?
    ensures Lacks(Meant(d)) <==> Strip(Value(d.fills[1]), "<>") == ""
  {
    PathAt(d, observed, 0, "source_dir");
    TextAt(d, 1, "selector");
  }

  lemma {:induction false} ValueLacks(d: Derivation, observed: seq<string>)
    requires Fits(d, observed) && SafePaths(observed) != [] && d.shape.ExtractValue?
    ensures Lacks(Meant(d)) <==> Strip(Value(d.fills[2]), "<>") == ""
  {
    ModeWord(d, observed);
    PathAt(d, observed, 1, "source");
    TextAt(d, 2, "pattern");
    PathAt(d, observed, 3, "dest_file");
    InnerOfMode(Meant(d).params);
    ExtractLacks(Meant(d));
  }

  lemma {:induction false} FolderComplete(d: Derivation, observed: seq<string>)
    requires Fits(d, observed) && SafePaths(observed) != [] && (d.shape.ExtractCount? || d.shape.ExtractList?)
    ensures !Lacks(Meant(d))
  {
    ModeWord(d, observed);
    PathAt(d, observed, 1, "source_dir");
    PathAt(d, observed, 3, "dest_file");
    InnerOfMode(Meant(d).params);
    ExtractLacks(Meant(d));
  }

  lemma {:induction false} InnerOfMode(p: Params)
    ensures Get(p, "mode") == "value" ==> (InnerLacks(p) <==> Get(p, "source") == "" || Get(p, "pattern") == "")
    ensures Get(p, "mode") == "count" || Get(p, "mode") == "list" ==> (InnerLacks(p) <==> Get(p, "source_dir") == "")
  {
  }

  lemma {:induction false} ExtractLacks(call: Call)
    requires call.verb == "extract_to_file" && Get(call.params, "dest_file") != ""
    ensures Lacks(call) <==> InnerLacks(call.params)
  {
  }

  lemma {:induction false} LacksExactly(d: Derivation, observed: seq<string>)
    requires Fits(d, observed) && SafePaths(observed) != []
    ensures Lacks(Meant(d)) <==> LacksSlot(d)
  {
    match d.shape
    case Rename => RenameLacks(d, observed);
    case Delete => DeleteLacks(d, observed);
    case ExtractValue => ValueLacks(d, observed);
    case Move => TransferComplete(d, observed);
    case Copy => TransferComplete(d, observed);
    case MakeFolder => PathComplete(d, observed);
    case WriteFile => PathComplete(d, observed);
    case _ => FolderComplete(d, observed);
  }

  /** A derivable call builds a command unless it deletes without a selector, renames without a name or
      extracts without a pattern. */
  lemma {:induction false} CommandBuiltExactly(d: Derivation, observed: seq<string>)
    requires Fits(d, observed) && SafePaths(observed) != []
    ensures CommandOf(Meant(d)).None? <==> LacksSlot(d)
  {
    BuiltExactly(Meant(d));
    LacksExactly(d, observed);
  }
}
