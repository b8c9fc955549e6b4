/** The audit log: one timestamped line per event, and the events read back from the text. */
module Chronos {
  import opened Text
  import opened Wrappers

  datatype LogEvent = LogEvent(ts: int, text: string)

  // ---------- writing ----------

  // Line breaks would start a line without a timestamp.
  function Sanitised(event: string): string {
    if event == "" then ""
    else (if event[0] == '\n' || event[0] == '\r' then " | " else [event[0]]) + Sanitised(event[1..])
  }

  // The line without its line feed.
  function Entry(ts: nat, event: string): string {
    Decimal(ts) + ("\t" + Sanitised(event))
  }

  // An event as it comes, with the seconds since the epoch.
  datatype Logged = Logged(ts: nat, event: string)

  function Written(events: seq<Logged>): string {
    if events == [] then ""
    else Written(events[..|events| - 1]) + (Entry(events[|events| - 1].ts, events[|events| - 1].event) + "\n")
  }

  method Sanitise(event: string) returns (clean: string)
    ensures clean == Sanitised(event)
  {
    clean := "";
    var i := 0;
    assert event[0..] == event;
    while i < |event|
      invariant 0 <= i <= |event|
      invariant clean + Sanitised(event[i..]) == Sanitised(event)
    {
      assert event[i..][0] == event[i] && event[i..][1..] == event[i + 1..];
      clean := clean + (if event[i] == '\n' || event[i] == '\r' then " | " else [event[i]]);
      i := i + 1;
    }
    assert event[i..] == "";
  }

  class Log {
    var text: string
    ghost var events: seq<Logged>

    ghost predicate Valid()
      reads this
    {
      text == Written(events)
    }

    constructor ()
      ensures Valid() && events == []
    {
      text, events := "", [];
    }

    method Append(ts: nat, event: string)
      requires Valid()
      modifies this
      ensures Valid() && events == old(events) + [Logged(ts, event)]
      ensures text == old(text) + (Entry(ts, event) + "\n")
    {
      var clean := Sanitise(event);
      text := text + (Decimal(ts) + ("\t" + clean) + "\n");
      events := events + [Logged(ts, event)];
      assert events[..|events| - 1] == old(events);
    }

    method EventsBetween(from: int, to: int, filter: Option<string>, limit: nat) returns (out: seq<LogEvent>)
      requires Valid()
      ensures out == LastOf(Selected(Lines(text), from, to, Needle(filter)), limit)
    {
      out := ParseLogEvents(text, from, to, filter, limit);
    }
  }

  // ---------- reading ----------

  function EventOf(line: string): Option<LogEvent> {
    match Find(line, "\t")
    case None => None
    case Some(i) =>
      match ParseSigned(line[..i], 0x8000_0000_0000_0000)
      case None => None
      case Some(ts) => Some(LogEvent(ts, line[i + 1..]))
  }

  // A filter in lower case; an empty one is none.
  function Needle(filter: Option<string>): Option<string> {
    match filter
    case None => None
    case Some(f) => if f == "" then None else Some(Lower(f))
  }

  predicate Wanted(e: LogEvent, from: int, to: int, needle: Option<string>) {
    from <= e.ts < to && (needle.Some? ==> Contains(Lower(e.text), needle.value))
  }

  function Picked(line: string, from: int, to: int, needle: Option<string>): seq<LogEvent> {
    match EventOf(line)
    case None => []
    case Some(e) => if Wanted(e, from, to, needle) then [e] else []
  }

  function Selected(lines: seq<string>, from: int, to: int, needle: Option<string>): seq<LogEvent> {
    if lines == [] then []
    else
      Selected(lines[..|lines| - 1], from, to, needle) + Picked(lines[|lines| - 1], from, to, needle)
  }

  function LastOf<T>(s: seq<T>, limit: nat): seq<T> {
    if |s| > limit then s[|s| - limit..] else s
  }

  // The event of this line, where it is one and is asked for.
  method PickLine(line: string, from: int, to: int, needle: Option<string>) returns (picked: seq<LogEvent>)
    ensures picked == Picked(line, from, to, needle)
  {
    var e := EventOf(line);
    if e.None? || e.value.ts < from || e.value.ts >= to {
      return [];
    }
    if needle.Some? && !Contains(Lower(e.value.text), needle.value) {
      return [];
    }
    return [e.value];
  }

  method PickLines(lines: seq<string>, from: int, to: int, needle: Option<string>) returns (out: seq<LogEvent>)
    ensures out == Selected(lines, from, to, needle)
  {
    out := [];
    var i := 0;
    while i < |lines|
      invariant 0 <= i <= |lines|
      invariant out == Selected(lines[..i], from, to, needle)
    {
      assert lines[..i + 1][..i] == lines[..i];
      var picked := PickLine(lines[i], from, to, needle);
      out := out + picked;
      i := i + 1;
    }
    assert lines[..i] == lines;
  }

  method ParseLogEvents(text: string, from: int, to: int, filter: Option<string>, limit: nat)
    returns (out: seq<LogEvent>)
    ensures out == LastOf(Selected(Lines(text), from, to, Needle(filter)), limit)
  {
    out := PickLines(Lines(text), from, to, Needle(filter));
    if |out| > limit {
      out := out[|out| - limit..];
    }
  }

  // ---------- round trip ----------

  lemma {:induction false} SanitisedIsOneLine(event: string)
    ensures '\n' !in Sanitised(event) && '\r' !in Sanitised(event)
    ensures '\n' !in event && '\r' !in event ==> Sanitised(event) == event
  {
    if event == "" {
    } else {
      SanitisedIsOneLine(event[1..]);
      assert event == [event[0]] + event[1..];
    }
  }

  // Each line break by itself becomes a bar; everything else, tabs included, stays as it is.
  lemma {:induction false} SanitisedPiecewise(before: string, c: char, after: string)
    ensures Sanitised(before + ([c] + after))
            == Sanitised(before) + ((if c == '\n' || c == '\r' then " | " else [c]) + Sanitised(after))
    decreases before
  {
    var all := before + ([c] + after);
    if before == "" {
      assert all[1..] == after;
    } else {
      assert all[0] == before[0] && all[1..] == before[1..] + ([c] + after);
      SanitisedPiecewise(before[1..], c, after);
    }
  }

  lemma {:induction false} EntryIsOneLine(ts: nat, event: string)
    ensures '\n' !in Entry(ts, event) && WithoutReturn(Entry(ts, event)) == Entry(ts, event)
  {
    SanitisedIsOneLine(event);
    var entry := Entry(ts, event);
    assert '\n' !in Decimal(ts);
    assert entry[|entry| - 1] == if Sanitised(event) == "" then '\t' else Sanitised(event)[|Sanitised(event)| - 1];
    if Sanitised(event) != "" {
      assert Sanitised(event)[|Sanitised(event)| - 1] in Sanitised(event);
    }
  }

  lemma {:induction false} EntryRead(ts: nat, event: string)
    ensures EventOf(Entry(ts, event))
            == if ts < 0x8000_0000_0000_0000 then Some(LogEvent(ts, Sanitised(event))) else None
  {
    var entry := Entry(ts, event);
    FindFirst(Decimal(ts), '\t', Sanitised(event));
    assert entry[..|Decimal(ts)|] == Decimal(ts) && entry[|Decimal(ts)| + 1..] == Sanitised(event);
    DecimalParsed(ts);
  }

  function Entries(events: seq<Logged>): seq<string> {
    seq(|events|, i requires 0 <= i < |events| => Entry(events[i].ts, events[i].event))
  }

  lemma {:induction false} WrittenGrows(front: string, entry: string, rest: string)
    ensures (front + (entry + "\n")) + rest == front + (entry + ("\n" + rest))
  {
  }

  lemma {:induction false} EntriesGrow(events: seq<Logged>, lines: seq<string>)
    requires events != []
    ensures var n := |events| - 1;
            Entries(events[..n]) + ([Entry(events[n].ts, events[n].event)] + lines) == Entries(events) + lines
  {
    var n := |events| - 1;
    assert Entries(events) == Entries(events[..n]) + [Entry(events[n].ts, events[n].event)];
  }

  lemma {:induction false} LinesRead(events: seq<Logged>, rest: string)
    ensures Lines(Written(events) + rest) == Entries(events) + Lines(rest)
    decreases events
  {
    if events == [] {
      assert "" + rest == rest && [] + Lines(rest) == Lines(rest);
    } else {
      var front, last := events[..|events| - 1], events[|events| - 1];
      var entry := Entry(last.ts, last.event);
      LinesRead(front, entry + ("\n" + rest));
      WrittenGrows(Written(front), entry, rest);
      EntryIsOneLine(last.ts, last.event);
      FirstLineRead(entry, rest);
      EntriesGrow(events, Lines(rest));
    }
  }

  // The query asks for an event: its time is in the window, and it holds the filter, in whatever case, if there
  // is one.
  ghost predicate AsksFor(from: int, to: int, filter: Option<string>, e: LogEvent) {
    && from <= e.ts && e.ts < to
    && (filter.Some? && filter.value != "" ==> exists i :: StandsAt(Lower(e.text), Lower(filter.value), i))
  }

  lemma {:induction false} WantedExactly(from: int, to: int, filter: Option<string>, e: LogEvent)
    ensures Wanted(e, from, to, Needle(filter)) <==> AsksFor(from, to, filter, e)
  {
    if filter.Some? {
      ContainsExactly(Lower(e.text), Lower(filter.value));
    }
  }

  // The logged events that a query asks for, as they are read.
  ghost function Asked(events: seq<Logged>, from: int, to: int, filter: Option<string>): seq<LogEvent> {
    if events == [] then []
    else
      var last := events[|events| - 1];
      var e := LogEvent(last.ts, Sanitised(last.event));
      Asked(events[..|events| - 1], from, to, filter)
      + (if last.ts < 0x8000_0000_0000_0000 && AsksFor(from, to, filter, e) then [e] else [])
  }

  lemma {:induction false} SelectedAreAsked(events: seq<Logged>, from: int, to: int, filter: Option<string>)
    ensures Selected(Entries(events), from, to, Needle(filter)) == Asked(events, from, to, filter)
  {
    if events == [] {
    } else {
      var n := |events| - 1;
      SelectedAreAsked(events[..n], from, to, filter);
      assert Entries(events)[..n] == Entries(events[..n]);
      EntryRead(events[n].ts, events[n].event);
      WantedExactly(from, to, filter, LogEvent(events[n].ts, Sanitised(events[n].event)));
    }
  }

  /** Log and parse undo each other: from the text written for any sequence of events, a query gets
      exactly the last of those it asks for, in order, each with its timestamp and its text on one line. */
  lemma {:induction false} LogReadBack(events: seq<Logged>, from: int, to: int, filter: Option<string>, limit: nat)
    ensures var out := LastOf(Selected(Lines(Written(events)), from, to, Needle(filter)), limit);
            var asked := Asked(events, from, to, filter);
            && |out| == (if |asked| < limit then |asked| else limit)
            && out == asked[|asked| - |out|..]
  {
    LinesRead(events, "");
    assert Written(events) + "" == Written(events) && Entries(events) + [] == Entries(events);
    SelectedAreAsked(events, from, to, filter);
  }
}
