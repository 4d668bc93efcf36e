/** The lines of an encoded message, and what the decoder makes of each. */
module SseLines {

  import opened Sse

  // ---------- encoding

  function Split(s: string): (r: seq<string>)
    ensures |r| > 0 && forall k :: 0 <= k < |r| ==> '\n' !in r[k]
    decreases s
  {
    var i := IndexOf(s, '\n');
    if i == |s| then [s] else [s[..i]] + Split(s[i + 1..])
  }

  function Lines(lines: seq<string>): string {
    if lines == [] then "" else lines[0] + "\n" + Lines(lines[1..])
  }

  function Prefixed(prefix: string, lines: seq<string>): (r: seq<string>)
    ensures |r| == |lines|
  {
    seq(|lines|, i requires 0 <= i < |lines| => prefix + lines[i])
  }

  /** The lines of one event, its blank line last. */
  function EventLines(m: Message): seq<string> {
    (if m.comments.Some? then Prefixed(": ", m.comments.value) else [])
    + (if m.id.Some? then ["id: " + m.id.value] else [])
    + (if m.event.Some? then ["event: " + m.event.value] else [])
    + (if m.data.Some? then Prefixed("data: ", Split(m.data.value)) else [])
    + [""]
  }

  function Encode(m: Message): string { Lines(EventLines(m)) }

  function EncodeAll(ms: seq<Message>): string {
    if ms == [] then "" else Encode(ms[0]) + EncodeAll(ms[1..])
  }

  const DONE_EVENT := "data: [DONE]\n\n"

  // ---------- feeding lines

  function AfterLines(d: Decoder, lines: seq<string>): Decoder
    decreases lines
  {
    if lines == [] then d else AfterLines(LineState(d, lines[0]), lines[1..])
  }

  function LinesOutput(d: Decoder, lines: seq<string>): seq<Message>
    decreases lines
  {
    if lines == [] then [] else LineOutput(d, lines[0]) + LinesOutput(LineState(d, lines[0]), lines[1..])
  }

  predicate NoNewlines(lines: seq<string>) { forall k :: 0 <= k < |lines| ==> '\n' !in lines[k] }

  lemma LineStateKeeps(d: Decoder, raw: string)
    ensures LineState(d, raw).line == d.line
  {
  }

  lemma {:induction false} LinesFed(d: Decoder, lines: seq<string>)
    requires NoNewlines(lines) && d.line == ""
    ensures After(d, Lines(lines)) == AfterLines(d, lines) && Output(d, Lines(lines)) == LinesOutput(d, lines)
    decreases lines
  {
    hide LineState, LineOutput;
    if lines == [] {
    } else {
      var l, rest := lines[0], Lines(lines[1..]);
      LineFed(d, l);
      assert d.(line := "") == d && d.line + l == l;
      AfterAppend(d, l + "\n", rest);
      assert l + "\n" + rest == (l + "\n") + rest;
      LineStateKeeps(d, l);
      LinesFed(LineState(d, l), lines[1..]);
    }
  }

  lemma {:induction false} LinesAppend(d: Decoder, a: seq<string>, b: seq<string>)
    ensures AfterLines(d, a + b) == AfterLines(AfterLines(d, a), b)
    ensures LinesOutput(d, a + b) == LinesOutput(d, a) + LinesOutput(AfterLines(d, a), b)
    decreases a
  {
    hide LineState, LineOutput;
    if a == [] {
      assert a + b == b;
    } else {
      LinesAppend(LineState(d, a[0]), a[1..], b);
      assert (a + b)[0] == a[0] && (a + b)[1..] == a[1..] + b;
    }
  }

  lemma OneLine(d: Decoder, line: string)
    ensures AfterLines(d, [line]) == LineState(d, line) && LinesOutput(d, [line]) == LineOutput(d, line)
  {
    hide LineState, LineOutput;
    assert [line][1..] == [];
  }

  // ---------- what the decoder makes of a line

  /** What is left of a field value. */
  function ValueOf(s: string): string { SkipSpaces(StripEnd(s)) }

  lemma {:induction false} StripPrefix(prefix: string, s: string)
    requires prefix != "" && !IsEnd(prefix[|prefix| - 1])
    ensures StripEnd(prefix + s) == prefix + StripEnd(s)
    decreases s
  {
    var t := prefix + s;
    if s == "" {
      assert t == prefix;
    } else {
      assert t[|t| - 1] == s[|s| - 1] && t[..|t| - 1] == prefix + s[..|s| - 1];
      StripPrefix(prefix, s[..|s| - 1]);
    }
  }

  lemma FindColon(name: string, rest: string)
    requires ':' !in name
    ensures IndexOf(name + ":" + rest, ':') == |name|
  {
    var t := name + ":" + rest;
    assert t[|name|] == ':';
    assert forall k :: 0 <= k < |name| ==> t[k] == name[k];
  }

  lemma AnyField(d: Decoder, name: string, s: string)
    requires ':' !in name && name != ""
    ensures LineState(d, name + ": " + s) == SetField(d, name, ValueOf(s)) && LineOutput(d, name + ": " + s) == []
  {
    hide StripEnd, IndexOf, SetField;
    var t := StripEnd(s);
    StripPrefix(name + ": ", s);
    var line := name + ": " + t;
    assert line == name + ":" + (" " + t);
    FindColon(name, " " + t);
    assert line[|name| + 1..] == " " + t && line[..|name|] == name;
    assert (" " + t)[1..] == t;
    assert line[0] == name[0] && name[0] in name;
  }

  lemma AnyComment(d: Decoder, s: string)
    ensures LineState(d, ": " + s) == d.(comments := d.comments + [Trim(StripEnd(s))]) && LineOutput(d, ": " + s) == []
  {
    hide StripEnd, TrimBack;
    var t := StripEnd(s);
    StripPrefix(": ", s);
    var line := ": " + t;
    assert line[0] == ':' && line[1..] == " " + t && (" " + t)[1..] == t;
    assert TrimFront(" " + t) == TrimFront(t);
  }

  function Trimmed(cs: seq<string>): (r: seq<string>)
    ensures |r| == |cs| && forall k :: 0 <= k < |cs| ==> r[k] == Trim(StripEnd(cs[k]))
  {
    seq(|cs|, i requires 0 <= i < |cs| => Trim(StripEnd(cs[i])))
  }

  lemma {:induction false} AnyComments(d: Decoder, cs: seq<string>)
    ensures AfterLines(d, Prefixed(": ", cs)) == d.(comments := d.comments + Trimmed(cs)) && LinesOutput(d, Prefixed(": ", cs)) == []
    decreases cs
  {
    hide LineState, LineOutput, StripEnd, Trim;
    if cs == [] {
      assert d.comments + Trimmed(cs) == d.comments;
    } else {
      AnyComment(d, cs[0]);
      var ls, d1 := Prefixed(": ", cs), d.(comments := d.comments + [Trim(StripEnd(cs[0]))]);
      assert ls[0] == ": " + cs[0] && ls[1..] == Prefixed(": ", cs[1..]);
      AnyComments(d1, cs[1..]);
      assert d1.comments + Trimmed(cs[1..]) == d.comments + Trimmed(cs);
    }
  }

  /** What a run of data lines adds up to. */
  function Accumulate(data: string, lines: seq<string>): string
    decreases lines
  {
    if lines == [] then data
    else
      var v := ValueOf(lines[0]);
      Accumulate(if v == DONE then data else if data == "" then v else data + "\n" + v, lines[1..])
  }

  lemma {:induction false} AnyData(d: Decoder, lines: seq<string>)
    ensures AfterLines(d, Prefixed("data: ", lines)) == d.(data := Accumulate(d.data, lines))
    ensures LinesOutput(d, Prefixed("data: ", lines)) == []
    decreases lines
  {
    hide LineState, LineOutput, ValueOf;
    if lines == [] {
    } else {
      AnyField(d, "data", lines[0]);
      assert "data" + ": " + lines[0] == "data: " + lines[0];
      var ls, d1 := Prefixed("data: ", lines), SetField(d, "data", ValueOf(lines[0]));
      assert ls[0] == "data: " + lines[0] && ls[1..] == Prefixed("data: ", lines[1..]);
      AnyData(d1, lines[1..]);
    }
  }

  lemma NoLines(d: Decoder)
    ensures AfterLines(d, []) == d && LinesOutput(d, []) == []
  {
  }

  lemma BlankLine(d: Decoder)
    ensures LineState(d, "") == Cleared(d) && LineOutput(d, "") == Emit(d)
  {
  }

  // ---------- a whole message

  function IdOf(s: string): string { if '\0' in ValueOf(s) then "" else ValueOf(s) }

  /** The decoder's fields once a message's lines are in. */
  function Settled(m: Message): Decoder {
    Decoder("", if m.data.Some? then Accumulate("", Split(m.data.value)) else "", if m.event.Some? then ValueOf(m.event.value) else "",
            if m.id.Some? then IdOf(m.id.value) else "", if m.comments.Some? then Trimmed(m.comments.value) else [])
  }

  lemma FieldsFed(m: Message, body: seq<string>)
    requires body + [""] == EventLines(m)
    ensures AfterLines(START, body) == Settled(m) && LinesOutput(START, body) == []
  {
    hide LineState, LineOutput, AfterLines, LinesOutput, Split, ValueOf, Accumulate, Trim, StripEnd;
    var cs := if m.comments.Some? then Prefixed(": ", m.comments.value) else [];
    var i := if m.id.Some? then ["id: " + m.id.value] else [];
    var e := if m.event.Some? then ["event: " + m.event.value] else [];
    var ds := if m.data.Some? then Prefixed("data: ", Split(m.data.value)) else [];
    assert body == cs + i + e + ds by {
      assert (body + [""])[..|body|] == body;
      assert (cs + i + e + ds + [""])[..|body|] == cs + i + e + ds;
    }
    var d1 := START.(comments := Settled(m).comments);
    NoLines(START);
    if m.comments.Some? {
      AnyComments(START, m.comments.value);
      assert START.comments + Trimmed(m.comments.value) == Trimmed(m.comments.value);
    }
    var d2 := d1.(id := Settled(m).id);
    NoLines(d1);
    if m.id.Some? {
      AnyField(d1, "id", m.id.value);
      OneLine(d1, "id: " + m.id.value);
      assert "id" + ": " + m.id.value == "id: " + m.id.value;
    }
    var d3 := d2.(event := Settled(m).event);
    NoLines(d2);
    if m.event.Some? {
      AnyField(d2, "event", m.event.value);
      OneLine(d2, "event: " + m.event.value);
      assert "event" + ": " + m.event.value == "event: " + m.event.value;
    }
    NoLines(d3);
    if m.data.Some? { AnyData(d3, Split(m.data.value)); }
    LinesAppend(START, cs, i);
    LinesAppend(START, cs + i, e);
    LinesAppend(START, cs + i + e, ds);
  }

  /** One encoded message leaves the decoder as it was, and gives at most one message. */
  lemma MessageFed(m: Message)
    requires NoNewlines(EventLines(m))
    ensures After(START, Encode(m)) == START && Output(START, Encode(m)) == Emit(Settled(m))
  {
    hide LineState, LineOutput, AfterLines, LinesOutput, After, Output, Pending, Settled;
    var ls := EventLines(m);
    var body := ls[..|ls| - 1];
    assert ls == body + [""];
    LinesFed(START, ls);
    FieldsFed(m, body);
    LinesAppend(START, body, [""]);
    OneLine(Settled(m), "");
    BlankLine(Settled(m));
    SettledLine(m);
  }

  lemma SettledLine(m: Message)
    ensures Settled(m).line == ""
  {
  }
}
