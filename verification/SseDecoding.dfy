/** The incremental decoder and the encoder as the code runs them. */
module SseDecoding {

  import opened Sse
  import opened SseLines
  import opened Options

  /** Feeding a chunk that has a newline in it: its first line, then the rest. */
  lemma FirstLine(d: Decoder, line: string, rest: string)
    requires '\n' !in line
    ensures var d1 := LineState(d.(line := ""), d.line + line);
            && After(d, line + "\n" + rest) == After(d1, rest)
            && Output(d, line + "\n" + rest) == LineOutput(d.(line := ""), d.line + line) + Output(d1, rest)
  {
    hide LineState, LineOutput;
    LineFed(d, line);
    AfterAppend(d, line + "\n", rest);
  }

  /** The end of the stream counts as the end of the line and of the event. */
  function FinishOutput(d: Decoder): seq<Message> { Output(d, "\n\n") }

  lemma FinishSteps(d: Decoder)
    ensures var d1 := LineState(d.(line := ""), d.line);
            && FinishOutput(d) == LineOutput(d.(line := ""), d.line) + LineOutput(d1.(line := ""), d1.line)
            && After(d, "\n\n") == LineState(d1.(line := ""), d1.line)
  {
    hide LineState, LineOutput;
    assert "" + "\n" + "\n" == "\n\n" && d.line + "" == d.line;
    FirstLine(d, "", "\n");
    var d1 := LineState(d.(line := ""), d.line);
    assert d1.line + "" == d1.line && "" + "\n" == "\n";
    LineFed(d1, "");
  }

  lemma FinishBlank(d: Decoder)
    requires d.line == ""
    ensures FinishOutput(d) == Emit(d) && After(d, "\n\n") == Cleared(d)
  {
    hide After, FinishOutput, Pending;
    FinishSteps(d);
    BlankLine(d);
    BlankLine(Cleared(d));
    NothingPending(d);
  }

  lemma NothingPending(d: Decoder)
    ensures Emit(Cleared(d)) == []
  {
  }

  lemma FinishLine(d: Decoder)
    requires d.line != ""
    ensures var d0 := d.(line := "");
            var d1, out := LineState(d0, d.line), LineOutput(d0, d.line);
            if out != [] then |out| == 1 && FinishOutput(d) == out && After(d, "\n\n") == d1
            else FinishOutput(d) == Emit(d1) && After(d, "\n\n") == Cleared(d1)
  {
    hide After, FinishOutput, Pending, TakeLine, StripEnd;
    FinishSteps(d);
    var d0 := d.(line := "");
    var d1 := LineState(d0, d.line);
    LineStateKeeps(d0, d.line);
    BlankLine(d1);
    NothingPending(d0);
  }

  class SseDecoder {
    var lineBuffer: string
    var data: string
    var event: string
    var id: string
    var comments: seq<string>

    ghost function State(): Decoder
      reads this
    {
      Decoder(lineBuffer, data, event, id, comments)
    }

    constructor ()
      ensures State() == START
    {
      lineBuffer, data, event, id, comments := "", "", "", "", [];
    }

    method TakePending() returns (m: Option<Message>)
      modifies this
      ensures State() == Cleared(old(State()))
      ensures m == if NoFields(Pending(old(State()))) then None else Some(Pending(old(State())))
    {
      if data == "" && event == "" && id == "" && comments == [] {
        return None;
      }
      var message := Message(None, None, None, None);
      if data != "" {
        if data[|data| - 1] == '\n' {
          data := data[..|data| - 1];
        }
        if data != "" {
          message := message.(data := Some(data));
        }
      }
      if id != "" {
        message := message.(id := Some(id));
      }
      if event != "" {
        message := message.(event := Some(event));
      }
      if comments != [] {
        message := message.(comments := Some(comments));
      }
      data, id, event, comments := "", "", "", [];
      m := if NoFields(message) then None else Some(message);
    }

    /** Handles one line, without its newline; the messages it completes go to the end of `out`. */
    method ProcessLine(raw: string, out: seq<Message>) returns (r: seq<Message>)
      modifies this
      ensures State() == LineState(old(State()), raw) && r == out + LineOutput(old(State()), raw)
    {
      var line := raw;
      while line != "" && (line[|line| - 1] == '\r' || line[|line| - 1] == '\n')
        invariant StripEnd(line) == StripEnd(raw)
        modifies {}
        decreases |line|
      {
        line := line[..|line| - 1];
      }
      r := out;
      if line == "" {
        var m := TakePending();
        if m.Some? {
          r := r + [m.value];
        }
        return;
      }
      if line[0] == ':' {
        comments := comments + [Trim(line[1..])];
        return;
      }
      SetFieldOf(FieldName(line), FieldValue(line));
    }

    method SetFieldOf(name: string, value: string)
      modifies this
      ensures State() == SetField(old(State()), name, value)
    {
      if name == "event" {
        event := value;
      } else if name == "data" {
        if value != DONE {
          if data != "" {
            data := data + "\n";
          }
          data := data + value;
          assert "" + value == value;
        }
      } else if name == "id" {
        if '\0' !in value {
          id := value;
        }
      }
    }

    method Feed(chunk: string) returns (out: seq<Message>)
      modifies this
      ensures State() == After(old(State()), chunk) && out == Output(old(State()), chunk)
    {
      hide LineState, LineOutput, After, Output;
      out := [];
      var start := 0;
      while true
        invariant 0 <= start <= |chunk|
        invariant After(old(State()), chunk) == After(State(), chunk[start..])
        invariant Output(old(State()), chunk) == out + Output(State(), chunk[start..])
        decreases |chunk| - start
      {
        var rest := chunk[start..];
        var n := IndexOf(rest, '\n');
        if n == |rest| {
          PartialFed(State(), rest);
          lineBuffer := lineBuffer + rest;
          return;
        }
        var line := rest[..n];
        assert rest == line + "\n" + rest[n + 1..] && rest[n + 1..] == chunk[start + n + 1..];
        FirstLine(State(), line, rest[n + 1..]);
        var whole := lineBuffer + line;
        lineBuffer := "";
        out := ProcessLine(whole, out);
        start := start + n + 1;
      }
    }

    method Finish() returns (m: Option<Message>)
      modifies this
      ensures State() == After(old(State()), "\n\n")
      ensures FinishOutput(old(State())) == if m.Some? then [m.value] else []
    {
      hide After, FinishOutput, LineState, LineOutput, Pending;
      if lineBuffer != "" { FinishLine(State()); } else { FinishBlank(State()); }
      var out := [];
      if lineBuffer != "" {
        var line := lineBuffer;
        lineBuffer := "";
        out := ProcessLine(line, out);
        assert [] + LineOutput(old(State()).(line := ""), line) == LineOutput(old(State()).(line := ""), line);
      }
      if out != [] {
        return Some(out[0]);
      }
      m := TakePending();
    }
  }

  // ---------- the encoder

  lemma {:induction false} LinesAppended(a: seq<string>, b: seq<string>)
    ensures Lines(a + b) == Lines(a) + Lines(b)
    decreases a
  {
    if a == [] {
      assert a + b == b && Lines(a) + Lines(b) == Lines(b);
    } else {
      LinesAppended(a[1..], b);
      assert (a + b)[0] == a[0] && (a + b)[1..] == a[1..] + b;
    }
  }

  method EncodeComments(cs: seq<string>) returns (out: string)
    ensures out == Lines(Prefixed(": ", cs))
  {
    out := "";
    for i := 0 to |cs|
      invariant out == Lines(Prefixed(": ", cs[..i]))
    {
      assert Prefixed(": ", cs[..i + 1]) == Prefixed(": ", cs[..i]) + [": " + cs[i]];
      LinesAppended(Prefixed(": ", cs[..i]), [": " + cs[i]]);
      LinesOne(": " + cs[i]);
      out := out + (": " + cs[i] + "\n");
    }
    assert cs[..|cs|] == cs;
  }

  lemma LinesOne(s: string)
    ensures Lines([s]) == s + "\n"
  {
    assert [s][1..] == [];
    assert s + "\n" + "" == s + "\n";
  }

  method EncodeData(data: string) returns (out: string)
    ensures out == Lines(Prefixed("data: ", Split(data)))
  {
    hide Split;
    out := "";
    var start := 0;
    ghost var done: seq<string> := [];
    assert data[0..] == data;
    while true
      invariant 0 <= start <= |data|
      invariant Split(data) == done + Split(data[start..]) && out == Lines(Prefixed("data: ", done))
      decreases |data| - start
    {
      var rest := data[start..];
      var n := IndexOf(rest, '\n');
      SplitStep(rest);
      ghost var next := done + [rest[..n]];
      assert Prefixed("data: ", next) == Prefixed("data: ", done) + ["data: " + rest[..n]];
      LinesAppended(Prefixed("data: ", done), ["data: " + rest[..n]]);
      LinesOne("data: " + rest[..n]);
      out := out + ("data: " + rest[..n] + "\n");
      done := next;
      if n == |rest| {
        assert rest[..n] == rest;
        return;
      }
      assert rest[n + 1..] == data[start + n + 1..];
      start := start + n + 1;
    }
  }

  lemma SplitStep(s: string)
    ensures var n := IndexOf(s, '\n');
            Split(s) == if n == |s| then [s] else [s[..n]] + Split(s[n + 1..])
  {
    hide IndexOf;
  }

  method EncodeField(name: string, value: Option<string>) returns (out: string)
    ensures out == Lines(if value.Some? then [name + value.value] else [])
  {
    out := "";
    if value.Some? {
      LinesOne(name + value.value);
      out := name + value.value + "\n";
    }
  }

  method EncodeMessage(m: Message) returns (out: string)
    ensures out == Encode(m)
  {
    hide Split, Lines, Prefixed;
    var a, d := "", "";
    LinesEmpty();
    if m.comments.Some? {
      a := EncodeComments(m.comments.value);
    }
    var b := EncodeField("id: ", m.id);
    var c := EncodeField("event: ", m.event);
    if m.data.Some? {
      d := EncodeData(m.data.value);
    }
    out := a + b + c + d + "\n";
    ghost var cs := if m.comments.Some? then Prefixed(": ", m.comments.value) else [];
    ghost var i := if m.id.Some? then ["id: " + m.id.value] else [];
    ghost var e := if m.event.Some? then ["event: " + m.event.value] else [];
    ghost var ds := if m.data.Some? then Prefixed("data: ", Split(m.data.value)) else [];
    FiveParts(cs, i, e, ds);
  }

  lemma FiveParts(a: seq<string>, b: seq<string>, c: seq<string>, d: seq<string>)
    ensures Lines(a + b + c + d + [""]) == Lines(a) + Lines(b) + Lines(c) + Lines(d) + "\n"
  {
    hide Lines;
    LinesAppended(a, b);
    LinesAppended(a + b, c);
    LinesAppended(a + b + c, d);
    LinesAppended(a + b + c + d, [""]);
    LinesOne("");
    assert "" + "\n" == "\n";
  }

  lemma LinesEmpty()
    ensures Lines([]) == ""
  {
  }
}
