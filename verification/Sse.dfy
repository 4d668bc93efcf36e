/** The server-sent-events codec, one byte at a time: what any way of cutting the stream must agree with. */
module Sse {

  import opened Options

  datatype Message = Message(id: Option<string>, event: Option<string>, data: Option<string>, comments: Option<seq<string>>)

  /** The decoder's state: an unfinished line, and the fields of the event being read. */
  datatype Decoder = Decoder(line: string, data: string, event: string, id: string, comments: seq<string>)

  const START := Decoder("", "", "", "", [])

  const DONE := "[DONE]"

  // ---------- lines

  predicate IsEnd(c: char) { c == '\r' || c == '\n' }

  predicate IsBlank(c: char) { c == ' ' || c == '\t' }

  function StripEnd(s: string): string {
    if s != "" && IsEnd(s[|s| - 1]) then StripEnd(s[..|s| - 1]) else s
  }

  function TrimFront(s: string): string {
    if s != "" && IsBlank(s[0]) then TrimFront(s[1..]) else s
  }

  function TrimBack(s: string): string {
    if s != "" && IsBlank(s[|s| - 1]) then TrimBack(s[..|s| - 1]) else s
  }

  function Trim(s: string): string { TrimBack(TrimFront(s)) }

  function SkipSpaces(s: string): string {
    if s != "" && s[0] == ' ' then SkipSpaces(s[1..]) else s
  }

  /** The first place of `c` in `s`, or the length of `s`. */
  function IndexOf(s: string, c: char): (i: nat)
    ensures i <= |s| && (i < |s| ==> s[i] == c) && (forall k :: 0 <= k < i ==> s[k] != c)
  {
    if s == "" then 0 else if s[0] == c then 0 else 1 + IndexOf(s[1..], c)
  }

  function FieldName(line: string): string { line[..IndexOf(line, ':')] }

  function FieldValue(line: string): string {
    var i := IndexOf(line, ':');
    if i == |line| then "" else SkipSpaces(line[i + 1..])
  }

  // ---------- events

  function OrNone(s: string): Option<string> { if s == "" then None else Some(s) }

  function Chomp(s: string): string { if s != "" && s[|s| - 1] == '\n' then s[..|s| - 1] else s }

  function Pending(d: Decoder): Message {
    Message(OrNone(d.id), OrNone(d.event), OrNone(Chomp(d.data)), if d.comments == [] then None else Some(d.comments))
  }

  predicate NoFields(m: Message) { m.id.None? && m.event.None? && m.data.None? && m.comments.None? }

  function Emit(d: Decoder): seq<Message> { if NoFields(Pending(d)) then [] else [Pending(d)] }

  function Cleared(d: Decoder): Decoder { Decoder(d.line, "", "", "", []) }

  function AddData(d: Decoder, value: string): Decoder {
    d.(data := if d.data == "" then value else d.data + "\n" + value)
  }

  function SetField(d: Decoder, name: string, value: string): Decoder {
    if name == "event" then d.(event := value)
    else if name == "data" then (if value == DONE then d else AddData(d, value))
    else if name == "id" then (if '\0' in value then d else d.(id := value))
    else d
  }

  /** A line that is not blank. */
  function TakeLine(d: Decoder, line: string): Decoder
    requires line != ""
  {
    if line[0] == ':' then d.(comments := d.comments + [Trim(line[1..])])
    else SetField(d, FieldName(line), FieldValue(line))
  }

  function LineState(d: Decoder, raw: string): Decoder {
    var line := StripEnd(raw);
    if line == "" then Cleared(d) else TakeLine(d, line)
  }

  function LineOutput(d: Decoder, raw: string): seq<Message> {
    if StripEnd(raw) == "" then Emit(d) else []
  }

  // ---------- one byte at a time

  function Step(d: Decoder, c: char): Decoder {
    if c == '\n' then LineState(d.(line := ""), d.line) else d.(line := d.line + [c])
  }

  function StepOutput(d: Decoder, c: char): seq<Message> {
    if c == '\n' then LineOutput(d.(line := ""), d.line) else []
  }

  function After(d: Decoder, s: string): Decoder
    decreases s
  {
    if s == "" then d else After(Step(d, s[0]), s[1..])
  }

  function Output(d: Decoder, s: string): seq<Message>
    decreases s
  {
    if s == "" then [] else StepOutput(d, s[0]) + Output(Step(d, s[0]), s[1..])
  }

  lemma {:induction false} AfterAppend(d: Decoder, s: string, t: string)
    ensures After(d, s + t) == After(After(d, s), t)
    ensures Output(d, s + t) == Output(d, s) + Output(After(d, s), t)
    decreases s
  {
    hide Step, StepOutput;
    if s == "" {
      assert s + t == t;
    } else {
      AfterAppend(Step(d, s[0]), s[1..], t);
      assert (s + t)[0] == s[0] && (s + t)[1..] == s[1..] + t;
    }
  }

  function Joined(chunks: seq<string>): string {
    if chunks == [] then "" else chunks[0] + Joined(chunks[1..])
  }

  function AfterChunks(d: Decoder, chunks: seq<string>): Decoder
    decreases chunks
  {
    if chunks == [] then d else AfterChunks(After(d, chunks[0]), chunks[1..])
  }

  function ChunksOutput(d: Decoder, chunks: seq<string>): seq<Message>
    decreases chunks
  {
    if chunks == [] then [] else Output(d, chunks[0]) + ChunksOutput(After(d, chunks[0]), chunks[1..])
  }

  /** However a stream is cut into chunks, the messages and the state left behind are the same. */
  lemma {:induction false} ChunkInvariant(d: Decoder, a: seq<string>, b: seq<string>)
    requires Joined(a) == Joined(b)
    ensures AfterChunks(d, a) == AfterChunks(d, b) && ChunksOutput(d, a) == ChunksOutput(d, b)
  {
    ChunksAreWhole(d, a);
    ChunksAreWhole(d, b);
  }

  lemma {:induction false} ChunksAreWhole(d: Decoder, chunks: seq<string>)
    ensures AfterChunks(d, chunks) == After(d, Joined(chunks)) && ChunksOutput(d, chunks) == Output(d, Joined(chunks))
    decreases chunks
  {
    if chunks == [] {
    } else {
      ChunksAreWhole(After(d, chunks[0]), chunks[1..]);
      AfterAppend(d, chunks[0], Joined(chunks[1..]));
    }
  }

  /** A whole line, fed to a decoder that may hold the line's beginning. */
  lemma {:induction false} LineFed(d: Decoder, s: string)
    requires '\n' !in s
    ensures After(d, s + "\n") == LineState(d.(line := ""), d.line + s)
    ensures Output(d, s + "\n") == LineOutput(d.(line := ""), d.line + s)
    decreases s
  {
    var t := s + "\n";
    if s == "" {
      assert t == "\n" && t[1..] == "" && d.line + s == d.line;
    } else {
      assert t[0] == s[0] && t[1..] == s[1..] + "\n";
      var d1 := Step(d, s[0]);
      assert d1 == d.(line := d.line + [s[0]]);
      LineFed(d1, s[1..]);
      assert d1.line + s[1..] == d.line + s;
    }
  }

  lemma {:induction false} PartialFed(d: Decoder, s: string)
    requires '\n' !in s
    ensures After(d, s) == d.(line := d.line + s) && Output(d, s) == []
    decreases s
  {
    if s == "" {
      assert d.line + s == d.line;
    } else {
      var d1 := d.(line := d.line + [s[0]]);
      PartialFed(d1, s[1..]);
      assert d1.line + s[1..] == d.line + s;
    }
  }
}
