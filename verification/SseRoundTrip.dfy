/** Decoding inverts encoding, for exactly the canonical messages. */
module SseRoundTrip {

  import opened Sse
  import opened SseLines

  // ---------- canonical messages

  /** Survives as a field value: no newline, no space in front, no carriage return at the back. */
  predicate Plain(s: string) {
    '\n' !in s && (s != "" ==> s[0] != ' ' && s[|s| - 1] != '\r')
  }

  predicate PlainComment(s: string) {
    '\n' !in s && (s != "" ==> !IsBlank(s[0]) && !IsBlank(s[|s| - 1]) && s[|s| - 1] != '\r')
  }

  predicate PlainData(s: string) {
    var lines := Split(s);
    && lines[0] != "" && lines[|lines| - 1] != ""
    && forall k :: 0 <= k < |lines| ==> Plain(lines[k]) && lines[k] != DONE
  }

  predicate Canonical(m: Message) {
    && !NoFields(m)
    && (m.id.Some? ==> m.id.value != "" && Plain(m.id.value) && '\0' !in m.id.value)
    && (m.event.Some? ==> m.event.value != "" && Plain(m.event.value))
    && (m.data.Some? ==> PlainData(m.data.value))
    && (m.comments.Some? ==> m.comments.value != [] && forall k :: 0 <= k < |m.comments.value| ==> PlainComment(m.comments.value[k]))
  }

  // ---------- canonical messages survive

  lemma PlainValue(s: string)
    requires Plain(s)
    ensures ValueOf(s) == s
  {
    if s != "" { assert s[|s| - 1] in s; }
  }

  lemma CommentsSurvive(cs: seq<string>)
    requires forall k :: 0 <= k < |cs| ==> PlainComment(cs[k])
    ensures Trimmed(cs) == cs
  {
    forall k | 0 <= k < |cs| ensures Trim(StripEnd(cs[k])) == cs[k] {
      if cs[k] != "" { assert cs[k][|cs[k]| - 1] in cs[k]; }
    }
  }

  function JoinNl(lines: seq<string>): string
    requires |lines| > 0
  {
    if |lines| == 1 then lines[0] else lines[0] + "\n" + JoinNl(lines[1..])
  }

  lemma {:induction false} SplitJoin(s: string)
    ensures JoinNl(Split(s)) == s
    decreases s
  {
    var i := IndexOf(s, '\n');
    if i == |s| {
    } else {
      SplitJoin(s[i + 1..]);
      var ls := Split(s);
      assert ls[0] == s[..i] && ls[1..] == Split(s[i + 1..]);
      assert s == s[..i] + "\n" + s[i + 1..];
    }
  }

  lemma {:induction false} DataSurvives(data: string, lines: seq<string>)
    requires |lines| > 0 && (forall k :: 0 <= k < |lines| ==> Plain(lines[k]) && lines[k] != DONE) && (data == "" ==> lines[0] != "")
    ensures Accumulate(data, lines) == if data == "" then JoinNl(lines) else data + "\n" + JoinNl(lines)
    decreases lines
  {
    hide ValueOf;
    PlainValue(lines[0]);
    var next := if data == "" then lines[0] else data + "\n" + lines[0];
    assert Accumulate(data, lines) == Accumulate(next, lines[1..]);
    if |lines| == 1 {
    } else {
      DataSurvives(next, lines[1..]);
      assert (data + "\n" + lines[0]) + "\n" + JoinNl(lines[1..]) == data + "\n" + (lines[0] + "\n" + JoinNl(lines[1..]));
    }
  }

  lemma {:induction false} JoinEnds(lines: seq<string>)
    requires |lines| > 0 && lines[|lines| - 1] != "" && '\n' !in lines[|lines| - 1]
    ensures JoinNl(lines) != "" && JoinNl(lines)[|JoinNl(lines)| - 1] != '\n'
    decreases lines
  {
    if |lines| == 1 {
      assert lines[0][|lines[0]| - 1] in lines[0];
    } else {
      JoinEnds(lines[1..]);
    }
  }

  lemma CanonicalSurvives(m: Message)
    requires Canonical(m)
    ensures NoNewlines(EventLines(m)) && Pending(Settled(m)) == m
  {
    hide Split, JoinNl, ValueOf, Accumulate;
    if m.id.Some? { PlainValue(m.id.value); }
    if m.event.Some? { PlainValue(m.event.value); }
    if m.comments.Some? {
      CommentsSurvive(m.comments.value);
      assert NoNewlines(Prefixed(": ", m.comments.value));
    }
    if m.data.Some? {
      var ls := Split(m.data.value);
      SplitJoin(m.data.value);
      DataSurvives("", ls);
      JoinEnds(ls);
      assert NoNewlines(Prefixed("data: ", ls));
    }
  }

  lemma DoneFed()
    ensures After(START, DONE_EVENT) == START && Output(START, DONE_EVENT) == []
  {
    hide LineState, LineOutput, After, Output;
    var ls := ["data: [DONE]", ""];
    assert ls[1..] == [""] && ls[1..][1..] == [];
    assert Lines(ls) == DONE_EVENT;
    LinesFed(START, ls);
    AnyField(START, "data", DONE);
    PlainValue(DONE);
    assert "data" + ": " + DONE == "data: [DONE]";
    BlankLine(START);
  }

  /** Feeding the encodings of canonical messages, then the done marker, returns exactly those messages. */
  lemma {:induction false} RoundTrip(ms: seq<Message>)
    requires forall k :: 0 <= k < |ms| ==> Canonical(ms[k])
    ensures After(START, EncodeAll(ms) + DONE_EVENT) == START && Output(START, EncodeAll(ms) + DONE_EVENT) == ms
    decreases ms
  {
    hide After, Output, Encode, Canonical, Settled, Pending;
    DoneFed();
    if ms == [] {
      assert EncodeAll(ms) + DONE_EVENT == DONE_EVENT;
    } else {
      CanonicalSurvives(ms[0]);
      CanonicalHasFields(ms[0]);
      MessageFed(ms[0]);
      RoundTrip(ms[1..]);
      AfterAppend(START, Encode(ms[0]), EncodeAll(ms[1..]) + DONE_EVENT);
      assert EncodeAll(ms) + DONE_EVENT == Encode(ms[0]) + (EncodeAll(ms[1..]) + DONE_EVENT);
    }
  }

  /** The same, however the stream is cut. */
  lemma RoundTripInChunks(ms: seq<Message>, chunks: seq<string>)
    requires (forall k :: 0 <= k < |ms| ==> Canonical(ms[k])) && Joined(chunks) == EncodeAll(ms) + DONE_EVENT
    ensures AfterChunks(START, chunks) == START && ChunksOutput(START, chunks) == ms
  {
    hide After, Output, Canonical, EncodeAll;
    ChunksAreWhole(START, chunks);
    RoundTrip(ms);
  }

  // ---------- nothing else does

  lemma {:induction false} StripShort(s: string)
    ensures |StripEnd(s)| <= |s| && (|StripEnd(s)| == |s| ==> StripEnd(s) == s && (s == "" || !IsEnd(s[|s| - 1])))
    decreases s
  {
    if s != "" { StripShort(s[..|s| - 1]); }
  }

  lemma {:induction false} SkipShort(s: string)
    ensures |SkipSpaces(s)| <= |s| && (|SkipSpaces(s)| == |s| ==> SkipSpaces(s) == s && (s == "" || s[0] != ' '))
    decreases s
  {
    if s != "" { SkipShort(s[1..]); }
  }

  lemma {:induction false} TrimFrontShort(s: string)
    ensures |TrimFront(s)| <= |s| && (|TrimFront(s)| == |s| ==> TrimFront(s) == s && (s == "" || !IsBlank(s[0])))
    decreases s
  {
    if s != "" { TrimFrontShort(s[1..]); }
  }

  lemma {:induction false} TrimBackShort(s: string)
    ensures |TrimBack(s)| <= |s| && (|TrimBack(s)| == |s| ==> TrimBack(s) == s && (s == "" || !IsBlank(s[|s| - 1])))
    decreases s
  {
    if s != "" { TrimBackShort(s[..|s| - 1]); }
  }

  lemma ValueShort(s: string)
    requires '\n' !in s
    ensures |ValueOf(s)| <= |s| && (|ValueOf(s)| == |s| ==> ValueOf(s) == s && Plain(s))
  {
    StripShort(s);
    SkipShort(StripEnd(s));
  }

  lemma CommentShort(s: string)
    requires '\n' !in s && Trim(StripEnd(s)) == s
    ensures PlainComment(s)
  {
    StripShort(s);
    TrimFrontShort(StripEnd(s));
    TrimBackShort(TrimFront(StripEnd(s)));
  }

  function JoinedLength(data: string, lines: seq<string>): nat {
    if lines == [] then |data| else if data == "" then |JoinNl(lines)| else |data| + 1 + |JoinNl(lines)|
  }

  /** Data lines never add up to more than was encoded, and to as much only if each of them survives. */
  lemma {:induction false} AccumulateShort(data: string, lines: seq<string>)
    requires NoNewlines(lines)
    ensures |Accumulate(data, lines)| <= JoinedLength(data, lines)
    ensures |Accumulate(data, lines)| == JoinedLength(data, lines) ==>
              (forall k :: 0 <= k < |lines| ==> Plain(lines[k]) && lines[k] != DONE) && (data == "" && |lines| > 1 ==> lines[0] != "")
    decreases lines
  {
    hide ValueOf;
    if lines == [] {
    } else {
      var v := ValueOf(lines[0]);
      ValueShort(lines[0]);
      var next := if v == DONE then data else if data == "" then v else data + "\n" + v;
      AccumulateShort(next, lines[1..]);
    }
  }

  lemma LastLine(lines: seq<string>)
    requires |lines| > 0 && JoinNl(lines) != "" && JoinNl(lines)[|JoinNl(lines)| - 1] != '\n'
    ensures lines[|lines| - 1] != ""
    decreases lines
  {
    if |lines| > 1 && JoinNl(lines[1..]) != "" { LastLine(lines[1..]); }
  }

  lemma DataExact(x: string)
    requires x != "" && Chomp(Accumulate("", Split(x))) == x
    ensures PlainData(x)
  {
    hide Accumulate, Split, JoinNl;
    var ls := Split(x);
    SplitJoin(x);
    AccumulateShort("", ls);
    LastLine(ls);
  }

  /** Fields read off lines hold no newline. */
  ghost predicate Unbroken(d: Decoder) {
    '\n' !in d.line && '\n' !in d.id && '\n' !in d.event && NoNewlines(d.comments)
  }

  lemma {:induction false} StripIn(s: string)
    requires '\n' !in s
    ensures '\n' !in StripEnd(s) && '\n' !in SkipSpaces(s) && '\n' !in TrimFront(s) && '\n' !in TrimBack(s)
    decreases s
  {
    if s != "" {
      StripIn(s[..|s| - 1]);
      StripIn(s[1..]);
    }
  }

  lemma StepUnbroken(d: Decoder, c: char)
    requires Unbroken(d)
    ensures Unbroken(Step(d, c))
  {
    hide StripEnd, FieldName, FieldValue, Trim;
    StripIn(d.line);
    if StripEnd(d.line) != "" { PartsUnbroken(StripEnd(d.line)); }
  }

  lemma PartsUnbroken(line: string)
    requires '\n' !in line && line != ""
    ensures '\n' !in FieldValue(line) && '\n' !in Trim(line[1..])
  {
    hide StripEnd, SkipSpaces, TrimFront, TrimBack, IndexOf;
    var i := IndexOf(line, ':');
    StripIn(line[1..]);
    StripIn(TrimFront(line[1..]));
    if i < |line| { StripIn(line[i + 1..]); }
  }

  predicate UnbrokenMessage(m: Message) {
    && (m.id.Some? ==> '\n' !in m.id.value)
    && (m.event.Some? ==> '\n' !in m.event.value)
    && (m.comments.Some? ==> NoNewlines(m.comments.value))
  }

  lemma {:induction false} OutputUnbroken(d: Decoder, s: string)
    requires Unbroken(d)
    ensures forall k :: 0 <= k < |Output(d, s)| ==> UnbrokenMessage(Output(d, s)[k])
    decreases s
  {
    hide Step;
    if s == "" {
    } else {
      StepUnbroken(d, s[0]);
      OutputUnbroken(Step(d, s[0]), s[1..]);
    }
  }

  /** A message comes back from its own encoding exactly when it is canonical. */
  lemma RoundTripIff(m: Message)
    ensures Output(START, Encode(m)) == [m] <==> Canonical(m)
  {
    hide Output, Encode, Canonical, Settled, Pending;
    if Canonical(m) {
      CanonicalSurvives(m);
      MessageFed(m);
      CanonicalHasFields(m);
    } else if Output(START, Encode(m)) == [m] {
      OutputUnbroken(START, Encode(m));
      assert UnbrokenMessage(Output(START, Encode(m))[0]);
      UnbrokenLines(m);
      MessageFed(m);
      SurvivorCanonical(m);
    }
  }

  lemma CanonicalHasFields(m: Message)
    requires Canonical(m)
    ensures !NoFields(m)
  {
  }

  lemma UnbrokenLines(m: Message)
    requires UnbrokenMessage(m)
    ensures NoNewlines(EventLines(m))
  {
    hide Split;
    if m.data.Some? { assert NoNewlines(Prefixed("data: ", Split(m.data.value))); }
    if m.comments.Some? { assert NoNewlines(Prefixed(": ", m.comments.value)); }
  }

  lemma SurvivorCanonical(m: Message)
    requires UnbrokenMessage(m) && Pending(Settled(m)) == m && !NoFields(m)
    ensures Canonical(m)
  {
    hide Split, ValueOf, Accumulate, PlainData, Trim, StripEnd;
    if m.id.Some? { ValueShort(m.id.value); }
    if m.event.Some? { ValueShort(m.event.value); }
    if m.data.Some? { DataExact(m.data.value); }
    if m.comments.Some? {
      var cs := m.comments.value;
      assert Trimmed(cs) == cs;
      forall k | 0 <= k < |cs| ensures PlainComment(cs[k]) { CommentShort(cs[k]); }
    }
  }
}
