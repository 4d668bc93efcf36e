/** Incremental UTF-8 detokenization over the byte-level tokenizer: `Sequence.append_token_id` holds
    an incomplete character back and releases it with its last byte. */
module Detokenizer {

  import opened Options

  type Byte = b: int | 0 <= b < 256
  type Text = seq<Byte>

  /** U+FFFD in UTF-8. */
  const REPLACEMENT: Text := [0xEF, 0xBF, 0xBD]

  const BOS_ID: nat := 256
  const EOS_ID: nat := 257
  const BOS_TEXT: Text := [0x3C, 0x73, 0x3E]
  const EOS_TEXT: Text := [0x3C, 0x2F, 0x73, 0x3E]

  lemma DropFirst(x: Text, y: Text, z: Text)
    ensures (x + y + z)[|x|..] == y + z
  {
    assert x + y + z == x + (y + z);
  }

  lemma Regroup(a: Text, b: Text, f: Text, p: Text, x: Byte)
    ensures (a + b + f + p) + [x] == a + b + f + (p + [x])
    ensures a + b + f + (p + [x]) == a + b + (f + (p + [x])) + [] == (a + b) + (f + (p + [x])) + [] + []
  {
  }

  // ---------- lossy UTF-8

  predicate Continuation(b: Byte) { 0x80 <= b < 0xC0 }

  function SeqLen(lead: Byte): nat {
    if lead < 0x80 then 1
    else if 0xC0 <= lead < 0xE0 then 2
    else if 0xE0 <= lead < 0xF0 then 3
    else if 0xF0 <= lead < 0xF8 then 4
    else 0
  }

  /** A structurally valid character: a lead byte and its continuation bytes. */
  predicate ValidChar(c: Text) {
    c != [] && SeqLen(c[0]) == |c| && forall k :: 1 <= k < |c| ==> Continuation(c[k])
  }

  /** How many bytes the decoder takes off the front: a whole character, one invalid byte, or an
      incomplete character at the very end. */
  function Advance(bs: Text): (n: nat)
    requires bs != []
    ensures 1 <= n <= |bs|
  {
    var len := SeqLen(bs[0]);
    if len == 0 then 1 else if len > |bs| then |bs| else if ValidChar(bs[..len]) then len else 1
  }

  function Lossy(bs: Text): Text {
    if bs == [] then []
    else
      var n := Advance(bs);
      (if ValidChar(bs[..n]) then bs[..n] else REPLACEMENT) + Lossy(bs[n..])
  }

  /** The continuation bytes of a character are all there. */
  method AllContinuations(c: Text) returns (valid: bool)
    requires c != []
    ensures valid <==> forall j :: 1 <= j < |c| ==> Continuation(c[j])
  {
    for k := 1 to |c|
      invariant forall j :: 1 <= j < k ==> Continuation(c[j])
    {
      if !Continuation(c[k]) { return false; }
    }
    valid := true;
  }

  /** What the bytes from `i` on give next: how many are taken, and what they turn into. */
  method NextPiece(bytes: Text, i: nat) returns (n: nat, piece: Text)
    requires i < |bytes|
    ensures n == Advance(bytes[i..])
    ensures piece == if ValidChar(bytes[i..][..n]) then bytes[i..][..n] else REPLACEMENT
  {
    n, piece := 1, REPLACEMENT;
    var len := SeqLen(bytes[i]);
    if len == 0 { return; }
    if i + len > |bytes| {
      n := |bytes| - i;
      return;
    }
    assert bytes[i..i + len] == bytes[i..][..len];
    var valid := AllContinuations(bytes[i..i + len]);
    if valid { n, piece := len, bytes[i..i + len]; }
  }

  lemma LossyStep(bs: Text)
    requires bs != []
    ensures Lossy(bs) == (if ValidChar(bs[..Advance(bs)]) then bs[..Advance(bs)] else REPLACEMENT) + Lossy(bs[Advance(bs)..])
  {
  }

  lemma LossyEnds()
    ensures Lossy([]) == []
  {
  }

  method Utf8Lossy(bytes: Text) returns (out: Text)
    ensures out == Lossy(bytes)
  {
    hide Advance, ValidChar, Lossy;
    out := [];
    var i := 0;
    LossyEnds();
    assert bytes[0..] == bytes && [] + Lossy(bytes) == Lossy(bytes);
    while i < |bytes|
      invariant 0 <= i <= |bytes| && Lossy(bytes) == out + Lossy(bytes[i..])
    {
      var n, piece := NextPiece(bytes, i);
      ghost var tail := Lossy(bytes[i + n..]);
      LossyStep(bytes[i..]);
      assert bytes[i..][n..] == bytes[i + n..];
      assert out + (piece + tail) == (out + piece) + tail;
      out := out + piece;
      i := i + n;
    }
    assert bytes[i..] == [] && out + [] == out;
  }

  /** The byte tokens gathered so far, then the rest of the ids; None for an unknown id. */
  function DecodeFrom(bytes: Text, ids: seq<nat>, skipSpecial: bool): Option<Text>
    decreases ids
  {
    if ids == [] then Some(Lossy(bytes))
    else if ids[0] < 256 then DecodeFrom(bytes + [ids[0]], ids[1..], skipSpecial)
    else if !skipSpecial && ids[0] != BOS_ID && ids[0] != EOS_ID then None
    else
      var rest := DecodeFrom([], ids[1..], skipSpecial);
      Prepend(Lossy(bytes) + SpecialText(ids[0], skipSpecial), rest)
  }

  function Prepend(out: Text, r: Option<Text>): Option<Text> {
    if r.None? then None else Some(out + r.value)
  }

  function SpecialText(id: nat, skipSpecial: bool): Text {
    if skipSpecial then [] else if id == BOS_ID then BOS_TEXT else if id == EOS_ID then EOS_TEXT else []
  }

  lemma PrependNil(r: Option<Text>)
    ensures Prepend([], r) == r
  {
    if r.Some? { assert [] + r.value == r.value; }
  }

  lemma PrependTwice(x: Text, y: Text, r: Option<Text>)
    ensures Prepend(x, Prepend(y, r)) == Prepend(x + y, r)
  {
    if r.Some? { assert x + (y + r.value) == x + y + r.value; }
  }

  method Decode(ids: seq<nat>, skipSpecial: bool) returns (text: Option<Text>)
    ensures text == DecodeFrom([], ids, skipSpecial)
  {
    var bytes: Text, out: Text, i := [], [], 0;
    assert ids[0..] == ids;
    PrependNil(DecodeFrom([], ids, skipSpecial));
    while i < |ids|
      invariant 0 <= i <= |ids|
      invariant DecodeFrom([], ids, skipSpecial) == Prepend(out, DecodeFrom(bytes, ids[i..], skipSpecial))
    {
      assert ids[i..][1..] == ids[i + 1..];
      if ids[i] < 256 {
        bytes := bytes + [ids[i]];
      } else {
        var flushed := Utf8Lossy(bytes);
        if !skipSpecial && ids[i] != BOS_ID && ids[i] != EOS_ID { return None; }
        PrependTwice(out, flushed + SpecialText(ids[i], skipSpecial), DecodeFrom([], ids[i + 1..], skipSpecial));
        out, bytes := out + (flushed + SpecialText(ids[i], skipSpecial)), [];
      }
      i := i + 1;
    }
    var flushed := Utf8Lossy(bytes);
    text := Some(out + flushed);
  }

  // ---------- replacement characters

  predicate ReplacementAt(t: Text, i: nat) { i + 3 <= |t| && t[i..i + 3] == REPLACEMENT }

  predicate EndsWithReplacement(t: Text) { |t| >= 3 && ReplacementAt(t, |t| - 3) }

  function FindReplacement(t: Text, i: nat): (at: Option<nat>)
    ensures at.Some? ==> i <= at.value && ReplacementAt(t, at.value) && forall j :: i <= j < at.value ==> !ReplacementAt(t, j)
    ensures at.None? ==> forall j :: i <= j ==> !ReplacementAt(t, j)
    decreases |t| - i
  {
    if i + 3 > |t| then None else if ReplacementAt(t, i) then Some(i) else FindReplacement(t, i + 1)
  }

  function RemoveReplacements(t: Text): Text
    decreases |t|
  {
    var at := FindReplacement(t, 0);
    if at.None? then t else RemoveReplacements(t[..at.value] + t[at.value + 3..])
  }

  method RemoveReplacementChars(t: Text) returns (s: Text)
    ensures s == RemoveReplacements(t)
    ensures forall j: nat :: !ReplacementAt(s, j)
  {
    s := t;
    while true
      invariant RemoveReplacements(s) == RemoveReplacements(t)
      decreases |s|
    {
      var at := FindReplacement(s, 0);
      if at.None? { return; }
      s := s[..at.value] + s[at.value + 3..];
    }
  }

  // ---------- the sequence

  predicate CharBoundary(t: Text, i: nat) { i == 0 || i >= |t| || !Continuation(t[i]) }

  /** The largest boundary of `t` at or before `i`. */
  function Boundary(t: Text, i: nat): (b: nat)
    ensures b <= i && CharBoundary(t, b) && forall j :: b < j <= i ==> !CharBoundary(t, j)
  {
    if i > 0 && !CharBoundary(t, i) then Boundary(t, i - 1) else i
  }

  datatype SeqState = SeqState(ids: seq<nat>, prefix: nat, read: nat)

  predicate SeqOk(s: SeqState) { s.prefix <= s.read <= |s.ids| }

  const NoTokens := SeqState([], 0, 0)

  /** Appending a token: new state and emitted text, or None when decoding fails. */
  function Append(s: SeqState, id: nat): (r: (SeqState, Option<Text>))
    requires SeqOk(s)
    ensures SeqOk(r.0) && r.0.ids == s.ids + [id]
  {
    var ids := s.ids + [id];
    var s' := s.(ids := ids);
    var prefixText := DecodeFrom([], ids[s.prefix..s.read], false);
    var newText := DecodeFrom([], ids[s.prefix..], false);
    if prefixText.None? || newText.None? then (s', None)
    else if |newText.value| > |prefixText.value| && !EndsWithReplacement(newText.value) then
      var cut := Boundary(newText.value, |prefixText.value|);
      (SeqState(ids, s.read, |ids|), Some(RemoveReplacements(newText.value[cut..])))
    else (s', Some([]))
  }

  class Sequence {
    var tokenIds: seq<nat>
    var prefixOffset: nat
    var readOffset: nat

    ghost function State(): SeqState
      reads this
    {
      SeqState(tokenIds, prefixOffset, readOffset)
    }

    constructor ()
      ensures State() == NoTokens
    {
      tokenIds, prefixOffset, readOffset := [], 0, 0;
    }

    method AppendTokenId(id: nat) returns (emitted: Option<Text>)
      requires SeqOk(State())
      modifies this
      ensures SeqOk(State()) && (State(), emitted) == Append(old(State()), id)
    {
      tokenIds := tokenIds + [id];
      var prefixText := Decode(tokenIds[prefixOffset..readOffset], false);
      var newText := Decode(tokenIds[prefixOffset..], false);
      if prefixText.None? || newText.None? { return None; }
      var prefixLen := |prefixText.value|;
      while prefixLen > 0 && !CharBoundary(newText.value, prefixLen)
        invariant 0 <= prefixLen <= |prefixText.value|
        invariant Boundary(newText.value, prefixLen) == Boundary(newText.value, |prefixText.value|)
      {
        prefixLen := prefixLen - 1;
      }
      if |newText.value| > |prefixText.value| {
        if EndsWithReplacement(newText.value) { return Some([]); }
        var text := RemoveReplacementChars(newText.value[prefixLen..]);
        prefixOffset := readOffset;
        readOffset := |tokenIds|;
        return Some(text);
      }
      emitted := Some([]);
    }
  }

  // ---------- characters

  predicate ValidChars(cs: seq<Text>) { forall i :: 0 <= i < |cs| ==> ValidChar(cs[i]) }

  function Flat(cs: seq<Text>): Text {
    if cs == [] then [] else cs[0] + Flat(cs[1..])
  }

  lemma {:induction false} FlatAppend(a: seq<Text>, b: seq<Text>)
    ensures Flat(a + b) == Flat(a) + Flat(b)
  {
    if a == [] {
      assert a + b == b;
    } else {
      assert (a + b)[1..] == a[1..] + b;
      FlatAppend(a[1..], b);
    }
  }

  lemma FlatOne(c: Text)
    ensures Flat([c]) == c
  {
    assert [c][1..] == [];
  }

  lemma LossyKeepsChar(c: Text, tail: Text)
    requires ValidChar(c)
    ensures Lossy(c + tail) == c + Lossy(tail)
  {
    hide SeqLen, Continuation;
    var bs := c + tail;
    assert bs[0] == c[0] && bs[..|c|] == c && bs[|c|..] == tail;
    assert Advance(bs) == |c|;
  }

  lemma {:induction false} LossyKeepsChars(cs: seq<Text>, rest: Text)
    requires ValidChars(cs)
    ensures Lossy(Flat(cs) + rest) == Flat(cs) + Lossy(rest)
  {
    hide Lossy, ValidChar;
    if cs == [] {
      assert Flat(cs) + rest == rest && Flat(cs) + Lossy(rest) == Lossy(rest);
    } else {
      var c, tail := cs[0], Flat(cs[1..]) + rest;
      LossyKeepsChar(c, tail);
      LossyKeepsChars(cs[1..], rest);
      assert Flat(cs) + rest == c + tail;
      assert c + (Flat(cs[1..]) + Lossy(rest)) == (c + Flat(cs[1..])) + Lossy(rest);
    }
  }

  /** The first bytes of a character, not all of them. */
  predicate Partial(p: Text, c: Text) { 0 < |p| < |c| && p == c[..|p|] }

  lemma LossyOfPartial(p: Text, c: Text)
    requires ValidChar(c) && Partial(p, c)
    ensures Lossy(p) == REPLACEMENT
  {
    assert p[0] == c[0];
  }

  lemma {:induction false} DecodeBytes(bytes: Text, more: Text)
    ensures DecodeFrom(bytes, more, false) == Some(Lossy(bytes + more))
    decreases more
  {
    if more == [] {
      assert bytes + more == bytes;
    } else {
      DecodeBytes(bytes + [more[0]], more[1..]);
      assert bytes + [more[0]] + more[1..] == bytes + more;
    }
  }

  /** Among valid characters, the bytes of U+FFFD occur only as that character. */
  lemma ReplacementInChar(c: Text, i: nat)
    requires ValidChar(c) && ReplacementAt(c, i)
    ensures c == REPLACEMENT
  {
    assert c[i] == c[i..i + 3][0] == 0xEF;
    assert i == 0;
    assert |c| == 3;
    assert c == c[0..3];
  }

  lemma EndsInChar(t: Text, c: Text)
    requires ValidChar(c)
    ensures EndsWithReplacement(t + c) <==> c == REPLACEMENT
  {
    var w := t + c;
    if c == REPLACEMENT {
      assert w[|w| - 3..] == c && w[|w| - 3..|w| - 3 + 3] == w[|w| - 3..];
    }
    if EndsWithReplacement(w) {
      assert w[|w| - 3..|w|] == REPLACEMENT;
      assert w[|w| - 3] == REPLACEMENT[0] && w[|w| - 2] == REPLACEMENT[1] && w[|w| - 1] == REPLACEMENT[2];
      assert c[|c| - 1] == w[|w| - 1];
      if |c| >= 2 { assert c[|c| - 2] == w[|w| - 2]; }
      if |c| >= 3 { assert c[|c| - 3] == w[|w| - 3]; }
      assert |c| == 3;
      assert c == [c[0], c[1], c[2]];
    }
  }

  /** Held U+FFFD characters vanish; the character that ends the hold stays. */
  lemma {:induction false} RemoveHeld(f: seq<Text>, c: Text)
    requires (forall i :: 0 <= i < |f| ==> f[i] == REPLACEMENT) && ValidChar(c) && c != REPLACEMENT
    ensures RemoveReplacements(Flat(f) + c) == c
  {
    if f == [] {
      assert Flat(f) + c == c;
      forall i: nat ensures !ReplacementAt(c, i) { if ReplacementAt(c, i) { ReplacementInChar(c, i); } }
    } else {
      var t := Flat(f) + c;
      assert t == REPLACEMENT + (Flat(f[1..]) + c);
      assert ReplacementAt(t, 0);
      assert FindReplacement(t, 0) == Some(0);
      assert t[..0] + t[3..] == Flat(f[1..]) + c;
      RemoveHeld(f[1..], c);
    }
  }

  // ---------- a stream of characters, byte by byte

  /** After the characters `a + b + f`: `a` is behind the prefix offset, `b` behind the read offset,
      and `f` is a run of held U+FFFD characters. */
  ghost predicate At(s: SeqState, a: seq<Text>, b: seq<Text>, f: seq<Text>, p: Text) {
    && ValidChars(a) && ValidChars(b) && (forall i :: 0 <= i < |f| ==> f[i] == REPLACEMENT)
    && s.ids == Flat(a) + Flat(b) + Flat(f) + p
    && s.prefix == |Flat(a)| && s.read == |Flat(a)| + |Flat(b)|
  }

  lemma ReplacementIsValid(f: seq<Text>)
    requires forall i :: 0 <= i < |f| ==> f[i] == REPLACEMENT
    ensures ValidChars(f)
  {
  }

  lemma Windows(s: SeqState, a: seq<Text>, b: seq<Text>, f: seq<Text>, p: Text, x: Byte)
    requires At(s, a, b, f, p)
    ensures SeqOk(s)
    ensures (s.ids + [x])[s.prefix..s.read] == Flat(b)
    ensures (s.ids + [x])[s.prefix..] == Flat(b) + Flat(f) + (p + [x])
  {
    hide Flat, ValidChars;
    WindowsOf(Flat(a), Flat(b), Flat(f), p, x, s.ids);
  }

  lemma WindowsOf(a: Text, b: Text, f: Text, p: Text, x: Byte, ids: Text)
    requires ids == a + b + f + p
    ensures (ids + [x])[|a|..|a| + |b|] == b && (ids + [x])[|a|..] == b + f + (p + [x])
  {
    var all := ids + [x];
    assert all == a + (b + f + (p + [x]));
    assert all[|a|..] == b + f + (p + [x]);
    assert all[|a|..|a| + |b|] == all[|a|..][..|b|];
  }

  lemma WindowTexts(b: seq<Text>, f: seq<Text>, q: Text)
    requires ValidChars(b) && forall i :: 0 <= i < |f| ==> f[i] == REPLACEMENT
    ensures DecodeFrom([], Flat(b), false) == Some(Flat(b))
    ensures DecodeFrom([], Flat(b) + Flat(f) + q, false) == Some(Flat(b) + Flat(f) + Lossy(q))
  {
    ReplacementIsValid(f);
    DecodeBytes([], Flat(b));
    LossyKeepsChars(b, []);
    assert Flat(b) + [] == Flat(b) && [] + Flat(b) == Flat(b);
    FlatAppend(b, f);
    DecodeBytes([], Flat(b + f) + q);
    LossyKeepsChars(b + f, q);
    assert [] + (Flat(b + f) + q) == Flat(b + f) + q;
  }

  /** A byte that does not complete its character emits nothing. */
  lemma PartialByte(s: SeqState, a: seq<Text>, b: seq<Text>, f: seq<Text>, p: Text, x: Byte, c: Text)
    requires At(s, a, b, f, p) && ValidChar(c) && Partial(p + [x], c)
    ensures SeqOk(s) && Append(s, x) == (s.(ids := s.ids + [x]), Some([])) && At(Append(s, x).0, a, b, f, p + [x])
  {
    Windows(s, a, b, f, p, x);
    WindowTexts(b, f, p + [x]);
    LossyOfPartial(p + [x], c);
    EndsInChar(Flat(b) + Flat(f), REPLACEMENT);
    Regroup(Flat(a), Flat(b), Flat(f), p, x);
  }

  lemma WholeChar(c: Text)
    requires ValidChar(c)
    ensures Lossy(c) == c
  {
    LossyKeepsChars([c], []);
    FlatOne(c);
    assert c + [] == c;
  }

  /** The byte that completes U+FFFD emits nothing: the character looks like a hold. */
  lemma FinalByteOfReplacement(s: SeqState, a: seq<Text>, b: seq<Text>, f: seq<Text>, p: Text, x: Byte)
    requires At(s, a, b, f, p) && p + [x] == REPLACEMENT
    ensures SeqOk(s) && Append(s, x).1 == Some([]) && At(Append(s, x).0, a, b, f + [REPLACEMENT], [])
  {
    hide Flat, Lossy, DecodeFrom;
    Windows(s, a, b, f, p, x);
    WindowTexts(b, f, REPLACEMENT);
    WholeChar(REPLACEMENT);
    EndsInChar(Flat(b) + Flat(f), REPLACEMENT);
    FlatAppend(f, [REPLACEMENT]);
    FlatOne(REPLACEMENT);
    Regroup(Flat(a), Flat(b), Flat(f), p, x);
  }

  lemma HeldThenChar(b: seq<Text>, f: seq<Text>, c: Text)
    requires (forall i :: 0 <= i < |f| ==> f[i] == REPLACEMENT) && ValidChar(c) && c != REPLACEMENT
    ensures var t := Flat(b) + Flat(f) + c;
            Boundary(t, |Flat(b)|) == |Flat(b)| && RemoveReplacements(t[|Flat(b)|..]) == c
  {
    var t := Flat(b) + Flat(f) + c;
    DropFirst(Flat(b), Flat(f), c);
    assert t[|Flat(b)|] == t[|Flat(b)|..][0] == (Flat(f) + c)[0];
    if f != [] { assert (Flat(f) + c)[0] == f[0][0]; }
    RemoveHeld(f, c);
  }

  /** The byte that completes any other character emits exactly that character. */
  lemma FinalByteEmits(s: SeqState, a: seq<Text>, b: seq<Text>, f: seq<Text>, p: Text, x: Byte)
    requires At(s, a, b, f, p) && ValidChar(p + [x]) && p + [x] != REPLACEMENT
    ensures SeqOk(s) && Append(s, x) == (SeqState(s.ids + [x], s.read, |s.ids| + 1), Some(p + [x]))
  {
    hide Flat, Lossy, DecodeFrom, RemoveReplacements, Boundary;
    var c := p + [x];
    Windows(s, a, b, f, p, x);
    WindowTexts(b, f, c);
    WholeChar(c);
    EndsInChar(Flat(b) + Flat(f), c);
    HeldThenChar(b, f, c);
  }

  lemma FinalByteMoves(s: SeqState, a: seq<Text>, b: seq<Text>, f: seq<Text>, p: Text, x: Byte)
    requires At(s, a, b, f, p) && ValidChar(p + [x])
    ensures At(SeqState(s.ids + [x], s.read, |s.ids| + 1), a + b, f + [p + [x]], [], [])
  {
    var c := p + [x];
    FlatAppend(f, [c]);
    FlatOne(c);
    FlatAppend(a, b);
    ReplacementIsValid(f);
    Regroup(Flat(a), Flat(b), Flat(f), p, x);
  }

  function AppendAll(s: SeqState, bs: Text): (r: (SeqState, seq<Option<Text>>))
    requires SeqOk(s)
    ensures SeqOk(r.0) && |r.1| == |bs|
    decreases bs
  {
    if bs == [] then (s, [])
    else
      var (s1, out) := Append(s, bs[0]);
      var (s2, outs) := AppendAll(s1, bs[1..]);
      (s2, [out] + outs)
  }

  /** What each byte of a character should emit. */
  function CharEmissions(c: Text): seq<Option<Text>>
    requires c != []
  {
    seq(|c| - 1, _ => Some([])) + [Some(if c == REPLACEMENT then [] else c)]
  }

  function Emissions(cs: seq<Text>): seq<Option<Text>>
    requires ValidChars(cs)
  {
    if cs == [] then [] else CharEmissions(cs[0]) + Emissions(cs[1..])
  }

  lemma {:induction false} CharFrom(s: SeqState, a: seq<Text>, b: seq<Text>, f: seq<Text>, c: Text, n: nat)
    returns (a': seq<Text>, b': seq<Text>, f': seq<Text>)
    requires ValidChar(c) && n < |c| && At(s, a, b, f, c[..n])
    ensures SeqOk(s) && At(AppendAll(s, c[n..]).0, a', b', f', [])
    ensures AppendAll(s, c[n..]).1 == CharEmissions(c)[n..]
    decreases |c| - n
  {
    var p, x := c[..n], c[n];
    assert p + [x] == c[..n + 1] && c[n..][1..] == c[n + 1..];
    Windows(s, a, b, f, p, x);
    var s1, out := Append(s, x).0, Append(s, x).1;
    if n + 1 == |c| {
      assert c[..n + 1] == c && c[n + 1..] == [];
      if c == REPLACEMENT {
        FinalByteOfReplacement(s, a, b, f, p, x);
        a', b', f' := a, b, f + [c];
      } else {
        FinalByteEmits(s, a, b, f, p, x);
        FinalByteMoves(s, a, b, f, p, x);
        a', b', f' := a + b, f + [c], [];
      }
      assert CharEmissions(c)[n..] == [out];
    } else {
      PartialByte(s, a, b, f, p, x, c);
      a', b', f' := CharFrom(s1, a, b, f, c, n + 1);
      assert CharEmissions(c)[n..] == [out] + CharEmissions(c)[n + 1..];
    }
  }

  lemma {:induction false} AppendAllSplit(s: SeqState, x: Text, y: Text)
    requires SeqOk(s)
    ensures AppendAll(s, x + y).0 == AppendAll(AppendAll(s, x).0, y).0
    ensures AppendAll(s, x + y).1 == AppendAll(s, x).1 + AppendAll(AppendAll(s, x).0, y).1
    decreases x
  {
    if x == [] {
      assert x + y == y;
    } else {
      assert (x + y)[1..] == x[1..] + y;
      AppendAllSplit(Append(s, x[0]).0, x[1..], y);
      hide Append;
      var o, u := Append(s, x[0]).1, AppendAll(Append(s, x[0]).0, x[1..]);
      var v := AppendAll(u.0, y);
      assert [o] + (u.1 + v.1) == ([o] + u.1) + v.1;
    }
  }

  lemma {:induction false} StreamFrom(s: SeqState, a: seq<Text>, b: seq<Text>, f: seq<Text>, cs: seq<Text>)
    requires ValidChars(cs) && At(s, a, b, f, [])
    ensures SeqOk(s) && AppendAll(s, Flat(cs)).1 == Emissions(cs)
    decreases cs
  {
    if cs != [] {
      assert cs[0][..0] == [] && cs[0][0..] == cs[0];
      var a', b', f' := CharFrom(s, a, b, f, cs[0], 0);
      assert CharEmissions(cs[0])[0..] == CharEmissions(cs[0]);
      StreamFrom(AppendAll(s, cs[0]).0, a', b', f', cs[1..]);
      AppendAllSplit(s, cs[0], Flat(cs[1..]));
    } else {
      Windows(s, a, b, f, [], 0);
    }
  }

  // ---------- main results

  /** Incremental decoding is exact on every structurally valid byte stream: each byte but the last
      of a character emits nothing, and the last emits the whole character (U+FFFD excepted, which
      is the hold marker and is never emitted). */
  lemma IncrementalIsExact(cs: seq<Text>)
    requires ValidChars(cs)
    ensures AppendAll(NoTokens, Flat(cs)).1 == Emissions(cs)
  {
    assert At(NoTokens, [], [], [], []);
    StreamFrom(NoTokens, [], [], [], cs);
  }

  function Joined(outs: seq<Option<Text>>): Text {
    if outs == [] then [] else (if outs[0].Some? then outs[0].value else []) + Joined(outs[1..])
  }

  lemma {:induction false} JoinedAppend(a: seq<Option<Text>>, b: seq<Option<Text>>)
    ensures Joined(a + b) == Joined(a) + Joined(b)
  {
    if a == [] {
      assert a + b == b;
    } else {
      assert (a + b)[1..] == a[1..] + b;
      JoinedAppend(a[1..], b);
    }
  }

  lemma {:induction false} JoinedChar(c: Text, n: nat)
    requires c != [] && n < |c|
    ensures Joined(CharEmissions(c)[n..]) == if c == REPLACEMENT then [] else c
    decreases |c| - n
  {
    assert CharEmissions(c)[n..][1..] == CharEmissions(c)[n + 1..];
    if n + 1 < |c| { JoinedChar(c, n + 1); }
  }

  /** The emissions join up to the input exactly when it holds no U+FFFD; otherwise they are shorter. */
  lemma {:induction false} JoinedIsInputIff(cs: seq<Text>)
    requires ValidChars(cs)
    ensures |Joined(Emissions(cs))| <= |Flat(cs)|
    ensures Joined(Emissions(cs)) == Flat(cs) <==> REPLACEMENT !in cs
  {
    if cs != [] {
      JoinedIsInputIff(cs[1..]);
      JoinedAppend(CharEmissions(cs[0]), Emissions(cs[1..]));
      assert CharEmissions(cs[0])[0..] == CharEmissions(cs[0]);
      JoinedChar(cs[0], 0);
      assert cs == [cs[0]] + cs[1..];
      if cs[0] != REPLACEMENT {
        var x, y, z := cs[0], Joined(Emissions(cs[1..])), Flat(cs[1..]);
        assert x + y == x + z ==> y == (x + y)[|x|..] == (x + z)[|x|..] == z;
      }
    }
  }
}
