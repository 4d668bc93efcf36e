/** The backend operator in place: the decoder object and the loop that turns engine deltas into
    output. `history` and `emitted` record every token decoded and every text released, so the
    contracts can speak of the whole stream. */
module Backend {
  import opened StopDecoder
  import opened Options

  datatype FinishReason = Stop | Length | Other(why: string)

  ghost predicate NoPrefixFires(cfg: Config, ps: seq<Piece>) {
    forall n :: 0 <= n <= |ps| ==> !Fires(cfg, ps[..n])
  }

  ghost predicate FiresFirstAtEnd(cfg: Config, ps: seq<Piece>) {
    Fires(cfg, ps) && forall n :: 0 <= n < |ps| ==> !Fires(cfg, ps[..n])
  }

  /** Released text followed by jailed text is all text, whatever was flushed on the way. */
  ghost predicate Conserves(cfg: Config, ps: seq<Piece>, pending: string, out: string) {
    out + pending == Text(ps) && (cfg.stops == [] ==> pending == "")
  }

  lemma StepReleases(cfg: Config, d: Decoder, p: Piece, d': Decoder, released: string)
    requires Steps(cfg, d, p, d', released, None)
    ensures cfg.stops != [] || d.pending == "" ==> released + d'.pending == d.pending + p.text
    ensures cfg.stops == [] && d.pending == "" ==> d'.pending == ""
  {
    hide Gated, ContainsStop, Cuts, IsHold;
  }

  lemma StepConserves(cfg: Config, ps: seq<Piece>, d: Decoder, out: string, p: Piece, d': Decoder, released: string)
    requires Conserves(cfg, ps, d.pending, out) && Steps(cfg, d, p, d', released, None)
    ensures Conserves(cfg, ps + [p], d'.pending, out + released)
  {
    hide Steps;
    StepReleases(cfg, d, p, d', released);
    assert (ps + [p])[..|ps|] == ps;
    assert (out + released) + d'.pending == out + (released + d'.pending);
    assert out + (d.pending + p.text) == (out + d.pending) + p.text;
  }

  lemma StartExact(cfg: Config)
    ensures Agrees(cfg, [], Start, "") && NoPrefixFires(cfg, []) && Conserves(cfg, [], "", "")
  {
    var none: seq<Piece> := [];
    assert none[..0] == none;
  }

  /** First occurrence of `s` in `t`, as `std::string::find`. */
  method Find(t: string, s: string) returns (at: Option<nat>)
    ensures at.Some? ==> FirstAt(t, s, at.value)
    ensures at.None? ==> !Contains(t, s)
  {
    var i: nat := 0;
    while i + |s| <= |t|
      invariant forall j: nat :: j < i ==> !OccursAt(t, s, j)
      decreases |t| - i
    {
      if t[i..i + |s|] == s { return Some(i); }
      i := i + 1;
    }
    at := None;
  }

  /** Length of the longest suffix of `t` that a stop sequence could still continue. */
  method LongestHold(t: string, stops: seq<string>) returns (hold: nat)
    requires forall k :: 0 <= k < |stops| ==> stops[k] != ""
    ensures IsHold(t, stops, hold)
  {
    var maxHold: nat := 0;
    for i := 0 to |stops|
      invariant forall k :: 0 <= k < i ==> |stops[k]| - 1 <= maxHold
    {
      if |stops[i]| - 1 > maxHold { maxHold := |stops[i]| - 1; }
    }
    var len := if |t| < maxHold then |t| else maxHold;
    while len > 0
      invariant 0 <= len <= |t|
      invariant forall m: nat :: len < m <= |t| ==> !Jailable(t, stops, m)
    {
      var suffix := t[|t| - len..];
      for i := 0 to |stops|
        invariant forall k :: 0 <= k < i ==> !(len < |stops[k]| && stops[k][..len] == suffix)
      {
        if len < |stops[i]| && stops[i][..len] == suffix { return len; }
      }
      len := len - 1;
    }
    hold := 0;
  }

  /** The first stop sequence found in `t`, and where. */
  method FindStop(t: string, stops: seq<string>) returns (hit: Option<(nat, nat)>)
    ensures hit.Some? ==> FirstStop(t, stops, hit.value.0) && FirstAt(t, stops[hit.value.0], hit.value.1)
    ensures hit.None? ==> !ContainsStop(t, stops)
  {
    for k := 0 to |stops|
      invariant forall j :: 0 <= j < k ==> !Contains(t, stops[j])
    {
      var at := Find(t, stops[k]);
      if at.Some? { return Some((k, at.value)); }
    }
    hit := None;
  }

  class BackendDecoder {
    const cfg: Config
    var generated: nat
    var pending: string
    ghost var history: seq<Piece>
    ghost var emitted: string

    ghost function State(): Decoder
      reads this
    {
      Decoder(generated, pending)
    }

    /** Nothing fired yet, and jail and releases are what the whole text says they should be. */
    ghost predicate Exact()
      reads this
    {
      Agrees(cfg, history, State(), emitted) && NoPrefixFires(cfg, history) && Kept()
    }

    ghost predicate Kept()
      reads this
    {
      Conserves(cfg, history, pending, emitted)
    }

    constructor (cfg: Config)
      ensures this.cfg == cfg && State() == Start && history == [] && emitted == "" && Exact()
    {
      hide Agrees, NoPrefixFires, Conserves;
      this.cfg := cfg;
      generated, pending, history, emitted := 0, "", [], "";
      new;
      StartExact(cfg);
    }

    method Flush() returns (out: string)
      modifies this`pending, this`emitted
      ensures out == old(pending) && pending == "" && emitted == old(emitted) + out
      ensures old(Kept()) ==> Kept()
    {
      out := pending;
      pending := "";
      emitted := emitted + out;
    }

    /** One token. With the jail exact, a trigger fires exactly when the whole text says so, and the
        total release is then the whole text up to the cut. */
    method Step(p: Piece) returns (released: string, trigger: Option<Trigger>)
      modifies this
      ensures Steps(cfg, old(State()), p, State(), released, trigger)
      ensures history == old(history) + [p] && emitted == old(emitted) + released
      ensures trigger.None? && old(Kept()) ==> Kept()
      ensures old(Exact()) ==> if trigger.None? then Exact()
                               else FiresFirstAtEnd(cfg, history) && CutAt(cfg, history, emitted, trigger.value)
    {
      hide Steps, Agrees, Fires, CutAt, Conserves;
      released, trigger := StepCore(p);
      history, emitted := history + [p], emitted + released;
      if trigger.None? && old(Kept()) {
        StepConserves(cfg, old(history), old(State()), old(emitted), p, State(), released);
      }
      if old(Exact()) {
        assert forall n :: 0 <= n <= |old(history)| ==> history[..n] == old(history)[..n];
        assert history[..|history|] == history;
        if trigger.None? {
          StepAgrees(cfg, old(history), old(State()), old(emitted), p, State(), released);
        } else {
          StepTriggers(cfg, old(history), old(State()), old(emitted), p, State(), released, trigger.value);
        }
      }
    }

    method StepCore(p: Piece) returns (released: string, trigger: Option<Trigger>)
      modifies this`generated, this`pending
      ensures Steps(cfg, old(State()), p, State(), released, trigger)
    {
      generated := generated + 1;
      trigger := None;
      if generated < cfg.minTokens {
        released := pending + p.text;
        pending := "";
        return;
      }
      if p.id in cfg.stopIds {
        released := pending;
        pending := "";
        trigger := Some(HiddenToken(p.id));
        return;
      }
      if cfg.stops == [] {
        released := p.text;
        return;
      }
      var candidate := pending + p.text;
      pending := "";
      var hit := FindStop(candidate, cfg.stops);
      if hit.Some? {
        var (k, i) := hit.value;
        released := candidate[..i];
        trigger := Some(HiddenSequence(cfg.stops[k]));
        assert Cuts(candidate, cfg.stops, k, i, released, trigger);
        return;
      }
      forall k | 0 <= k < |cfg.stops| ensures cfg.stops[k] != "" { assert !OccursAt(candidate, cfg.stops[k], 0); }
      var hold := LongestHold(candidate, cfg.stops);
      released := candidate[..|candidate| - hold];
      pending := candidate[|candidate| - hold..];
    }

    /** The tokens of one delta, up to and including the first that triggers. */
    method ProcessTokenIds(ps: seq<Piece>) returns (text: string, trigger: Option<Trigger>, ghost n: nat)
      modifies this
      ensures n <= |ps| && history == old(history) + ps[..n] && emitted == old(emitted) + text
      ensures if trigger.None? then n == |ps| else n > 0
      ensures trigger.None? && old(Kept()) ==> Kept()
      ensures old(Exact()) ==> if trigger.None? then Exact()
                               else FiresFirstAtEnd(cfg, history) && CutAt(cfg, history, emitted, trigger.value)
    {
      text, trigger, n := "", None, 0;
      var i := 0;
      while i < |ps|
        invariant 0 <= i <= |ps| && n == i && trigger.None?
        invariant history == old(history) + ps[..i] && emitted == old(emitted) + text
        invariant old(Kept()) ==> Kept()
        invariant old(Exact()) ==> Exact()
      {
        var released;
        released, trigger := Step(ps[i]);
        text := text + released;
        i := i + 1;
        n := i;
        if trigger.Some? { return; }
      }
    }
  }

  // ---------- the stream

  datatype Delta = Delta(tokens: seq<Piece>, text: Option<string>, finish: Option<FinishReason>)

  /** A stream item: an annotation event or a data-less item, or an engine delta. */
  datatype Item = Item(isEvent: bool, data: Option<Delta>)

  /** What is yielded for an item; `decoded` tells this operator's own text from passed-on text. */
  datatype Output = Output(decoded: bool, text: string, finish: Option<FinishReason>)

  predicate Decodes(item: Item, validate: bool) {
    !item.isEvent && item.data.Some? && (item.data.value.text.None? || validate)
  }

  /** The tokens this operator decodes. */
  function Tokens(items: seq<Item>, validate: bool): seq<Piece> {
    if items == [] then []
    else
      var last := items[|items| - 1];
      Tokens(items[..|items| - 1], validate) + (if Decodes(last, validate) then last.data.value.tokens else [])
  }

  function DecodedText(outs: seq<Output>): string {
    if outs == [] then ""
    else
      var last := outs[|outs| - 1];
      DecodedText(outs[..|outs| - 1]) + (if last.decoded then last.text else "")
  }

  lemma DecodedTextSnoc(outs: seq<Output>, o: Output)
    ensures DecodedText(outs + [o]) == DecodedText(outs) + (if o.decoded then o.text else "")
  {
    assert (outs + [o])[..|outs|] == outs;
  }

  lemma TokensSnoc(items: seq<Item>, i: nat, validate: bool)
    requires i < |items|
    ensures Tokens(items[..i + 1], validate)
         == Tokens(items[..i], validate) + (if Decodes(items[i], validate) then items[i].data.value.tokens else [])
  {
    assert items[..i + 1][..i] == items[..i];
  }

  predicate Finishes(item: Item, validate: bool) {
    Decodes(item, validate) && item.data.value.finish.Some?
  }

  /** A finish reason may come only with the last item. */
  predicate OnlyLastFinishes(items: seq<Item>, validate: bool) {
    forall i :: 0 <= i < |items| - 1 ==> !Finishes(items[i], validate)
  }

  /** One decoded delta: what it yields and whether the engine is told to stop. */
  method HandleDelta(decoder: BackendDecoder, data: Delta)
    returns (o: Output, trigger: Option<Trigger>, stopIssued: bool, ghost n: nat)
    modifies decoder
    ensures n <= |data.tokens| && decoder.history == old(decoder.history) + data.tokens[..n]
    ensures o.decoded && decoder.emitted == old(decoder.emitted) + o.text
    ensures o.finish == if trigger.Some? then Some(Stop) else data.finish
    ensures stopIssued <==> trigger.Some? && data.finish.None?
    ensures if trigger.None? then n == |data.tokens| else n > 0
    ensures trigger.None? && old(decoder.Kept()) ==> decoder.Kept() && (data.finish.Some? ==> decoder.pending == "")
    ensures trigger.None? && old(decoder.Exact()) ==>
              NoPrefixFires(decoder.cfg, decoder.history) && (data.finish.None? ==> decoder.Exact())
    ensures trigger.Some? && old(decoder.Exact()) ==>
              FiresFirstAtEnd(decoder.cfg, decoder.history) && CutAt(decoder.cfg, decoder.history, decoder.emitted, trigger.value)
  {
    var text;
    text, trigger, n := decoder.ProcessTokenIds(data.tokens);
    stopIssued := data.finish.None? && trigger.Some?;
    var finish := if trigger.Some? then Some(Stop) else data.finish;
    if finish.Some? && trigger.None? {
      var flushed := decoder.Flush();
      text := text + flushed;
    }
    o := Output(true, text, finish);
  }

  predicate AnyFinishes(items: seq<Item>, validate: bool) {
    exists i :: 0 <= i < |items| && Finishes(items[i], validate)
  }

  /** The items before `i` have been consumed without a trigger. */
  ghost predicate Untriggered(decoder: BackendDecoder, items: seq<Item>, i: nat, validate: bool, outs: seq<Output>,
                              finished: bool)
    requires i <= |items|
    reads decoder
  {
    && decoder.history == Tokens(items[..i], validate)
    && (finished <==> AnyFinishes(items[..i], validate))
    && decoder.Kept()
    && DecodedText(outs) == decoder.emitted
    && (!finished ==> decoder.Exact())
    && (finished && OnlyLastFinishes(items, validate) ==>
          i == |items| && decoder.pending == "" && NoPrefixFires(decoder.cfg, decoder.history))
  }

  lemma AnyFinishesSnoc(items: seq<Item>, i: nat, validate: bool)
    requires i < |items|
    ensures AnyFinishes(items[..i + 1], validate) <==> AnyFinishes(items[..i], validate) || Finishes(items[i], validate)
    ensures OnlyLastFinishes(items, validate) && Finishes(items[i], validate) ==> i + 1 == |items|
  {
    assert items[..i + 1] == items[..i] + [items[i]];
    if Finishes(items[i], validate) { assert Finishes(items[..i + 1][i], validate); }
  }

  /** A trigger ended the stream within item `i`. */
  ghost predicate Triggered(decoder: BackendDecoder, items: seq<Item>, i: nat, validate: bool, outs: seq<Output>,
                            trigger: Trigger)
    requires i < |items|
    reads decoder
  {
    && Decodes(items[i], validate)
    && |Tokens(items[..i], validate)| < |decoder.history|
    && decoder.history <= Tokens(items[..i + 1], validate)
    && outs != [] && outs[|outs| - 1].finish == Some(Stop)
    && (OnlyLastFinishes(items, validate) ==>
          FiresFirstAtEnd(decoder.cfg, decoder.history) && CutAt(decoder.cfg, decoder.history, DecodedText(outs), trigger))
  }

  /** The stream loop. Without a trigger it consumes every item, and its text is all decoded text
      except what is still jailed after an early finish; with the finish reason on the last item at
      most, nothing is ever lost. A trigger fires exactly at the first token where a search over all
      text fires; the text is then all text up to the cut, no later item is consumed, and the engine
      is told to stop unless it finished by itself. */
  method DecodeStream(decoder: BackendDecoder, items: seq<Item>, validate: bool)
    returns (outs: seq<Output>, consumed: nat, trigger: Option<Trigger>, stopIssued: bool)
    requires decoder.State() == Start && decoder.history == [] && decoder.emitted == "" && decoder.Exact()
    modifies decoder
    ensures consumed <= |items|
    ensures trigger.None? ==> consumed == |items| && !stopIssued
    ensures trigger.None? ==> DecodedText(outs) + decoder.pending == Text(Tokens(items, validate))
    ensures trigger.None? && !AnyFinishes(items, validate) ==> decoder.pending == ""
    ensures trigger.None? && OnlyLastFinishes(items, validate) ==>
              DecodedText(outs) == Text(Tokens(items, validate)) && NoPrefixFires(decoder.cfg, Tokens(items, validate))
    ensures trigger.Some? ==> 0 < consumed && Triggered(decoder, items, consumed - 1, validate, outs, trigger.value)
    ensures trigger.Some? ==> (stopIssued <==> items[consumed - 1].data.value.finish.None?)
  {
    outs, consumed, trigger, stopIssued := [], 0, None, false;
    var finished := false;
    assert items[..0] == [];
    while consumed < |items|
      invariant 0 <= consumed <= |items| && trigger.None? && !stopIssued
      invariant Untriggered(decoder, items, consumed, validate, outs, finished)
      decreases |items| - consumed
    {
      outs, trigger, stopIssued, finished := ConsumeItem(decoder, items, consumed, validate, outs, finished);
      consumed := consumed + 1;
      if trigger.Some? { return; }
    }
    outs := EndStream(decoder, items, validate, outs, finished);
  }

  /** The stream ended: without a finishing delta the jailed text is released now. */
  method EndStream(decoder: BackendDecoder, items: seq<Item>, validate: bool, before: seq<Output>, finished: bool)
    returns (outs: seq<Output>)
    requires Untriggered(decoder, items, |items|, validate, before, finished)
    modifies decoder
    ensures DecodedText(outs) + decoder.pending == Text(Tokens(items, validate))
    ensures !AnyFinishes(items, validate) || OnlyLastFinishes(items, validate) ==> decoder.pending == ""
    ensures OnlyLastFinishes(items, validate) ==> NoPrefixFires(decoder.cfg, Tokens(items, validate))
  {
    assert items[..|items|] == items;
    outs := before;
    if !finished {
      var flushed := decoder.Flush();
      if flushed != "" {
        DecodedTextSnoc(outs, Output(true, flushed, None));
        outs := outs + [Output(true, flushed, None)];
      }
    }
  }

  method ConsumeItem(decoder: BackendDecoder, items: seq<Item>, i: nat, validate: bool, before: seq<Output>,
                     wasFinished: bool)
    returns (outs: seq<Output>, trigger: Option<Trigger>, stopIssued: bool, finished: bool)
    requires i < |items| && Untriggered(decoder, items, i, validate, before, wasFinished)
    modifies decoder
    ensures trigger.None? ==> !stopIssued && Untriggered(decoder, items, i + 1, validate, outs, finished)
    ensures trigger.Some? ==> Triggered(decoder, items, i, validate, outs, trigger.value)
    ensures trigger.Some? ==> (stopIssued <==> items[i].data.value.finish.None?)
  {
    TokensSnoc(items, i, validate);
    AnyFinishesSnoc(items, i, validate);
    trigger, stopIssued, finished := None, false, wasFinished;
    var o;
    if !Decodes(items[i], validate) {
      o := PassThrough(items[i]);
    } else {
      ghost var n;
      o, trigger, stopIssued, n := HandleDelta(decoder, items[i].data.value);
      if trigger.None? {
        assert items[i].data.value.tokens[..n] == items[i].data.value.tokens;
        if o.finish.Some? { finished := true; }
      }
    }
    DecodedTextSnoc(before, o);
    outs := before + [o];
  }

  function PassThrough(item: Item): Output {
    if item.data.None? then Output(false, "", None)
    else Output(false, if item.data.value.text.Some? then item.data.value.text.value else "", item.data.value.finish)
  }
}
