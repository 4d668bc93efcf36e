/** The streaming stop-sequence decoder. Text that could begin a stop sequence is jailed; the
    results here say that this incremental jail detects and cuts exactly as a search over the whole
    text would. The detokenizer is seen through the text piece it returns for each token. */
module StopDecoder {

  import opened Options

  type TokenId = nat

  datatype Trigger = HiddenToken(id: TokenId) | HiddenSequence(seqText: string)

  datatype Config = Config(minTokens: nat, stopIds: set<TokenId>, stops: seq<string>)

  datatype Decoder = Decoder(generated: nat, pending: string)

  /** One generated token and the text it decodes to. */
  datatype Piece = Piece(id: TokenId, text: string)

  const Start := Decoder(0, "")

  // ---------- searching a whole text

  predicate OccursAt(t: string, s: string, i: nat) { i + |s| <= |t| && t[i..i + |s|] == s }

  ghost predicate Contains(t: string, s: string) { exists i: nat :: OccursAt(t, s, i) }

  ghost predicate FirstAt(t: string, s: string, i: nat) {
    OccursAt(t, s, i) && forall j: nat :: j < i ==> !OccursAt(t, s, j)
  }

  /** The first of `stops`, in their order, that occurs in `t`. */
  ghost predicate FirstStop(t: string, stops: seq<string>, k: nat) {
    k < |stops| && Contains(t, stops[k]) && forall j :: 0 <= j < k ==> !Contains(t, stops[j])
  }

  ghost predicate ContainsStop(t: string, stops: seq<string>) {
    exists k :: 0 <= k < |stops| && Contains(t, stops[k])
  }

  /** The last `n` characters of `t` are a proper prefix of some stop sequence. */
  predicate Jailable(t: string, stops: seq<string>, n: nat) {
    n <= |t| && exists k :: 0 <= k < |stops| && n < |stops[k]| && stops[k][..n] == t[|t| - n..]
  }

  /** `n` is the length of the longest suffix of `t` that could still begin a stop sequence. */
  ghost predicate IsHold(t: string, stops: seq<string>, n: nat) {
    n <= |t| && (n == 0 || Jailable(t, stops, n)) && forall m: nat :: n < m <= |t| ==> !Jailable(t, stops, m)
  }

  // ---------- the jail is enough

  /** An occurrence in `t + piece` lies in `t`, or leaves a proper prefix of itself at its end, or
      starts after it. */
  lemma OccurrenceSplits(t: string, piece: string, stops: seq<string>, k: nat, i: nat)
    requires k < |stops| && OccursAt(t + piece, stops[k], i)
    ensures i + |stops[k]| <= |t| ==> OccursAt(t, stops[k], i)
    ensures i <= |t| < i + |stops[k]| ==> Jailable(t, stops, |t| - i)
  {
    var s, whole := stops[k], t + piece;
    if i + |s| <= |t| {
      assert t[i..i + |s|] == whole[i..i + |s|];
    } else if i <= |t| {
      assert s[..|t| - i] == whole[i..i + |s|][..|t| - i] == t[i..];
    }
  }

  /** Whatever stop sequence completes with the new piece, all of it is in the jail or the piece. */
  lemma OccurrenceInCandidate(t: string, n: nat, piece: string, stops: seq<string>, k: nat, i: nat)
    requires IsHold(t, stops, n) && k < |stops| && !Contains(t, stops[k])
    ensures OccursAt(t + piece, stops[k], i)
       <==> i >= |t| - n && OccursAt(t[|t| - n..] + piece, stops[k], i - (|t| - n))
  {
    var s, whole, cand := stops[k], t + piece, t[|t| - n..] + piece;
    assert whole[|t| - n..] == cand;
    if OccursAt(whole, s, i) { OccurrenceSplits(t, piece, stops, k, i); }
    if |t| - n <= i && i + |s| <= |whole| {
      assert cand[i - (|t| - n)..i - (|t| - n) + |s|] == whole[i..i + |s|];
    }
  }

  lemma ContainsInCandidate(t: string, n: nat, piece: string, stops: seq<string>, k: nat)
    requires IsHold(t, stops, n) && k < |stops| && !Contains(t, stops[k])
    ensures Contains(t + piece, stops[k]) <==> Contains(t[|t| - n..] + piece, stops[k])
  {
    var whole, cand := t + piece, t[|t| - n..] + piece;
    if Contains(cand, stops[k]) {
      var i: nat :| OccursAt(cand, stops[k], i);
      OccurrenceInCandidate(t, n, piece, stops, k, i + |t| - n);
      assert OccursAt(whole, stops[k], i + |t| - n);
    }
    if Contains(whole, stops[k]) {
      var i: nat :| OccursAt(whole, stops[k], i);
      OccurrenceInCandidate(t, n, piece, stops, k, i);
    }
  }

  lemma FirstInCandidate(t: string, n: nat, piece: string, stops: seq<string>, k: nat, i: nat)
    requires IsHold(t, stops, n) && k < |stops| && !Contains(t, stops[k])
    requires FirstAt(t[|t| - n..] + piece, stops[k], i)
    ensures FirstAt(t + piece, stops[k], i + |t| - n)
  {
    OccurrenceInCandidate(t, n, piece, stops, k, i + |t| - n);
    forall j: nat | j < i + |t| - n ensures !OccursAt(t + piece, stops[k], j) {
      OccurrenceInCandidate(t, n, piece, stops, k, j);
    }
  }

  lemma JailableShorter(t: string, piece: string, stops: seq<string>, m: nat)
    ensures Jailable(t + piece, stops, m) && m >= |piece| ==> Jailable(t, stops, m - |piece|)
  {
    if Jailable(t + piece, stops, m) && m >= |piece| {
      var whole, m' := t + piece, m - |piece|;
      var k :| 0 <= k < |stops| && m < |stops[k]| && stops[k][..m] == whole[|whole| - m..];
      assert stops[k][..m'] == stops[k][..m][..m'] == t[|t| - m'..];
    }
  }

  /** The longest jailable suffix of the whole text is that of the candidate. */
  lemma HoldInCandidate(t: string, n: nat, piece: string, stops: seq<string>, n': nat)
    requires IsHold(t, stops, n) && IsHold(t[|t| - n..] + piece, stops, n')
    ensures IsHold(t + piece, stops, n')
  {
    var whole, cand := t + piece, t[|t| - n..] + piece;
    forall m: nat | m <= |cand| ensures Jailable(cand, stops, m) <==> Jailable(whole, stops, m) {
      assert cand[|cand| - m..] == whole[|whole| - m..];
    }
    forall m: nat | n' < m <= |whole| ensures !Jailable(whole, stops, m) {
      JailableShorter(t, piece, stops, m);
    }
  }

  // ---------- one step

  predicate Gated(cfg: Config, i: nat) { i + 1 >= cfg.minTokens }

  /** What one step may do: new state, released text, trigger. */
  ghost predicate Steps(cfg: Config, d: Decoder, p: Piece, d': Decoder, released: string, trigger: Option<Trigger>) {
    && d'.generated == d.generated + 1
    && if !Gated(cfg, d.generated) then
         released == d.pending + p.text && d'.pending == "" && trigger == None
       else if p.id in cfg.stopIds then
         released == d.pending && d'.pending == "" && trigger == Some(HiddenToken(p.id))
       else if cfg.stops == [] then
         released == p.text && d'.pending == d.pending && trigger == None
       else if ContainsStop(d.pending + p.text, cfg.stops) then
         && d'.pending == "" && trigger.Some?
         && exists k: nat, i: nat :: Cuts(d.pending + p.text, cfg.stops, k, i, released, trigger)
       else
         && trigger == None
         && released + d'.pending == d.pending + p.text
         && IsHold(d.pending + p.text, cfg.stops, |d'.pending|)
  }

  /** `released` is `t` up to the first occurrence of the stop sequence that fires. */
  ghost predicate Cuts(t: string, stops: seq<string>, k: nat, i: nat, released: string, trigger: Option<Trigger>) {
    && FirstStop(t, stops, k)
    && FirstAt(t, stops[k], i)
    && released == t[..i]
    && trigger == Some(HiddenSequence(stops[k]))
  }

  // ---------- runs against the batch search

  function Text(ps: seq<Piece>): string {
    if ps == [] then "" else Text(ps[..|ps| - 1]) + ps[|ps| - 1].text
  }

  /** All text since the gate opened. */
  function GateText(cfg: Config, ps: seq<Piece>): string {
    if ps == [] then ""
    else if !Gated(cfg, |ps| - 1) then ""
    else GateText(cfg, ps[..|ps| - 1]) + ps[|ps| - 1].text
  }

  /** A search over the whole text fires on the last of `ps`: it is a hidden stop token, or the
      text since the gate contains a stop sequence. */
  ghost predicate Fires(cfg: Config, ps: seq<Piece>) {
    && ps != []
    && Gated(cfg, |ps| - 1)
    && (ps[|ps| - 1].id in cfg.stopIds || ContainsStop(GateText(cfg, ps), cfg.stops))
  }

  predicate Opened(cfg: Config, ps: seq<Piece>) { ps != [] && Gated(cfg, |ps| - 1) }

  /** The jail is the longest suffix of the text `t` since the gate that is a proper prefix of a
      stop sequence; once a gated step has been taken, `t` contains no stop sequence. */
  ghost predicate Jailed(t: string, pending: string, stops: seq<string>, gated: bool) {
    && |pending| <= |t| && pending == t[|t| - |pending|..]
    && IsHold(t, stops, |pending|)
    && if gated then !ContainsStop(t, stops) else t == ""
  }

  /** The decoder's state after `ps` without a trigger, and everything it has released. */
  ghost predicate Agrees(cfg: Config, ps: seq<Piece>, d: Decoder, released: string) {
    && d.generated == |ps|
    && released + d.pending == Text(ps)
    && Jailed(GateText(cfg, ps), d.pending, cfg.stops, Opened(cfg, ps))
  }

  lemma JailedSuffix(t: string, pending: string, stops: seq<string>, gated: bool)
    requires Jailed(t, pending, stops, gated)
    ensures |pending| <= |t| && pending == t[|t| - |pending|..]
  {
  }

  lemma FirstAtBound(t: string, s: string, i: nat)
    requires FirstAt(t, s, i)
    ensures i <= |t|
  {
  }

  lemma JailedEmpty(stops: seq<string>)
    ensures Jailed("", "", stops, false)
  {
  }

  lemma JailedFree(t: string, pending: string, stops: seq<string>)
    requires Jailed(t, pending, stops, true)
    ensures !ContainsStop(t, stops)
  {
  }

  lemma JailedNoStops(t: string, pending: string, gated: bool)
    requires Jailed(t, pending, [], gated)
    ensures pending == "" && forall u :: Jailed(u, "", [], true)
  {
  }

  /** The candidate contains the same stop sequences as all text since the gate. */
  lemma CandidateContains(t: string, pending: string, stops: seq<string>, gated: bool, piece: string, k: nat)
    requires Jailed(t, pending, stops, gated) && k < |stops|
    ensures Contains(pending + piece, stops[k]) <==> Contains(t + piece, stops[k])
  {
    if gated { ContainsInCandidate(t, |pending|, piece, stops, k); }
  }

  lemma CandidateStops(t: string, pending: string, stops: seq<string>, gated: bool, piece: string)
    requires Jailed(t, pending, stops, gated)
    ensures ContainsStop(pending + piece, stops) <==> ContainsStop(t + piece, stops)
    ensures forall k: nat :: FirstStop(pending + piece, stops, k) ==> FirstStop(t + piece, stops, k)
  {
    hide Jailed, Contains;
    forall k | 0 <= k < |stops| ensures Contains(pending + piece, stops[k]) <==> Contains(t + piece, stops[k]) {
      CandidateContains(t, pending, stops, gated, piece, k);
    }
  }

  lemma CandidateFirst(t: string, pending: string, stops: seq<string>, gated: bool, piece: string, k: nat, i: nat)
    requires Jailed(t, pending, stops, gated) && k < |stops| && FirstAt(pending + piece, stops[k], i)
    ensures FirstAt(t + piece, stops[k], i + |t| - |pending|)
  {
    if gated { FirstInCandidate(t, |pending|, piece, stops, k, i); }
  }

  lemma JailedStep(t: string, pending: string, stops: seq<string>, gated: bool, piece: string, released: string,
                   pending': string)
    requires Jailed(t, pending, stops, gated) && !ContainsStop(pending + piece, stops)
    requires released + pending' == pending + piece && IsHold(pending + piece, stops, |pending'|)
    ensures Jailed(t + piece, pending', stops, true)
  {
    hide IsHold, ContainsStop;
    CandidateStops(t, pending, stops, gated, piece);
    HoldInCandidate(t, |pending|, piece, stops, |pending'|);
    var cand, whole := pending + piece, t + piece;
    assert whole[|t| - |pending|..] == cand;
    assert pending' == cand[|cand| - |pending'|..];
  }

  lemma GateContinues(cfg: Config, ps: seq<Piece>, p: Piece)
    ensures Text(ps + [p]) == Text(ps) + p.text
    ensures GateText(cfg, ps + [p]) == if Gated(cfg, |ps|) then GateText(cfg, ps) + p.text else ""
    ensures Opened(cfg, ps + [p]) == Gated(cfg, |ps|)
  {
    assert (ps + [p])[..|ps|] == ps;
  }

  /** An untriggered step keeps the agreement: the jail is the longest suffix of all text since the
      gate that is a proper prefix of a stop sequence, and the rest has been released. */
  lemma StepAgrees(cfg: Config, ps: seq<Piece>, d: Decoder, out: string, p: Piece, d': Decoder, released: string)
    requires Agrees(cfg, ps, d, out) && Steps(cfg, d, p, d', released, None)
    ensures Agrees(cfg, ps + [p], d', out + released) && !Fires(cfg, ps + [p])
  {
    hide Jailed, Steps, GateText, Text, ContainsStop;
    GateContinues(cfg, ps, p);
    StepJailed(cfg, GateText(cfg, ps), Opened(cfg, ps), d, p, d', released);
    assert (out + released) + d'.pending == out + (released + d'.pending);
    assert out + (d.pending + p.text) == (out + d.pending) + p.text;
  }

  lemma StepJailed(cfg: Config, t: string, gated: bool, d: Decoder, p: Piece, d': Decoder, released: string)
    requires Jailed(t, d.pending, cfg.stops, gated) && Steps(cfg, d, p, d', released, None)
    ensures d'.generated == d.generated + 1 && released + d'.pending == d.pending + p.text
    ensures if Gated(cfg, d.generated) then
              && Jailed(t + p.text, d'.pending, cfg.stops, true)
              && p.id !in cfg.stopIds && !ContainsStop(t + p.text, cfg.stops)
            else Jailed("", d'.pending, cfg.stops, false)
  {
    hide Jailed, ContainsStop, IsHold, Cuts;
    if !Gated(cfg, d.generated) {
      JailedEmpty(cfg.stops);
    } else if cfg.stops == [] {
      JailedNoStops(t, d.pending, gated);
      JailedFree(t + p.text, "", []);
    } else {
      JailedStep(t, d.pending, cfg.stops, gated, p.text, released, d'.pending);
      JailedFree(t + p.text, d'.pending, cfg.stops);
    }
  }

  /** What a triggering run has released in total, in terms of the whole text alone: everything
      before a hidden stop token, or everything up to the first occurrence, in the text since the
      gate, of the first stop sequence contained in it. */
  ghost predicate CutAt(cfg: Config, ps: seq<Piece>, out: string, trigger: Trigger)
    requires ps != []
  {
    var p, t := ps[|ps| - 1], GateText(cfg, ps);
    match trigger
    case HiddenToken(id) => id == p.id && id in cfg.stopIds && out == Text(ps[..|ps| - 1])
    case HiddenSequence(s) => p.id !in cfg.stopIds && exists k: nat, i: nat :: CutsBefore(t, cfg.stops, k, i, s, out, Text(ps))
  }

  ghost predicate CutsBefore(t: string, stops: seq<string>, k: nat, i: nat, s: string, out: string, all: string) {
    i <= |t| && FirstStop(t, stops, k) && s == stops[k] && FirstAt(t, s, i) && out + t[i..] == all
  }

  lemma StepTriggers(cfg: Config, ps: seq<Piece>, d: Decoder, out: string, p: Piece, d': Decoder, released: string,
                     trigger: Trigger)
    requires Agrees(cfg, ps, d, out) && Steps(cfg, d, p, d', released, Some(trigger))
    ensures Fires(cfg, ps + [p]) && CutAt(cfg, ps + [p], out + released, trigger)
  {
    hide Jailed, GateText, Text, FirstAt, Contains, Cuts;
    assert (ps + [p])[..|ps|] == ps;
    GateContinues(cfg, ps, p);
    var t := GateText(cfg, ps);
    if p.id !in cfg.stopIds {
      var k, i := SequenceCut(cfg, t, Opened(cfg, ps), d, p, d', released, trigger);
      var i' := i + |t| - |d.pending|;
      CutRejoins(out, d.pending, p.text, t, i);
      assert CutsBefore(t + p.text, cfg.stops, k, i', cfg.stops[k], out + released, Text(ps + [p]));
    }
  }

  lemma SequenceCut(cfg: Config, t: string, gated: bool, d: Decoder, p: Piece, d': Decoder, released: string,
                    trigger: Trigger)
    returns (k: nat, i: nat)
    requires Jailed(t, d.pending, cfg.stops, gated) && Steps(cfg, d, p, d', released, Some(trigger)) && p.id !in cfg.stopIds
    ensures |d.pending| <= |t| && d.pending == t[|t| - |d.pending|..] && Gated(cfg, d.generated)
    ensures i <= |d.pending + p.text| && released == (d.pending + p.text)[..i]
    ensures FirstStop(t + p.text, cfg.stops, k) && trigger == HiddenSequence(cfg.stops[k])
    ensures FirstAt(t + p.text, cfg.stops[k], i + |t| - |d.pending|)
  {
    hide Contains, FirstAt, OccursAt, IsHold, Jailed;
    JailedSuffix(t, d.pending, cfg.stops, gated);
    k, i :| Cuts(d.pending + p.text, cfg.stops, k, i, released, Some(trigger));
    FirstAtBound(d.pending + p.text, cfg.stops[k], i);
    CandidateStops(t, d.pending, cfg.stops, gated, p.text);
    CandidateFirst(t, d.pending, cfg.stops, gated, p.text, k, i);
  }

  lemma CutRejoins(out: string, pending: string, piece: string, t: string, i: nat)
    requires |pending| <= |t| && pending == t[|t| - |pending|..] && i <= |pending + piece|
    ensures (out + (pending + piece)[..i]) + (t + piece)[i + |t| - |pending|..] == (out + pending) + piece
  {
    var cand, whole := pending + piece, t + piece;
    assert whole[|t| - |pending|..] == cand;
    assert whole[i + |t| - |pending|..] == cand[i..];
  }

  // ---------- main result

  function Concat(texts: seq<string>): string {
    if texts == [] then "" else Concat(texts[..|texts| - 1]) + texts[|texts| - 1]
  }

  /** A run of the decoder from its start, without a trigger. */
  ghost predicate IsQuietRun(cfg: Config, ps: seq<Piece>, ds: seq<Decoder>, outs: seq<string>) {
    && |ds| == |ps| + 1 && |outs| == |ps| && ds[0] == Start
    && forall i :: 0 <= i < |ps| ==> Steps(cfg, ds[i], ps[i], ds[i + 1], outs[i], None)
  }

  lemma {:induction false} QuietRunAgrees(cfg: Config, ps: seq<Piece>, ds: seq<Decoder>, outs: seq<string>, n: nat)
    requires IsQuietRun(cfg, ps, ds, outs) && n <= |ps|
    ensures Agrees(cfg, ps[..n], ds[n], Concat(outs[..n])) && !Fires(cfg, ps[..n])
  {
    if n == 0 {
      JailedEmpty(cfg.stops);
    } else {
      hide Agrees, Steps, Fires;
      assert ps[..n] == ps[..n - 1] + [ps[n - 1]];
      assert Concat(outs[..n]) == Concat(outs[..n - 1]) + outs[n - 1] by { assert outs[..n][..n - 1] == outs[..n - 1]; }
      QuietRunAgrees(cfg, ps, ds, outs, n - 1);
      StepAgrees(cfg, ps[..n - 1], ds[n - 1], Concat(outs[..n - 1]), ps[n - 1], ds[n], outs[n - 1]);
    }
  }

  /** Streaming stop detection equals batch search. While a run has not triggered, the jail is the
      longest suffix of the text since the gate that is a proper prefix of a stop sequence, all else
      is released, and no prefix of the run fires. The next step triggers exactly if the batch
      search fires there, and the run has then released the whole text up to the cut. */
  lemma StreamingEqualsBatch(cfg: Config, ps: seq<Piece>, ds: seq<Decoder>, outs: seq<string>, p: Piece, d: Decoder,
                             out: string, trigger: Option<Trigger>)
    requires IsQuietRun(cfg, ps, ds, outs) && Steps(cfg, ds[|ps|], p, d, out, trigger)
    ensures forall n :: 0 <= n <= |ps| ==> !Fires(cfg, ps[..n])
    ensures Agrees(cfg, ps, ds[|ps|], Concat(outs))
    ensures trigger.Some? <==> Fires(cfg, ps + [p])
    ensures trigger.Some? ==> CutAt(cfg, ps + [p], Concat(outs) + out, trigger.value)
  {
    hide Agrees, Steps, Fires, CutAt;
    forall n | 0 <= n <= |ps| ensures !Fires(cfg, ps[..n]) { QuietRunAgrees(cfg, ps, ds, outs, n); }
    QuietRunAgrees(cfg, ps, ds, outs, |ps|);
    assert ps[..|ps|] == ps && outs[..|ps|] == outs;
    if trigger.None? {
      StepAgrees(cfg, ps, ds[|ps|], Concat(outs), p, d, out);
    } else {
      StepTriggers(cfg, ps, ds[|ps|], Concat(outs), p, d, out, trigger.value);
    }
  }
}
