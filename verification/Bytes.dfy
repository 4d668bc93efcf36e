/** Runs of byte copies into a slab, and what they leave when no two of them overlap. */
module Bytes {

  type byte = bv8

  datatype Write = Write(at: nat, data: seq<byte>)

  predicate Fits(w: Write, size: nat) { w.at + |w.data| <= size }

  predicate AllFit(ws: seq<Write>, size: nat) { forall i :: 0 <= i < |ws| ==> Fits(ws[i], size) }

  predicate Apart(v: Write, w: Write) { v.at + |v.data| <= w.at || w.at + |w.data| <= v.at }

  ghost predicate Disjoint(ws: seq<Write>) { forall i, j :: 0 <= i < j < |ws| ==> Apart(ws[i], ws[j]) }

  predicate Covers(w: Write, k: int) { w.at <= k < w.at + |w.data| }

  ghost predicate Covered(ws: seq<Write>, k: int) { exists i :: 0 <= i < |ws| && Covers(ws[i], k) }

  function Blit(s: seq<byte>, w: Write): (r: seq<byte>)
    requires Fits(w, |s|)
    ensures |r| == |s|
  {
    s[..w.at] + w.data + s[w.at + |w.data|..]
  }

  lemma BlitAt(s: seq<byte>, w: Write, k: nat)
    requires Fits(w, |s|) && k < |s|
    ensures Blit(s, w)[k] == if Covers(w, k) then w.data[k - w.at] else s[k]
  {
  }

  /** One write after another. */
  function BlitAll(s: seq<byte>, ws: seq<Write>): (r: seq<byte>)
    requires AllFit(ws, |s|)
    ensures |r| == |s|
  {
    if ws == [] then s else Blit(BlitAll(s, ws[..|ws| - 1]), ws[|ws| - 1])
  }

  /** The first `n` writes have been made. */
  ghost predicate Done(now: seq<byte>, was: seq<byte>, ws: seq<Write>, n: int) {
    0 <= n <= |ws| && AllFit(ws, |was|) && now == BlitAll(was, ws[..n])
  }

  lemma BlitNone(s: seq<byte>)
    ensures BlitAll(s, []) == s
  {
  }

  lemma BlitAllStep(s: seq<byte>, ws: seq<Write>, n: nat)
    requires AllFit(ws, |s|) && n < |ws|
    ensures BlitAll(s, ws[..n + 1]) == Blit(BlitAll(s, ws[..n]), ws[n])
  {
    assert ws[..n + 1][..n] == ws[..n];
  }

  /** Writes that do not overlap all survive, and touch nothing else. */
  lemma {:induction false} BlitAllAt(s: seq<byte>, ws: seq<Write>, k: nat)
    requires AllFit(ws, |s|) && Disjoint(ws) && k < |s|
    ensures forall i :: 0 <= i < |ws| && Covers(ws[i], k) ==> BlitAll(s, ws)[k] == ws[i].data[k - ws[i].at]
    ensures !Covered(ws, k) ==> BlitAll(s, ws)[k] == s[k]
  {
    if ws == [] {
    } else {
      var n := |ws| - 1;
      var rest := ws[..n];
      BlitAllAt(s, rest, k);
      BlitAt(BlitAll(s, rest), ws[n], k);
      if !Covered(ws, k) {
        assert !Covers(ws[n], k);
        assert forall i :: 0 <= i < n ==> rest[i] == ws[i];
      }
      forall i | 0 <= i < |ws| && Covers(ws[i], k)
        ensures BlitAll(s, ws)[k] == ws[i].data[k - ws[i].at]
      {
        if i < n {
          assert rest[i] == ws[i] && Apart(ws[i], ws[n]);
        }
      }
    }
  }

  lemma BlitAllKeeps(s: seq<byte>, ws: seq<Write>, i: nat)
    requires AllFit(ws, |s|) && Disjoint(ws) && i < |ws|
    ensures Fits(ws[i], |s|) && BlitAll(s, ws)[ws[i].at..ws[i].at + |ws[i].data|] == ws[i].data
  {
    hide BlitAll, Disjoint;
    forall k | ws[i].at <= k < ws[i].at + |ws[i].data| ensures BlitAll(s, ws)[k] == ws[i].data[k - ws[i].at] {
      BlitAllAt(s, ws, k);
      assert Covers(ws[i], k);
    }
  }

  /** Copies `data` over the slab from `at` on. */
  method Memcpy(slab: array<byte>, at: nat, data: seq<byte>)
    requires at + |data| <= slab.Length
    modifies slab
    ensures slab[..] == Blit(old(slab[..]), Write(at, data))
  {
    var i := 0;
    while i < |data|
      invariant 0 <= i <= |data|
      invariant forall k :: 0 <= k < slab.Length ==> slab[k] == if at <= k < at + i then data[k - at] else old(slab[k])
    {
      slab[at + i] := data[i];
      i := i + 1;
    }
    assert slab[..] == Blit(old(slab[..]), Write(at, data));
  }
}
