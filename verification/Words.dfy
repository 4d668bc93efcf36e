/** The machine's unsigned 64-bit arithmetic. */
module Words {

  import opened MixedRadix

  const WORD: nat := 0x1_0000_0000_0000_0000

  function Wrap(n: nat): (r: nat)
    ensures r < WORD
  {
    n % WORD
  }

  function WrapAll(s: seq<nat>): (r: seq<nat>)
    ensures |r| == |s|
    ensures forall i :: 0 <= i < |s| ==> r[i] == Wrap(s[i])
  {
    seq(|s|, i requires 0 <= i < |s| => Wrap(s[i]))
  }

  lemma WrapSmall(n: nat)
    requires n < WORD
    ensures Wrap(n) == n
  {
  }

  lemma WrapSum(a: nat, b: nat)
    ensures Wrap(Wrap(a) + b) == Wrap(a + b)
  {
  }

  lemma WrapSums(a: nat, b: nat, c: nat, d: nat)
    requires Wrap(a) == Wrap(c) && Wrap(b) == Wrap(d)
    ensures Wrap(a + b) == Wrap(c + d)
  {
    hide Wrap;
    WrapSum(a, b);
    WrapSum(b, Wrap(a));
    WrapSum(c, d);
    WrapSum(d, Wrap(c));
  }

  lemma WrapProduct(a: nat, b: nat, wrapped: nat, full: nat)
    requires wrapped == Wrap(a) * b && full == a * b
    ensures Wrap(wrapped) == Wrap(full)
  {
    var q := Quotient(a, WORD);
    DivMod(a, WORD);
    assert full == (q * b) * WORD + wrapped by { assert (q * WORD + Wrap(a)) * b == (q * WORD) * b + Wrap(a) * b; }
    WrapMultiple(q * b, wrapped, full);
  }

  lemma WrapMultiple(k: nat, rest: nat, n: nat)
    requires n == k * WORD + rest
    ensures Wrap(n) == Wrap(rest)
  {
    hide Quotient, Remainder;
    DivMod(rest, WORD);
    DivDigit(n, k + Quotient(rest, WORD), WORD, Remainder(rest, WORD));
    WrapIs(n);
    WrapIs(rest);
  }

  lemma WrapIs(n: nat)
    ensures Wrap(n) == Remainder(n, WORD)
  {
  }
}
