/** Who holds which physical block: the pool, an exclusive handle, an in-flight registration, or
    nobody any more because it was detached. Every move between holders keeps the books balanced. */
module Ledger {

  ghost function Vals(m: map<nat, nat>): set<nat> { set x | x in m :: m[x] }

  ghost predicate Inj(m: map<nat, nat>) {
    forall x, y :: x in m && y in m && m[x] == m[y] ==> x == y
  }

  /** Each issued block is in exactly one place. */
  ghost predicate Balanced(pool: set<nat>, handles: map<nat, nat>, inners: map<nat, nat>, detached: set<nat>,
                           issued: set<nat>) {
    && Inj(handles) && Inj(inners)
    && pool !! Vals(handles) && pool !! Vals(inners) && pool !! detached
    && Vals(handles) !! Vals(inners) && Vals(handles) !! detached && Vals(inners) !! detached
    && pool + Vals(handles) + Vals(inners) + detached == issued
  }

  lemma ValsAdd(m: map<nat, nat>, x: nat, u: nat)
    requires x !in m
    ensures Vals(m[x := u]) == Vals(m) + {u}
    ensures Inj(m) && u !in Vals(m) ==> Inj(m[x := u])
  {
    var m' := m[x := u];
    assert m'[x] in Vals(m');
    forall y | y in m ensures m[y] in Vals(m') && m[y] in Vals(m) { assert m'[y] == m[y]; }
  }

  lemma ValsRemove(m: map<nat, nat>, x: nat)
    requires x in m && Inj(m)
    ensures Inj(m - {x}) && m[x] in Vals(m) && Vals(m - {x}) == Vals(m) - {m[x]}
  {
    var m' := m - {x};
    assert m'[x := m[x]] == m;
    ValsAdd(m', x, m[x]);
    assert m[x] !in Vals(m');
  }

  lemma PoolToHandle(p: set<nat>, h: map<nat, nat>, i: map<nat, nat>, d: set<nat>, issued: set<nat>, x: nat, u: nat)
    requires Balanced(p, h, i, d, issued) && u in p && x !in h
    ensures Balanced(p - {u}, h[x := u], i, d, issued)
  {
    ValsAdd(h, x, u);
  }

  lemma HandleToPool(p: set<nat>, h: map<nat, nat>, i: map<nat, nat>, d: set<nat>, issued: set<nat>, x: nat)
    requires Balanced(p, h, i, d, issued) && x in h
    ensures h[x] !in p && Balanced(p + {h[x]}, h - {x}, i, d, issued)
  {
    ValsRemove(h, x);
  }

  function Moved(h: map<nat, nat>, x: nat, y: nat): map<nat, nat>
    requires x in h
  {
    (h - {x})[y := h[x]]
  }

  lemma HandleToHandle(p: set<nat>, h: map<nat, nat>, i: map<nat, nat>, d: set<nat>, issued: set<nat>, x: nat, y: nat)
    requires Balanced(p, h, i, d, issued) && x in h && y !in h - {x}
    ensures Balanced(p, Moved(h, x, y), i, d, issued)
  {
    ValsRemove(h, x);
    ValsAdd(h - {x}, y, h[x]);
  }

  lemma HandleToInner(p: set<nat>, h: map<nat, nat>, i: map<nat, nat>, d: set<nat>, issued: set<nat>, x: nat, y: nat)
    requires Balanced(p, h, i, d, issued) && x in h && y !in i
    ensures Balanced(p, h - {x}, i[y := h[x]], d, issued)
  {
    ValsRemove(h, x);
    ValsAdd(i, y, h[x]);
  }

  lemma HandleToNobody(p: set<nat>, h: map<nat, nat>, i: map<nat, nat>, d: set<nat>, issued: set<nat>, x: nat)
    requires Balanced(p, h, i, d, issued) && x in h
    ensures Balanced(p, h - {x}, i, d + {h[x]}, issued)
  {
    ValsRemove(h, x);
  }

  lemma InnerToPool(p: set<nat>, h: map<nat, nat>, i: map<nat, nat>, d: set<nat>, issued: set<nat>, y: nat)
    requires Balanced(p, h, i, d, issued) && y in i
    ensures i[y] !in p && Balanced(p + {i[y]}, h, i - {y}, d, issued)
  {
    ValsRemove(i, y);
  }

  lemma NewInPool(p: set<nat>, h: map<nat, nat>, i: map<nat, nat>, d: set<nat>, issued: set<nat>, u: nat)
    requires Balanced(p, h, i, d, issued) && u !in issued
    ensures u !in p && Balanced(p + {u}, h, i, d, issued + {u})
  {
  }
}
