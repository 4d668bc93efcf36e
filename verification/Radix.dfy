/** The radix tree as a graph of nodes, and what it must say about each worker: the set of token
    paths the worker holds. `labels` gives every node the one path that can lead to it. */
module Radix {

  import opened Options

  type Local = int     // hash of a block's tokens
  type Ext = int       // a worker's own name for a block
  datatype Worker = Worker(id: int)
  type Path = seq<Local>

  /** A node of the tree. Nodes are shared by reference: a parent's children and a worker's jump table
      point at the same object. */
  class Block {
    var children: map<Local, Block>
    var workers: set<Worker>

    constructor ()
      ensures children == map[] && workers == {}
    {
      children, workers := map[], {};
    }
  }

  datatype Node = Node(children: map<Local, Block>, workers: set<Worker>)

  type Graph = map<Block, Node>

  type Held = map<Worker, map<Ext, Path>>

  predicate HasChild(g: Graph, n: Block, t: Local) { n in g && t in g[n].children }

  function Walk(g: Graph, n: Block, p: Path): Option<Block>
    decreases p
  {
    if p == [] then Some(n)
    else if HasChild(g, n, p[0]) then Walk(g, g[n].children[p[0]], p[1..])
    else None
  }

  // ---------- what the workers hold

  ghost predicate Holds(m: map<Ext, Path>, p: Path) { exists e :: e in m && m[e] == p }

  ghost predicate HeldBy(held: Held, w: Worker, p: Path) { w in held && Holds(held[w], p) }

  /** A worker names every path by one hash, and a held path's ancestors are held too. */
  ghost predicate HoldingOk(m: map<Ext, Path>) {
    && (forall e :: e in m ==> m[e] != [])
    && (forall e, f :: e in m && f in m && m[e] == m[f] ==> e == f)
    && (forall e :: e in m && |m[e]| > 1 ==> Holds(m, m[e][..|m[e]| - 1]))
  }

  /** `e` is not already the name of another path. */
  predicate FreeName(m: map<Ext, Path>, e: Ext, p: Path) { e in m ==> m[e] == p }

  /** `p` has no name but `e`. */
  ghost predicate OnlyName(m: map<Ext, Path>, e: Ext, p: Path) { forall f :: f in m && m[f] == p ==> f == e }

  ghost predicate NothingBelow(m: map<Ext, Path>, p: Path) { forall f :: f in m ==> !(p < m[f]) }

  lemma {:induction false} AncestorHeld(m: map<Ext, Path>, p: Path, n: nat)
    requires HoldingOk(m) && Holds(m, p) && 0 < n <= |p|
    ensures Holds(m, p[..n])
    decreases |p|
  {
    if n == |p| {
      assert p[..n] == p;
    } else {
      var q := p[..|p| - 1];
      AncestorHeld(m, q, n);
      assert q[..n] == p[..n];
    }
  }

  // ---------- the tree

  ghost predicate TreeOk(g: Graph, root: Block, labels: map<Block, Path>) {
    && root in g && root in labels && labels[root] == []
    && (forall n :: n in g ==> n in labels)
    && (forall n, t :: n in g && HasChild(g, n, t) ==>
          g[n].children[t] in g && g[n].children[t] in labels && labels[g[n].children[t]] == labels[n] + [t])
  }

  lemma {:induction false} WalkLabel(g: Graph, root: Block, labels: map<Block, Path>, n: Block, p: Path)
    requires TreeOk(g, root, labels) && n in g && Walk(g, n, p).Some?
    ensures Walk(g, n, p).value in g && labels[Walk(g, n, p).value] == labels[n] + p
    decreases p
  {
    if p == [] {
      assert labels[n] + p == labels[n];
    } else {
      var c := g[n].children[p[0]];
      WalkLabel(g, root, labels, c, p[1..]);
      assert labels[n] + [p[0]] + p[1..] == labels[n] + p;
    }
  }

  /** Only one path leads to a node. */
  lemma WalkRoot(g: Graph, root: Block, labels: map<Block, Path>, p: Path)
    requires TreeOk(g, root, labels) && Walk(g, root, p).Some?
    ensures Walk(g, root, p).value in g && labels[Walk(g, root, p).value] == p
  {
    WalkLabel(g, root, labels, root, p);
    assert [] + p == p;
  }

  lemma {:induction false} WalkSplit(g: Graph, n: Block, p: Path, q: Path)
    ensures Walk(g, n, p + q) == if Walk(g, n, p).Some? then Walk(g, Walk(g, n, p).value, q) else None
    decreases p
  {
    if p == [] {
      assert p + q == q;
    } else {
      assert (p + q)[1..] == p[1..] + q;
      if n in g && p[0] in g[n].children { WalkSplit(g, g[n].children[p[0]], p[1..], q); }
    }
  }

  /** Walks depend on children only. */
  lemma {:induction false} WalkSameChildren(g: Graph, g': Graph, n: Block, p: Path)
    requires g'.Keys == g.Keys && forall x :: x in g ==> g'[x].children == g[x].children
    ensures Walk(g', n, p) == Walk(g, n, p)
    decreases p
  {
    if p != [] && n in g && p[0] in g[n].children { WalkSameChildren(g, g', g[n].children[p[0]], p[1..]); }
  }

  // ---------- the index

  ghost predicate IndexOk(g: Graph, root: Block, lookup: map<Worker, map<Ext, Block>>, held: Held) {
    && lookup.Keys == held.Keys
    && (forall w :: w in held ==> HoldingOk(held[w]) && lookup[w].Keys == held[w].Keys)
    && (forall w, e :: w in held && e in held[w] ==> Walk(g, root, held[w][e]) == Some(lookup[w][e]))
  }

  /** On the node at any path, a worker is listed exactly when it holds that path. */
  ghost predicate ListsOk(g: Graph, root: Block, held: Held) {
    forall p, w :: p != [] && Walk(g, root, p).Some? && Walk(g, root, p).value in g ==>
      (w in g[Walk(g, root, p).value].workers <==> HeldBy(held, w, p))
  }

  ghost predicate Ok(g: Graph, root: Block, labels: map<Block, Path>, lookup: map<Worker, map<Ext, Block>>, held: Held) {
    TreeOk(g, root, labels) && IndexOk(g, root, lookup, held) && ListsOk(g, root, held)
  }

  lemma HeldWalks(g: Graph, root: Block, lookup: map<Worker, map<Ext, Block>>, held: Held, w: Worker, p: Path)
    requires IndexOk(g, root, lookup, held)
    ensures HeldBy(held, w, p) ==> Walk(g, root, p).Some?
  {
    if HeldBy(held, w, p) {
      var e :| e in held[w] && held[w][e] == p;
      assert Walk(g, root, held[w][e]) == Some(lookup[w][e]);
    }
  }

  // ---------- a new edge

  function WithEdge(g: Graph, n: Block, t: Local, c: Block): Graph
    requires n in g
  {
    g[c := Node(map[], {})][n := Node(g[n].children[t := c], g[n].workers)]
  }

  lemma {:induction false} WalkWithEdge(g: Graph, root: Block, labels: map<Block, Path>, n: Block, t: Local, c: Block,
                                        x: Block, p: Path)
    requires TreeOk(g, root, labels) && n in g && c !in g && t !in g[n].children && x in g
    ensures Walk(g, x, p).Some? ==> Walk(WithEdge(g, n, t, c), x, p) == Walk(g, x, p)
    ensures Walk(g, x, p).None? && Walk(WithEdge(g, n, t, c), x, p).Some? ==> Walk(WithEdge(g, n, t, c), x, p) == Some(c)
    decreases p
  {
    var g' := WithEdge(g, n, t, c);
    if p != [] && p[0] in g'[x].children {
      if x == n && p[0] == t {
        assert Walk(g', c, p[1..]) == if p[1..] == [] then Some(c) else None;
      } else {
        assert g'[x].children[p[0]] == g[x].children[p[0]];
        WalkWithEdge(g, root, labels, n, t, c, g[x].children[p[0]], p[1..]);
      }
    }
  }

  /** Hanging a fresh, empty node below a node changes nothing for anyone. */
  lemma WithEdgeOk(g: Graph, root: Block, labels: map<Block, Path>, lookup: map<Worker, map<Ext, Block>>, held: Held,
                   n: Block, p: Path, t: Local, c: Block)
    requires Ok(g, root, labels, lookup, held) && Walk(g, root, p) == Some(n) && n in g && c !in g && t !in g[n].children
    ensures n in labels && Ok(WithEdge(g, n, t, c), root, labels[c := labels[n] + [t]], lookup, held)
    ensures Walk(WithEdge(g, n, t, c), root, p + [t]) == Some(c)
  {
    hide Walk, TreeOk, HoldingOk, HeldBy;
    var g' := WithEdge(g, n, t, c);
    WithEdgeTree(g, root, labels, n, t, c);
    forall q ensures Walk(g, root, q).Some? ==> Walk(g', root, q) == Walk(g, root, q)
             ensures Walk(g, root, q).None? && Walk(g', root, q).Some? ==> Walk(g', root, q) == Some(c)
    {
      RootIn(g, root, labels);
      WalkWithEdge(g, root, labels, n, t, c, root, q);
    }
    WalkSplit(g', root, p, [t]);
    WalkOne(g', n, t);
    forall q, w | q != [] && Walk(g', root, q).Some? && Walk(g', root, q).value in g'
      ensures w in g'[Walk(g', root, q).value].workers <==> HeldBy(held, w, q)
    {
      HeldWalks(g, root, lookup, held, w, q);
      if Walk(g, root, q).Some? { WalkRoot(g, root, labels, q); }
    }
  }

  lemma WithEdgeTree(g: Graph, root: Block, labels: map<Block, Path>, n: Block, t: Local, c: Block)
    requires TreeOk(g, root, labels) && n in g && c !in g && t !in g[n].children
    ensures n in labels && TreeOk(WithEdge(g, n, t, c), root, labels[c := labels[n] + [t]])
  {
  }

  lemma RootIn(g: Graph, root: Block, labels: map<Block, Path>)
    requires TreeOk(g, root, labels)
    ensures root in g
  {
  }

  lemma WalkOne(g: Graph, n: Block, t: Local)
    ensures Walk(g, n, [t]) == if HasChild(g, n, t) then Some(g[n].children[t]) else None
  {
    assert [t][1..] == [];
  }

  // ---------- a worker joins a node

  function Joined(g: Graph, n: Block, w: Worker): Graph
    requires n in g
  {
    g[n := Node(g[n].children, g[n].workers + {w})]
  }

  lemma JoinOk(g: Graph, root: Block, labels: map<Block, Path>, lookup: map<Worker, map<Ext, Block>>, held: Held,
               w: Worker, e: Ext, p: Path, n: Block)
    requires Ok(g, root, labels, lookup, held) && w in held
    requires p != [] && Walk(g, root, p) == Some(n) && n in g
    requires (|p| > 1 ==> Holds(held[w], p[..|p| - 1])) && FreeName(held[w], e, p) && OnlyName(held[w], e, p)
    ensures Ok(Joined(g, n, w), root, labels, lookup[w := lookup[w][e := n]], held[w := held[w][e := p]])
    ensures forall q :: Walk(Joined(g, n, w), root, q) == Walk(g, root, q)
  {
    hide ListsOk, Walk, HoldingOk, Holds, HeldBy;
    var g', m' := Joined(g, n, w), held[w][e := p];
    forall q ensures Walk(g', root, q) == Walk(g, root, q) { WalkSameChildren(g, g', root, q); }
    NamedOk(held[w], e, p);
    assert forall q :: Holds(m', q) <==> Holds(held[w], q) || q == p;
    JoinLists(g, g', root, labels, held, held[w := m'], w, p, n);
  }

  lemma JoinLists(g: Graph, g': Graph, root: Block, labels: map<Block, Path>, held: Held, held': Held, w: Worker,
                  p: Path, n: Block)
    requires TreeOk(g, root, labels) && ListsOk(g, root, held) && p != [] && Walk(g, root, p) == Some(n) && n in g
    requires g' == Joined(g, n, w)
    requires forall q :: Walk(g', root, q) == Walk(g, root, q)
    requires w in held && w in held' && forall v :: v != w ==> (v in held <==> v in held') && (v in held ==> held'[v] == held[v])
    requires forall q :: Holds(held'[w], q) <==> Holds(held[w], q) || q == p
    ensures ListsOk(g', root, held')
  {
    hide Walk, Holds;
    forall q, v | q != [] && Walk(g', root, q).Some? && Walk(g', root, q).value in g'
      ensures v in g'[Walk(g', root, q).value].workers <==> HeldBy(held', v, q)
    {
      WalkRoot(g, root, labels, q);
      WalkRoot(g, root, labels, p);
      assert v in g[Walk(g, root, q).value].workers <==> HeldBy(held, v, q);
    }
  }

  lemma NamedHolds(m: map<Ext, Path>, e: Ext, p: Path)
    requires FreeName(m, e, p)
    ensures forall q :: Holds(m[e := p], q) <==> Holds(m, q) || q == p
  {
    var m' := m[e := p];
    assert m'[e] == p;
    forall q | Holds(m, q) ensures Holds(m', q) {
      var f :| f in m && m[f] == q;
      assert m'[f] == q;
    }
  }

  lemma NamedOk(m: map<Ext, Path>, e: Ext, p: Path)
    requires HoldingOk(m) && FreeName(m, e, p) && OnlyName(m, e, p) && p != [] && (|p| > 1 ==> Holds(m, p[..|p| - 1]))
    ensures HoldingOk(m[e := p])
    ensures forall q :: Holds(m[e := p], q) <==> Holds(m, q) || q == p
  {
    hide Holds;
    NamedHolds(m, e, p);
    var m' := m[e := p];
    forall f | f in m' && |m'[f]| > 1 ensures Holds(m', m'[f][..|m'[f]| - 1]) {
      assert Holds(m, m'[f][..|m'[f]| - 1]);
    }
  }

  // ---------- a worker leaves a node

  function Cleared(g: Graph, n: Block): Graph
    requires n in g
  {
    g[n := Node(map[], g[n].workers)]
  }

  function Parted(g: Graph, n: Block, w: Worker): Graph
    requires n in g
  {
    g[n := Node(g[n].children, g[n].workers - {w})]
  }

  function Left(g: Graph, n: Block, w: Worker): Graph
    requires n in g
  {
    var g1 := Parted(g, n, w);
    if g1[n].workers == {} then Cleared(g1, n) else g1
  }

  lemma UnnamedOk(m: map<Ext, Path>, e: Ext)
    requires HoldingOk(m) && e in m && NothingBelow(m, m[e])
    ensures HoldingOk(m - {e})
    ensures forall q :: Holds(m - {e}, q) <==> Holds(m, q) && q != m[e]
  {
    var m', p := m - {e}, m[e];
    forall q | Holds(m, q) && q != p ensures Holds(m', q) {
      var f :| f in m && m[f] == q;
      assert f in m' && m'[f] == q;
    }
    forall f | f in m' && |m'[f]| > 1 ensures Holds(m', m'[f][..|m'[f]| - 1]) {
      assert m[f][..|m[f]| - 1] < m[f];
    }
  }

  lemma PartOk(g: Graph, root: Block, labels: map<Block, Path>, lookup: map<Worker, map<Ext, Block>>, held: Held,
               w: Worker, e: Ext)
    requires Ok(g, root, labels, lookup, held) && w in held && e in held[w] && NothingBelow(held[w], held[w][e])
    ensures lookup[w][e] in g
    ensures Ok(Parted(g, lookup[w][e], w), root, labels, lookup[w := lookup[w] - {e}], held[w := held[w] - {e}])
    ensures forall q :: Walk(Parted(g, lookup[w][e], w), root, q) == Walk(g, root, q)
  {
    hide ListsOk, Walk, HoldingOk, Holds, HeldBy;
    var n, p := lookup[w][e], held[w][e];
    WalkRoot(g, root, labels, p);
    var g', m' := Parted(g, n, w), held[w] - {e};
    forall q ensures Walk(g', root, q) == Walk(g, root, q) { WalkSameChildren(g, g', root, q); }
    UnnamedOk(held[w], e);
    PartLists(g, g', root, labels, held, held[w := m'], w, p, n);
  }

  lemma PartLists(g: Graph, g': Graph, root: Block, labels: map<Block, Path>, held: Held, held': Held, w: Worker,
                  p: Path, n: Block)
    requires TreeOk(g, root, labels) && ListsOk(g, root, held) && Walk(g, root, p) == Some(n) && n in g
    requires g' == Parted(g, n, w)
    requires forall q :: Walk(g', root, q) == Walk(g, root, q)
    requires w in held && w in held' && forall v :: v != w ==> (v in held <==> v in held') && (v in held ==> held'[v] == held[v])
    requires forall q :: Holds(held'[w], q) <==> Holds(held[w], q) && q != p
    ensures ListsOk(g', root, held')
  {
    hide Walk, Holds;
    forall q, v | q != [] && Walk(g', root, q).Some? && Walk(g', root, q).value in g'
      ensures v in g'[Walk(g', root, q).value].workers <==> HeldBy(held', v, q)
    {
      WalkRoot(g, root, labels, q);
      WalkRoot(g, root, labels, p);
      assert v in g[Walk(g, root, q).value].workers <==> HeldBy(held, v, q);
    }
  }

  lemma {:induction false} WalkCleared(g: Graph, root: Block, labels: map<Block, Path>, n: Block, x: Block, p: Path)
    requires TreeOk(g, root, labels) && n in g && x in g
    ensures Walk(Cleared(g, n), x, p).Some? ==> Walk(Cleared(g, n), x, p) == Walk(g, x, p)
    ensures Walk(g, x, p).Some? && !(labels[n] < labels[x] + p) ==> Walk(Cleared(g, n), x, p) == Walk(g, x, p)
    decreases p
  {
    if p != [] && HasChild(g, x, p[0]) {
      var c := g[x].children[p[0]];
      assert labels[c] == labels[x] + [p[0]] && [p[0]] + p[1..] == p;
      assert labels[c] + p[1..] == labels[x] + p;
      if x != n { WalkCleared(g, root, labels, n, c, p[1..]); }
    }
  }

  /** A node that nobody holds may drop its children: nobody holds anything below it. */
  lemma ClearOk(g: Graph, root: Block, labels: map<Block, Path>, lookup: map<Worker, map<Ext, Block>>, held: Held,
                n: Block, p: Path)
    requires Ok(g, root, labels, lookup, held) && p != [] && Walk(g, root, p) == Some(n) && n in g && g[n].workers == {}
    ensures Ok(Cleared(g, n), root, labels, lookup, held)
  {
    var g' := Cleared(g, n);
    WalkLabel(g, root, labels, root, p);
    forall q ensures Walk(g', root, q).Some? ==> Walk(g', root, q) == Walk(g, root, q)
             ensures Walk(g, root, q).Some? && !(p < q) ==> Walk(g', root, q) == Walk(g, root, q)
    {
      WalkCleared(g, root, labels, n, root, q);
      assert labels[root] + q == q;
    }
    forall w, e | w in held && e in held[w] ensures Walk(g', root, held[w][e]) == Some(lookup[w][e]) {
      var q := held[w][e];
      if p < q {
        AncestorHeld(held[w], q, |p|);
        assert q[..|p|] == p;
        assert HeldBy(held, w, p);
      }
    }
  }

  // ---------- a worker goes altogether

  function WithoutWorker(g: Graph, ns: set<Block>, w: Worker): Graph {
    map n | n in g :: if n in ns then Node(g[n].children, g[n].workers - {w}) else g[n]
  }

  lemma WithoutWorkerOk(g: Graph, root: Block, labels: map<Block, Path>, lookup: map<Worker, map<Ext, Block>>,
                        held: Held, w: Worker)
    requires Ok(g, root, labels, lookup, held) && w in held
    ensures Ok(WithoutWorker(g, lookup[w].Values, w), root, labels, lookup - {w}, held - {w})
  {
    var g', held' := WithoutWorker(g, lookup[w].Values, w), held - {w};
    forall q ensures Walk(g', root, q) == Walk(g, root, q) { WalkSameChildren(g, g', root, q); }
    forall q, v | q != [] && Walk(g', root, q).Some? && Walk(g', root, q).value in g'
      ensures v in g'[Walk(g', root, q).value].workers <==> HeldBy(held', v, q)
    {
      if v == w && HeldBy(held, w, q) {
        var e :| e in held[w] && held[w][e] == q;
        assert lookup[w][e] in lookup[w].Values;
      }
    }
  }
}
