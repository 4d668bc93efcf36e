/** What the radix tree answers: every worker's score is the length of the longest prefix it holds,
    and exactly which events keep that true. */
module RadixScores {

  import opened Radix
  import opened Options

  function Score(g: Graph, n: Block, p: Path, w: Worker): nat
    decreases p
  {
    if p == [] || !HasChild(g, n, p[0]) then 0
    else
      var c := g[n].children[p[0]];
      (if c in g && w in g[c].workers then 1 else 0) + Score(g, c, p[1..], w)
  }

  ghost predicate IsLongest(held: Held, w: Worker, p: Path, k: nat) {
    && k <= |p|
    && (k > 0 ==> HeldBy(held, w, p[..k]))
    && (forall j :: k < j <= |p| ==> !HeldBy(held, w, p[..j]))
  }

  ghost predicate ScoresOk(g: Graph, root: Block, held: Held) {
    forall p, w :: IsLongest(held, w, p, Score(g, root, p, w))
  }

  // ---------- scores along a path

  lemma {:induction false} ScoreSnoc(g: Graph, n: Block, p: Path, t: Local, w: Worker)
    ensures var o := Walk(g, n, p + [t]);
            Score(g, n, p + [t], w) == Score(g, n, p, w) + (if o.Some? && o.value in g && w in g[o.value].workers then 1 else 0)
    decreases p
  {
    var q := p + [t];
    if p == [] {
      assert q[1..] == [];
    } else {
      assert q[0] == p[0] && q[1..] == p[1..] + [t];
      if HasChild(g, n, p[0]) { ScoreSnoc(g, g[n].children[p[0]], p[1..], t, w); }
    }
  }

  lemma {:induction false} ScoreIsLongest(g: Graph, root: Block, labels: map<Block, Path>,
                                          lookup: map<Worker, map<Ext, Block>>, held: Held, p: Path, w: Worker)
    requires Ok(g, root, labels, lookup, held)
    ensures IsLongest(held, w, p, Score(g, root, p, w))
    decreases p
  {
    if p == [] {
    } else {
      var q := p[..|p| - 1];
      assert q + [p[|p| - 1]] == p;
      ScoreIsLongest(g, root, labels, lookup, held, q, w);
      ScoreSnoc(g, root, q, p[|p| - 1], w);
      HeldWalks(g, root, lookup, held, w, p);
      if Walk(g, root, p).Some? { WalkRoot(g, root, labels, p); }
      LongestSnoc(held, w, p, Score(g, root, q, w));
    }
  }

  lemma LongestSnoc(held: Held, w: Worker, p: Path, k: nat)
    requires p != [] && IsLongest(held, w, p[..|p| - 1], k) && (w in held ==> HoldingOk(held[w]))
    ensures IsLongest(held, w, p, if HeldBy(held, w, p) then k + 1 else k)
  {
    var q := p[..|p| - 1];
    assert p[..|p|] == p;
    assert forall j :: 0 <= j <= |q| ==> q[..j] == p[..j];
    if HeldBy(held, w, p) && q != [] {
      AncestorHeld(held[w], p, |q|);
      assert q[..|q|] == q;
    }
  }

  lemma OkScores(g: Graph, root: Block, labels: map<Block, Path>, lookup: map<Worker, map<Ext, Block>>, held: Held)
    requires Ok(g, root, labels, lookup, held)
    ensures ScoresOk(g, root, held)
  {
    forall p, w ensures IsLongest(held, w, p, Score(g, root, p, w)) {
      ScoreIsLongest(g, root, labels, lookup, held, p, w);
    }
  }

  lemma {:induction false} ScoreMissing(g: Graph, n: Block, p: Path, k: nat, w: Worker)
    requires 0 < k <= |p| && Walk(g, n, p[..k]).Some? && Walk(g, n, p[..k]).value in g
    requires w !in g[Walk(g, n, p[..k]).value].workers
    ensures Score(g, n, p, w) < |p|
    decreases p
  {
    assert p[..k][0] == p[0] && p[..k][1..] == p[1..][..k - 1];
    var c := g[n].children[p[0]];
    if k == 1 {
      ScoreBound(g, c, p[1..], w);
    } else {
      ScoreMissing(g, c, p[1..], k - 1, w);
    }
  }

  lemma {:induction false} ScoreBound(g: Graph, n: Block, p: Path, w: Worker)
    ensures Score(g, n, p, w) <= |p|
    decreases p
  {
    if p != [] && HasChild(g, n, p[0]) { ScoreBound(g, g[n].children[p[0]], p[1..], w); }
  }

  /** More edges and more workers only raise scores. */
  lemma {:induction false} ScoreGrows(g: Graph, g': Graph, n: Block, p: Path, w: Worker)
    requires forall x :: x in g ==> x in g' && g[x].workers <= g'[x].workers
    requires forall x, t :: x in g && HasChild(g, x, t) ==> HasChild(g', x, t) && g'[x].children[t] == g[x].children[t]
    ensures Score(g, n, p, w) <= Score(g', n, p, w)
    decreases p
  {
    if p != [] && HasChild(g, n, p[0]) { ScoreGrows(g, g', g[n].children[p[0]], p[1..], w); }
  }

  // ---------- one stored block

  /** The node that a stored block lands on: the existing child, else the node that the worker already
      knows by this name, else a fresh one. */
  function Landing(g: Graph, known: map<Ext, Block>, n: Block, e: Ext, t: Local, c: Block): Block {
    if HasChild(g, n, t) then g[n].children[t] else if e in known then known[e] else c
  }

  function Linked(g: Graph, known: map<Ext, Block>, n: Block, e: Ext, t: Local, c: Block): Graph
    requires n in g
  {
    if HasChild(g, n, t) then g
    else if e in known then g[n := Node(g[n].children[t := known[e]], g[n].workers)]
    else WithEdge(g, n, t, c)
  }

  function Stored(g: Graph, known: map<Ext, Block>, w: Worker, n: Block, e: Ext, t: Local, c: Block): Graph
    requires n in g
  {
    var g1, b := Linked(g, known, n, e, t, c), Landing(g, known, n, e, t, c);
    if b in g1 then Joined(g1, b, w) else g1
  }

  ghost function Labels(g: Graph, labels: map<Block, Path>, known: map<Ext, Block>, n: Block, e: Ext, t: Local,
                        c: Block): map<Block, Path>
    requires n in labels
  {
    if HasChild(g, n, t) || e in known then labels else labels[c := labels[n] + [t]]
  }

  ghost predicate Grows(g: Graph, root: Block, labels: map<Block, Path>, lookup: map<Worker, map<Ext, Block>>,
                        held: Held, w: Worker, n: Block, p: Path, e: Ext, t: Local, c: Block) {
    && Ok(g, root, labels, lookup, held) && w in held
    && Walk(g, root, p) == Some(n) && n in g && (p != [] ==> Holds(held[w], p))
    && (!HasChild(g, n, t) && e !in lookup[w] ==> c !in g)
  }

  lemma StoreOk(g: Graph, root: Block, labels: map<Block, Path>, lookup: map<Worker, map<Ext, Block>>, held: Held,
                w: Worker, n: Block, p: Path, e: Ext, t: Local, c: Block)
    requires Grows(g, root, labels, lookup, held, w, n, p, e, t, c)
    requires FreeName(held[w], e, p + [t]) && OnlyName(held[w], e, p + [t])
    ensures var b := Landing(g, lookup[w], n, e, t, c);
            && n in labels
            && Ok(Stored(g, lookup[w], w, n, e, t, c), root, Labels(g, labels, lookup[w], n, e, t, c), lookup[w := lookup[w][e := b]], held[w := held[w][e := p + [t]]])
            && Walk(Stored(g, lookup[w], w, n, e, t, c), root, p + [t]) == Some(b)
  {
    hide ListsOk, HoldingOk, Holds, HeldBy, WithEdge;
    StepWalk(g, root, n, p, t);
    assert (p + [t])[..|p + [t]| - 1] == p;
    assert p == [] ==> |p + [t]| == 1;
    var g1 := Linked(g, lookup[w], n, e, t, c);
    var b := Landing(g, lookup[w], n, e, t, c);
    if !HasChild(g, n, t) {
      assert e !in lookup[w];
      WithEdgeOk(g, root, labels, lookup, held, n, p, t, c);
    }
    WalkRoot(g1, root, Labels(g, labels, lookup[w], n, e, t, c), p + [t]);
    JoinOk(g1, root, Labels(g, labels, lookup[w], n, e, t, c), lookup, held, w, e, p + [t], b);
  }

  lemma StepWalk(g: Graph, root: Block, n: Block, p: Path, t: Local)
    requires Walk(g, root, p) == Some(n)
    ensures Walk(g, root, p + [t]) == if HasChild(g, n, t) then Some(g[n].children[t]) else None
  {
    WalkSplit(g, root, p, [t]);
    WalkOne(g, n, t);
  }

  /** The scores stay right after a stored block exactly when its name does not already mean another path. */
  lemma StoreScoresIff(g: Graph, root: Block, labels: map<Block, Path>, lookup: map<Worker, map<Ext, Block>>,
                       held: Held, w: Worker, n: Block, p: Path, e: Ext, t: Local, c: Block)
    requires Grows(g, root, labels, lookup, held, w, n, p, e, t, c)
    ensures ScoresOk(Stored(g, lookup[w], w, n, e, t, c), root, held[w := held[w][e := p + [t]]]) <==> FreeName(held[w], e, p + [t])
  {
    var g', held' := Stored(g, lookup[w], w, n, e, t, c), held[w := held[w][e := p + [t]]];
    if !FreeName(held[w], e, p + [t]) {
      TakenNameBreaks(g, root, labels, lookup, held, w, n, p, e, t, c);
    } else if OnlyName(held[w], e, p + [t]) {
      StoreOk(g, root, labels, lookup, held, w, n, p, e, t, c);
      OkScores(g', root, Labels(g, labels, lookup[w], n, e, t, c), lookup[w := lookup[w][e := Landing(g, lookup[w], n, e, t, c)]], held');
    } else {
      SecondNameStored(g, root, labels, lookup, held, w, n, p, e, t, c);
    }
  }

  lemma TakenNameBreaks(g: Graph, root: Block, labels: map<Block, Path>, lookup: map<Worker, map<Ext, Block>>,
                        held: Held, w: Worker, n: Block, p: Path, e: Ext, t: Local, c: Block)
    requires Grows(g, root, labels, lookup, held, w, n, p, e, t, c) && !FreeName(held[w], e, p + [t])
    ensures !ScoresOk(Stored(g, lookup[w], w, n, e, t, c), root, held[w := held[w][e := p + [t]]])
  {
    hide Stored, Score, ListsOk, TreeOk;
    var was := held[w][e];
    var g', held' := Stored(g, lookup[w], w, n, e, t, c), held[w := held[w][e := p + [t]]];
    assert was[..|was|] == was;
    ScoreIsLongest(g, root, labels, lookup, held, was, w);
    assert Score(g, root, was, w) == |was| by { assert HeldBy(held, w, was[..|was|]); }
    StoredGrows(g, lookup[w], w, n, e, t, c);
    ScoreGrows(g, g', root, was, w);
    assert !HeldBy(held', w, was);
    assert !IsLongest(held', w, was, Score(g', root, was, w));
  }

  lemma StoredGrows(g: Graph, known: map<Ext, Block>, w: Worker, n: Block, e: Ext, t: Local, c: Block)
    requires n in g && (!HasChild(g, n, t) && e !in known ==> c !in g)
    ensures var g' := Stored(g, known, w, n, e, t, c);
            && (forall x :: x in g ==> x in g' && g[x].workers <= g'[x].workers)
            && (forall x, s :: x in g && HasChild(g, x, s) ==> HasChild(g', x, s) && g'[x].children[s] == g[x].children[s])
  {
  }

  lemma SecondNameStored(g: Graph, root: Block, labels: map<Block, Path>, lookup: map<Worker, map<Ext, Block>>,
                         held: Held, w: Worker, n: Block, p: Path, e: Ext, t: Local, c: Block)
    requires Grows(g, root, labels, lookup, held, w, n, p, e, t, c)
    requires FreeName(held[w], e, p + [t]) && Holds(held[w], p + [t])
    ensures Stored(g, lookup[w], w, n, e, t, c) == g
    ensures ScoresOk(g, root, held[w := held[w][e := p + [t]]])
  {
    hide ScoresOk, ListsOk, Holds;
    AlreadyStored(g, root, labels, lookup, held, w, n, p, e, t, c);
    OkScores(g, root, labels, lookup, held);
    SameScores(g, root, held, w, e, p + [t]);
  }

  lemma AlreadyStored(g: Graph, root: Block, labels: map<Block, Path>, lookup: map<Worker, map<Ext, Block>>,
                      held: Held, w: Worker, n: Block, p: Path, e: Ext, t: Local, c: Block)
    requires Grows(g, root, labels, lookup, held, w, n, p, e, t, c) && Holds(held[w], p + [t])
    ensures Stored(g, lookup[w], w, n, e, t, c) == g
  {
    hide Walk, Holds;
    StepWalk(g, root, n, p, t);
    HeldWalks(g, root, lookup, held, w, p + [t]);
    WalkRoot(g, root, labels, p + [t]);
    assert w in g[g[n].children[t]].workers by { assert HeldBy(held, w, p + [t]); }
    assert g[g[n].children[t]].workers + {w} == g[g[n].children[t]].workers;
  }

  lemma SameScores(g: Graph, root: Block, held: Held, w: Worker, e: Ext, p: Path)
    requires w in held && FreeName(held[w], e, p) && Holds(held[w], p) && ScoresOk(g, root, held)
    ensures ScoresOk(g, root, held[w := held[w][e := p]])
  {
    hide Score, Holds;
    var held' := held[w := held[w][e := p]];
    forall q, v ensures HeldBy(held', v, q) <==> HeldBy(held, v, q) { SameHolds(held[w], e, p, q); }
    forall q, v ensures IsLongest(held', v, q, Score(g, root, q, v)) {
      assert IsLongest(held, v, q, Score(g, root, q, v));
    }
  }

  lemma SameHolds(m: map<Ext, Path>, e: Ext, p: Path, q: Path)
    requires FreeName(m, e, p) && Holds(m, p)
    ensures Holds(m[e := p], q) <==> Holds(m, q)
  {
    if Holds(m, q) {
      var f :| f in m && m[f] == q;
      assert m[e := p][f] == q;
    }
  }

  // ---------- one removed block

  lemma LeaveOk(g: Graph, root: Block, labels: map<Block, Path>, lookup: map<Worker, map<Ext, Block>>, held: Held,
                w: Worker, e: Ext)
    requires Ok(g, root, labels, lookup, held) && w in held && e in held[w] && NothingBelow(held[w], held[w][e])
    ensures lookup[w][e] in g
    ensures Ok(Left(g, lookup[w][e], w), root, labels, lookup[w := lookup[w] - {e}], held[w := held[w] - {e}])
  {
    hide ListsOk, Walk, Holds, HeldBy;
    var n := lookup[w][e];
    PartOk(g, root, labels, lookup, held, w, e);
    var g1 := Parted(g, n, w);
    if g1[n].workers == {} {
      ClearOk(g1, root, labels, lookup[w := lookup[w] - {e}], held[w := held[w] - {e}], n, held[w][e]);
    }
  }

  /** A worker that leaves a node still has the node on its path, and no longer scores in full there. */
  lemma LeftMisses(g: Graph, root: Block, labels: map<Block, Path>, n: Block, p: Path, q: Path, w: Worker)
    requires TreeOk(g, root, labels) && p != [] && p <= q && Walk(g, root, p) == Some(n) && n in g
    ensures Score(Left(g, n, w), root, q, w) < |q|
  {
    var g1 := Parted(g, n, w);
    WalkSameChildren(g, g1, root, p);
    WalkRoot(g, root, labels, p);
    assert forall x, t :: x in g1 && HasChild(g1, x, t) ==> HasChild(g, x, t);
    WalkCleared(g1, root, labels, n, root, p);
    assert labels[root] + p == p;
    assert q[..|p|] == p;
    ScoreMissing(Left(g, n, w), root, q, |p|, w);
  }

  /** The scores stay right after a removal exactly when the worker holds nothing below the removed block. */
  lemma RemoveScoresIff(g: Graph, root: Block, labels: map<Block, Path>, lookup: map<Worker, map<Ext, Block>>,
                        held: Held, w: Worker, e: Ext)
    requires Ok(g, root, labels, lookup, held) && w in held && e in held[w]
    ensures lookup[w][e] in g
    ensures ScoresOk(Left(g, lookup[w][e], w), root, held[w := held[w] - {e}]) <==> NothingBelow(held[w], held[w][e])
  {
    var n, p := lookup[w][e], held[w][e];
    var held' := held[w := held[w] - {e}];
    WalkRoot(g, root, labels, p);
    var g' := Left(g, n, w);
    if NothingBelow(held[w], p) {
      LeaveOk(g, root, labels, lookup, held, w, e);
      OkScores(g', root, labels, lookup[w := lookup[w] - {e}], held');
    } else {
      var f :| f in held[w] && p < held[w][f];
      StillHeld(g, g', root, labels, held', w, n, p, f);
    }
  }

  lemma StillHeld(g: Graph, g': Graph, root: Block, labels: map<Block, Path>, held': Held, w: Worker, n: Block,
                  p: Path, f: Ext)
    requires TreeOk(g, root, labels) && p != [] && Walk(g, root, p) == Some(n) && n in g && g' == Left(g, n, w)
    requires w in held' && f in held'[w] && p <= held'[w][f]
    ensures !ScoresOk(g', root, held')
  {
    var q := held'[w][f];
    LeftMisses(g, root, labels, n, p, q, w);
    assert q[..|q|] == q;
    assert HeldBy(held', w, q[..|q|]);
    assert !IsLongest(held', w, q, Score(g', root, q, w));
  }

  /** A second name for a held path does no harm by itself, but removing the first name does: the path is
      still held, and the tree no longer says so. */
  lemma SecondNameBreaks(g: Graph, root: Block, labels: map<Block, Path>, lookup: map<Worker, map<Ext, Block>>,
                         held: Held, w: Worker, e: Ext, f: Ext)
    requires Ok(g, root, labels, lookup, held) && w in held && e in held[w] && f !in held[w]
    ensures lookup[w][e] in g
    ensures !ScoresOk(Left(g, lookup[w][e], w), root, held[w := held[w][f := held[w][e]] - {e}])
  {
    var p := held[w][e];
    WalkRoot(g, root, labels, p);
    StillHeld(g, Left(g, lookup[w][e], w), root, labels, held[w := held[w][f := p] - {e}], w, lookup[w][e], p, f);
  }

  // ---------- a removed worker

  lemma WithoutWorkerScores(g: Graph, root: Block, labels: map<Block, Path>, lookup: map<Worker, map<Ext, Block>>,
                            held: Held, w: Worker)
    requires Ok(g, root, labels, lookup, held) && w in held
    ensures ScoresOk(WithoutWorker(g, lookup[w].Values, w), root, held - {w})
    ensures forall p :: Score(WithoutWorker(g, lookup[w].Values, w), root, p, w) == 0
  {
    hide ListsOk, Walk, Score;
    var g' := WithoutWorker(g, lookup[w].Values, w);
    WithoutWorkerOk(g, root, labels, lookup, held, w);
    OkScores(g', root, labels, lookup - {w}, held - {w});
    forall p ensures Score(g', root, p, w) == 0 {
      assert IsLongest(held - {w}, w, p, Score(g', root, p, w));
    }
  }
}
