/** The KV indexer's radix tree as the code keeps it: nodes shared by reference, and per worker a jump
    table from the engine's block names into the tree. */
module RadixIndex {

  import opened Radix
  import opened RadixScores
  import opened Options

  function ScoreOf(scores: map<Worker, nat>, w: Worker): nat { if w in scores then scores[w] else 0 }

  ghost predicate Scored(g: Graph, root: Block, p: Path, scores: map<Worker, nat>) {
    forall w :: ScoreOf(scores, w) == Score(g, root, p, w)
  }

  /** The node at `p` has exactly one worker. */
  predicate Sole(g: Graph, root: Block, p: Path) {
    var o := Walk(g, root, p);
    o.Some? && o.value in g && |g[o.value].workers| == 1
  }

  lemma {:induction false} ScoreStops(g: Graph, n: Block, p: Path, i: nat, w: Worker)
    requires i < |p| && Walk(g, n, p[..i]).Some? && !HasChild(g, Walk(g, n, p[..i]).value, p[i])
    ensures Score(g, n, p, w) == Score(g, n, p[..i], w)
    decreases p
  {
    if i == 0 {
    } else {
      assert p[..i][1..] == p[1..][..i - 1];
      ScoreStops(g, g[n].children[p[0]], p[1..], i - 1, w);
    }
  }

  // ---------- what events do to what a worker holds

  datatype StoredBlock = StoredBlock(name: Ext, tokens: Local)

  function Tokens(blocks: seq<StoredBlock>): Path { seq(|blocks|, i requires 0 <= i < |blocks| => blocks[i].tokens) }

  function StoreAll(m: map<Ext, Path>, p: Path, blocks: seq<StoredBlock>): map<Ext, Path>
    decreases blocks
  {
    if blocks == [] then m
    else
      var q := p + [blocks[0].tokens];
      StoreAll(m[blocks[0].name := q], q, blocks[1..])
  }

  /** Every block is named for one path, and every path by one name. */
  ghost predicate WellNamed(m: map<Ext, Path>, p: Path, blocks: seq<StoredBlock>)
    decreases blocks
  {
    blocks == [] ||
    var q := p + [blocks[0].tokens];
    FreeName(m, blocks[0].name, q) && OnlyName(m, blocks[0].name, q) && WellNamed(m[blocks[0].name := q], q, blocks[1..])
  }

  /** The path that a stored event extends, if the worker knows the parent. */
  function Below(m: map<Ext, Path>, parent: Option<Ext>): Option<Path> {
    if parent.None? then Some([]) else if parent.value in m then Some(m[parent.value]) else None
  }

  function StoreEvent(m: map<Ext, Path>, parent: Option<Ext>, blocks: seq<StoredBlock>): map<Ext, Path> {
    var o := Below(m, parent);
    if o.Some? then StoreAll(m, o.value, blocks) else m
  }

  ghost predicate EventWellNamed(m: map<Ext, Path>, parent: Option<Ext>, blocks: seq<StoredBlock>) {
    var o := Below(m, parent);
    o.Some? ==> WellNamed(m, o.value, blocks)
  }

  function RemoveAll(m: map<Ext, Path>, names: seq<Ext>): map<Ext, Path>
    decreases names
  {
    if names == [] then m else RemoveAll(m - {names[0]}, names[1..])
  }

  /** A block is removed only once the worker holds nothing below it. */
  ghost predicate LeavesFirst(m: map<Ext, Path>, names: seq<Ext>)
    decreases names
  {
    names == [] || ((names[0] in m ==> NothingBelow(m, m[names[0]])) && LeavesFirst(m - {names[0]}, names[1..]))
  }

  lemma {:induction false} StoredPrefixes(m: map<Ext, Path>, p: Path, blocks: seq<StoredBlock>, q: Path)
    requires WellNamed(m, p, blocks)
    ensures Holds(StoreAll(m, p, blocks), q) <==> Holds(m, q) || (p < q && q <= p + Tokens(blocks))
    decreases blocks
  {
    if blocks == [] {
      assert p + Tokens(blocks) == p;
    } else {
      var e, p1 := blocks[0].name, p + [blocks[0].tokens];
      StoredPrefixes(m[e := p1], p1, blocks[1..], q);
      assert Tokens(blocks) == [blocks[0].tokens] + Tokens(blocks[1..]);
      assert p1 + Tokens(blocks[1..]) == p + Tokens(blocks);
      assert p < q && q <= p + Tokens(blocks) <==> q == p1 || (p1 < q && q <= p + Tokens(blocks));
      assert m[e := p1][e] == p1;
      if Holds(m, q) {
        var f :| f in m && m[f] == q;
        assert m[e := p1][f] == q;
      }
    }
  }

  lemma {:induction false} RemovedNames(m: map<Ext, Path>, names: seq<Ext>)
    ensures RemoveAll(m, names) == map e | e in m && e !in names :: m[e]
    decreases names
  {
    if names == [] {
    } else {
      RemovedNames(m - {names[0]}, names[1..]);
    }
  }

  function HeldOf(held: Held, w: Worker): map<Ext, Path> { if w in held then held[w] else map[] }

  lemma EnrollOk(g: Graph, root: Block, labels: map<Block, Path>, lookup: map<Worker, map<Ext, Block>>, held: Held,
                 w: Worker)
    requires Ok(g, root, labels, lookup, held) && w !in held
    ensures Ok(g, root, labels, lookup[w := map[]], held[w := map[]])
  {
    hide Walk, TreeOk;
    assert HoldingOk(map[]);
    forall p, v ensures HeldBy(held[w := map[]], v, p) <==> HeldBy(held, v, p) {}
  }

  lemma StoreAt(g: Graph, root: Block, labels: map<Block, Path>, lookup: map<Worker, map<Ext, Block>>, held: Held,
                w: Worker, n: Block, p: Path, data: StoredBlock, b: Block)
    requires Grows(g, root, labels, lookup, held, w, n, p, data.name, data.tokens, b)
    requires FreeName(held[w], data.name, p + [data.tokens]) && OnlyName(held[w], data.name, p + [data.tokens])
    requires b == Landing(g, lookup[w], n, data.name, data.tokens, b)
    ensures var g' := Stored(g, lookup[w], w, n, data.name, data.tokens, b);
            var m' := held[w][data.name := p + [data.tokens]];
            && n in labels
            && Ok(g', root, Labels(g, labels, lookup[w], n, data.name, data.tokens, b), lookup[w := lookup[w][data.name := b]], held[w := m'])
            && Walk(g', root, p + [data.tokens]) == Some(b) && Holds(m', p + [data.tokens])
  {
    hide Ok, Walk, Stored;
    StoreOk(g, root, labels, lookup, held, w, n, p, data.name, data.tokens, b);
    assert held[w][data.name := p + [data.tokens]][data.name] == p + [data.tokens];
  }

  ghost predicate Closed(g: Graph, root: Block) {
    root in g && forall b, t :: b in g && HasChild(g, b, t) ==> g[b].children[t] in g
  }

  ghost predicate TablesOk(lookup: map<Worker, map<Ext, Block>>, held: Held, nodes: set<Block>) {
    && lookup.Keys == held.Keys
    && (forall w :: w in lookup ==> lookup[w].Keys == held[w].Keys && lookup[w].Values <= nodes)
  }

  lemma TablesStore(lookup: map<Worker, map<Ext, Block>>, held: Held, nodes: set<Block>, w: Worker, e: Ext, b: Block,
                    p: Path)
    requires TablesOk(lookup, held, nodes) && w in lookup
    ensures w in held
    ensures TablesOk(lookup[w := lookup[w][e := b]], held[w := held[w][e := p]], nodes + {b})
  {
  }

  lemma TablesWorker(lookup: map<Worker, map<Ext, Block>>, held: Held, nodes: set<Block>, w: Worker)
    requires TablesOk(lookup, held, nodes) && w in lookup
    ensures w in held && lookup[w].Keys == held[w].Keys && lookup[w].Values <= nodes
  {
  }

  lemma TablesRemove(lookup: map<Worker, map<Ext, Block>>, held: Held, nodes: set<Block>, w: Worker, e: Ext)
    requires TablesOk(lookup, held, nodes) && w in lookup
    ensures w in held && TablesOk(lookup[w := lookup[w] - {e}], held[w := held[w] - {e}], nodes)
  {
    assert (lookup[w] - {e}).Values <= lookup[w].Values;
  }

  lemma TablesDrop(lookup: map<Worker, map<Ext, Block>>, held: Held, nodes: set<Block>, w: Worker)
    requires TablesOk(lookup, held, nodes)
    ensures TablesOk(lookup - {w}, held - {w}, nodes) && (w in lookup <==> w in held)
  {
  }

  lemma LeftClosed(g: Graph, root: Block, b: Block, w: Worker)
    requires Closed(g, root) && b in g
    ensures Closed(Left(g, b, w), root)
  {
    var g' := Left(g, b, w);
    assert forall x, t :: x in g' && HasChild(g', x, t) ==> HasChild(g, x, t);
  }

  lemma NameAt(g: Graph, root: Block, labels: map<Block, Path>, lookup: map<Worker, map<Ext, Block>>, held: Held,
               w: Worker, e: Ext)
    requires Ok(g, root, labels, lookup, held) && w in held && e in held[w]
    ensures Walk(g, root, held[w][e]) == Some(lookup[w][e]) && Holds(held[w], held[w][e])
  {
  }

  lemma RootAt(g: Graph, root: Block)
    ensures Walk(g, root, []) == Some(root)
  {
  }

  lemma TablesGrow(lookup: map<Worker, map<Ext, Block>>, held: Held, nodes: set<Block>, b: Block)
    requires TablesOk(lookup, held, nodes)
    ensures TablesOk(lookup, held, nodes + {b})
  {
  }

  lemma ClosedChild(g: Graph, root: Block, n: Block, t: Local)
    requires Closed(g, root) && n in g && t in g[n].children
    ensures HasChild(g, n, t) && g[n].children[t] in g
  {
  }

  /** What one new edge, or none, makes of the graph. */
  lemma LinkedIs(g: Graph, g': Graph, root: Block, known: map<Ext, Block>, n: Block, data: StoredBlock, b: Block)
    requires Closed(g, root) && n in g && known.Values <= g.Keys
    requires HasChild(g, n, data.tokens) ==> g' == g && b == g[n].children[data.tokens]
    requires !HasChild(g, n, data.tokens) ==>
      && (if data.name in known then b == known[data.name] else b !in g)
      && g'.Keys == g.Keys + {b}
      && (forall x :: x in g && x != n ==> g'[x] == g[x])
      && g'[n] == Node(g[n].children[data.tokens := b], g[n].workers)
      && (b !in g ==> g'[b] == Node(map[], {}))
    ensures g' == Linked(g, known, n, data.name, data.tokens, b) && Closed(g', root)
  {
    assert data.name in known ==> known[data.name] in known.Values;
    assert forall x, t :: x in g' && x != n && HasChild(g', x, t) ==> HasChild(g, x, t);
    forall t | HasChild(g', n, t) ensures g'[n].children[t] in g' {
      assert t != data.tokens ==> HasChild(g, n, t);
    }
  }

  lemma Unknown(g: Graph, root: Block, labels: map<Block, Path>, lookup: map<Worker, map<Ext, Block>>, held: Held,
                w: Worker)
    requires Ok(g, root, labels, lookup, held) && w !in held
    ensures forall p :: Score(g, root, p, w) == 0
  {
    hide Ok, Score;
    OkScores(g, root, labels, lookup, held);
    forall p ensures Score(g, root, p, w) == 0 { assert IsLongest(held, w, p, Score(g, root, p, w)); }
  }

  class RadixTree {
    const root: Block
    var lookup: map<Worker, map<Ext, Block>>
    ghost var nodes: set<Block>
    ghost var labels: map<Block, Path>
    ghost var held: Held

    ghost function Tree(): (g: Graph)
      reads this, nodes
      ensures g.Keys == nodes
    {
      map b | b in nodes :: Node(b.children, b.workers)
    }

    /** Every reference stays inside the tree's own nodes. */
    ghost predicate Shape()
      reads this, nodes
    {
      root in nodes && Closed(Tree(), root) && TablesOk(lookup, held, nodes)
    }

    /** The tree says exactly what the workers hold. */
    ghost predicate Indexed()
      reads this, nodes
    {
      Ok(Tree(), root, labels, lookup, held)
    }

    constructor ()
      ensures Shape() && Indexed() && held == map[] && fresh(nodes)
    {
      root := new Block();
      lookup, held := map[], map[];
      new;
      nodes, labels := {root}, map[root := []];
      forall p, w ensures !HeldBy(held, w, p) {}
      forall p | p != [] ensures Walk(Tree(), root, p).None? {}
    }

    method FindMatches(sequence: Path, earlyExit: bool) returns (scores: map<Worker, nat>)
      requires Shape()
      ensures exists d :: 0 <= d <= |sequence| && Scored(Tree(), root, sequence[..d], scores)
                && (d < |sequence| ==> earlyExit && Sole(Tree(), root, sequence[..d]))
      ensures !earlyExit ==> Scored(Tree(), root, sequence, scores)
      ensures Indexed() && !earlyExit ==> forall w :: IsLongest(held, w, sequence, ScoreOf(scores, w))
    {
      hide Ok;
      ghost var g := Tree();
      if Indexed() { OkScores(g, root, labels, lookup, held); }
      scores := map[];
      var current, i := root, 0;
      while i < |sequence|
        invariant 0 <= i <= |sequence|
        invariant current in nodes && Walk(g, root, sequence[..i]) == Some(current)
        invariant Scored(g, root, sequence[..i], scores)
      {
        if sequence[i] !in current.children {
          forall w ensures Score(g, root, sequence, w) == Score(g, root, sequence[..i], w) {
            ScoreStops(g, root, sequence, i, w);
          }
          assert sequence[..|sequence|] == sequence;
          return;
        }
        var b := current.children[sequence[i]];
        ghost var before := scores;
        scores := CountAll(scores, b.workers);
        assert sequence[..i] + [sequence[i]] == sequence[..i + 1];
        StepWalk(g, root, current, sequence[..i], sequence[i]);
        forall w ensures ScoreOf(scores, w) == Score(g, root, sequence[..i + 1], w) {
          ScoreSnoc(g, root, sequence[..i], sequence[i], w);
        }
        if earlyExit && |b.workers| == 1 {
          return;
        }
        current, i := b, i + 1;
      }
      assert sequence[..i] == sequence;
    }

    static method CountAll(scores: map<Worker, nat>, workers: set<Worker>) returns (r: map<Worker, nat>)
      ensures forall w :: ScoreOf(r, w) == ScoreOf(scores, w) + (if w in workers then 1 else 0)
    {
      r := scores;
      var rest := workers;
      while rest != {}
        invariant rest <= workers
        invariant forall w :: ScoreOf(r, w) == ScoreOf(scores, w) + (if w in workers - rest then 1 else 0)
      {
        var w :| w in rest;
        r, rest := r[w := ScoreOf(r, w) + 1], rest - {w};
      }
    }

    method Enroll(w: Worker)
      requires Shape()
      modifies this`lookup, this`held
      ensures Shape() && w in lookup && held == old(held)[w := HeldOf(old(held), w)]
      ensures lookup.Keys == old(lookup).Keys + {w} && Tree() == old(Tree())
      ensures old(Indexed()) ==> Indexed()
    {
      hide Ok, Closed;
      ghost var g := Tree();
      if w !in lookup {
        if Indexed() { EnrollOk(g, root, labels, lookup, held, w); }
        lookup, held := lookup[w := map[]], held[w := map[]];
        assert Tree() == g;
      }
    }

    /** Finds or makes the node for one stored block, and its edge below `current`. */
    method Link(w: Worker, current: Block, data: StoredBlock) returns (block: Block)
      requires Shape() && w in lookup && current in nodes
      modifies this`nodes, nodes`children
      ensures Shape() && nodes == old(nodes) + {block} && fresh(nodes - old(nodes))
      ensures !HasChild(old(Tree()), current, data.tokens) && data.name !in lookup[w] ==> block !in old(nodes)
      ensures block == Landing(old(Tree()), lookup[w], current, data.name, data.tokens, block)
      ensures Tree() == Linked(old(Tree()), lookup[w], current, data.name, data.tokens, block)
    {
      hide Closed, TablesOk, Linked;
      ghost var g := Tree();
      TablesWorker(lookup, held, nodes, w);
      if data.tokens in current.children {
        block := current.children[data.tokens];
        ClosedChild(g, root, current, data.tokens);
        assert nodes == old(nodes) + {block};
      } else {
        if data.name in lookup[w] {
          block := lookup[w][data.name];
          assert block in lookup[w].Values;
        } else {
          block := new Block();
        }
        TablesGrow(lookup, held, nodes, block);
        nodes := nodes + {block};
        current.children := current.children[data.tokens := block];
      }
      LinkedIs(g, Tree(), root, lookup[w], current, data, block);
    }

    method Join(w: Worker, block: Block)
      requires Shape() && block in nodes
      modifies block`workers
      ensures Shape() && Tree() == Joined(old(Tree()), block, w)
    {
      ghost var g := Tree();
      block.workers := block.workers + {w};
      assert Tree() == Joined(g, block, w);
    }

    /** Stores one block below `current`, at path `p` extended by its tokens. */
    method StoreBlock(w: Worker, current: Block, data: StoredBlock, ghost p: Path) returns (block: Block)
      requires Shape() && w in lookup && current in nodes
      modifies this`lookup, this`held, this`nodes, this`labels, nodes
      ensures Shape() && nodes == old(nodes) + {block} && fresh(nodes - old(nodes))
      ensures block == Landing(old(Tree()), old(lookup)[w], current, data.name, data.tokens, block)
      ensures Tree() == Stored(old(Tree()), old(lookup)[w], w, current, data.name, data.tokens, block)
      ensures lookup == old(lookup)[w := old(lookup)[w][data.name := block]]
      ensures held == old(held)[w := old(held)[w][data.name := p + [data.tokens]]]
      ensures old(At(p, w, current)) && FreeName(old(held)[w], data.name, p + [data.tokens]) && OnlyName(old(held)[w], data.name, p + [data.tokens])
        ==> At(p + [data.tokens], w, block)
    {
      hide Tree, Ok, Linked, Landing, Joined, FreeName, OnlyName, Labels, Walk, Holds, Closed, TablesOk;
      ghost var g, was, names := Tree(), lookup, held;
      block := Link(w, current, data);
      Join(w, block);
      if old(At(p, w, current)) && FreeName(names[w], data.name, p + [data.tokens]) && OnlyName(names[w], data.name, p + [data.tokens]) {
        StoreAt(g, root, labels, was, names, w, current, p, data, block);
      }
      Record(w, data.name, block, p + [data.tokens], if current in labels then Labels(g, labels, was[w], current, data.name, data.tokens, block) else labels);
    }

    method Record(w: Worker, name: Ext, block: Block, ghost p: Path, ghost newLabels: map<Block, Path>)
      requires Shape() && w in lookup && block in nodes
      modifies this`lookup, this`held, this`labels
      ensures Shape() && labels == newLabels && Tree() == old(Tree()) && w in old(held)
      ensures lookup == old(lookup)[w := old(lookup)[w][name := block]] && held == old(held)[w := old(held)[w][name := p]]
    {
      hide Closed, TablesOk;
      TablesStore(lookup, held, nodes, w, name, block, p);
      assert nodes + {block} == nodes;
      ghost var g := Tree();
      lookup := lookup[w := lookup[w][name := block]];
      held := held[w := held[w][name := p]];
      labels := newLabels;
      assert Tree() == g;
    }

    /** The index is right, and `current` is the node at `p`, which `w` holds unless it is the root. */
    ghost predicate At(p: Path, w: Worker, current: Block)
      reads this, nodes
    {
      Indexed() && w in held && Walk(Tree(), root, p) == Some(current) && (p != [] ==> Holds(held[w], p))
    }

    method StoreBlocks(w: Worker, start: Block, blocks: seq<StoredBlock>, ghost p: Path)
      requires Shape() && w in lookup && start in nodes
      modifies this`lookup, this`held, this`nodes, this`labels, nodes
      ensures Shape() && fresh(nodes - old(nodes)) && w in old(held)
      ensures held == old(held)[w := StoreAll(old(held)[w], p, blocks)]
      ensures old(At(p, w, start)) && WellNamed(old(held)[w], p, blocks) ==> Indexed()
    {
      hide Tree, Ok, Closed, TablesOk, FreeName, OnlyName, Stored, Landing, Walk, Holds;
      ghost var q, ok := p, At(p, w, start) && WellNamed(held[w], p, blocks);
      TablesWorker(lookup, held, nodes, w);
      var current, i := start, 0;
      while i < |blocks|
        invariant 0 <= i <= |blocks|
        invariant Shape() && w in lookup && w in held && current in nodes && fresh(nodes - old(nodes))
        invariant held == old(held)[w := held[w]] && StoreAll(held[w], q, blocks[i..]) == StoreAll(old(held)[w], p, blocks)
        invariant ok ==> At(q, w, current) && WellNamed(held[w], q, blocks[i..])
      {
        var data := blocks[i];
        assert blocks[i..][0] == data && blocks[i..][1..] == blocks[i + 1..];
        current := StoreBlock(w, current, data, q);
        q, i := q + [data.tokens], i + 1;
      }
    }

    /** A `stored` event: the blocks go below the named parent, or below the root; a parent that the
        worker does not know drops the event. */
    method ApplyStored(w: Worker, parent: Option<Ext>, blocks: seq<StoredBlock>)
      requires Shape()
      modifies this`lookup, this`held, this`nodes, this`labels, nodes
      ensures Shape() && fresh(nodes - old(nodes))
      ensures held == old(held)[w := StoreEvent(HeldOf(old(held), w), parent, blocks)]
      ensures Below(HeldOf(old(held), w), parent).None? ==> Tree() == old(Tree())
      ensures old(Indexed()) && EventWellNamed(HeldOf(old(held), w), parent, blocks) ==> Indexed()
    {
      hide Tree, Ok, Closed, WellNamed, StoreAll, Walk, Holds, TablesOk;
      Enroll(w);
      TablesWorker(lookup, held, nodes, w);
      if parent.Some? {
        if parent.value !in lookup[w] {
          return;
        }
        assert lookup[w][parent.value] in lookup[w].Values;
        if Indexed() { NameAt(Tree(), root, labels, lookup, held, w, parent.value); }
        StoreBlocks(w, lookup[w][parent.value], blocks, held[w][parent.value]);
      } else {
        RootAt(Tree(), root);
        StoreBlocks(w, root, blocks, []);
      }
    }

    method Part(w: Worker, block: Block)
      requires Shape() && block in nodes
      modifies block
      ensures Shape() && Tree() == Left(old(Tree()), block, w)
    {
      hide TablesOk;
      ghost var g := Tree();
      block.workers := block.workers - {w};
      if block.workers == {} {
        block.children := map[];
      }
      assert Tree() == Left(g, block, w);
      LeftClosed(g, root, block, w);
    }

    method RemoveBlock(w: Worker, name: Ext)
      requires Shape() && w in lookup
      modifies this`lookup, this`held, nodes
      ensures Shape() && w in old(held) && held == old(held)[w := old(held)[w] - {name}]
      ensures name in old(lookup)[w] ==> old(lookup)[w][name] in nodes && Tree() == Left(old(Tree()), old(lookup)[w][name], w)
      ensures name !in old(lookup)[w] ==> Tree() == old(Tree())
      ensures lookup == old(lookup)[w := old(lookup)[w] - {name}]
      ensures old(Indexed()) && (name in old(held)[w] ==> NothingBelow(old(held)[w], old(held)[w][name])) ==> Indexed()
    {
      hide Ok, NothingBelow, Left, Closed, TablesOk;
      TablesWorker(lookup, held, nodes, w);
      TablesRemove(lookup, held, nodes, w, name);
      if name !in lookup[w] {
        assert held[w] - {name} == held[w] && lookup[w] - {name} == lookup[w];
        assert held[w := held[w]] == held && lookup[w := lookup[w]] == lookup;
        return;
      }
      assert lookup[w][name] in lookup[w].Values;
      if Indexed() && NothingBelow(held[w], held[w][name]) {
        LeaveOk(Tree(), root, labels, lookup, held, w, name);
      }
      Part(w, lookup[w][name]);
      ghost var g' := Tree();
      lookup := lookup[w := lookup[w] - {name}];
      held := held[w := held[w] - {name}];
      assert Tree() == g';
    }

    /** A `removed` event. */
    method ApplyRemoved(w: Worker, names: seq<Ext>)
      requires Shape()
      modifies this`lookup, this`held, nodes
      ensures Shape() && held == old(held)[w := RemoveAll(HeldOf(old(held), w), names)]
      ensures old(Indexed()) && LeavesFirst(HeldOf(old(held), w), names) ==> Indexed()
    {
      hide Tree, Ok, Closed, TablesOk, NothingBelow, Left;
      ghost var m := HeldOf(held, w);
      ghost var ok := Indexed() && LeavesFirst(m, names);
      Enroll(w);
      var i := 0;
      while i < |names|
        invariant 0 <= i <= |names|
        invariant Shape() && w in lookup && w in held
        invariant held == old(held)[w := held[w]] && RemoveAll(held[w], names[i..]) == RemoveAll(m, names)
        invariant ok ==> Indexed() && LeavesFirst(held[w], names[i..])
      {
        assert names[i..][0] == names[i] && names[i..][1..] == names[i + 1..];
        RemoveBlock(w, names[i]);
        i := i + 1;
      }
    }

    method Forget(w: Worker, blocks: set<Block>)
      requires Shape() && blocks <= nodes
      modifies blocks`workers
      ensures Shape() && Tree() == WithoutWorker(old(Tree()), blocks, w)
    {
      hide TablesOk;
      ghost var g := Tree();
      var rest := blocks;
      while rest != {}
        invariant rest <= blocks
        invariant forall b :: b in nodes ==> b.workers == if b in blocks && b !in rest then g[b].workers - {w} else g[b].workers
      {
        var b :| b in rest;
        b.workers := b.workers - {w};
        rest := rest - {b};
      }
      assert Tree() == WithoutWorker(g, blocks, w);
    }

    /** Forgets a worker: from then on its score is nought for every sequence. */
    method RemoveWorker(w: Worker)
      requires Shape()
      modifies this`lookup, this`held, nodes`workers
      ensures Shape() && held == old(held) - {w}
      ensures old(Indexed()) ==> Indexed() && forall p :: Score(Tree(), root, p, w) == 0
    {
      hide Ok, Score, WithoutWorker, Closed, TablesOk;
      TablesDrop(lookup, held, nodes, w);
      if w !in lookup {
        assert held - {w} == held;
        if Indexed() { Unknown(Tree(), root, labels, lookup, held, w); }
        return;
      }
      TablesWorker(lookup, held, nodes, w);
      if Indexed() {
        WithoutWorkerOk(Tree(), root, labels, lookup, held, w);
        WithoutWorkerScores(Tree(), root, labels, lookup, held, w);
      }
      Forget(w, lookup[w].Values);
      ghost var g' := Tree();
      lookup := lookup - {w};
      held := held - {w};
      assert Tree() == g';
    }
  }
}
