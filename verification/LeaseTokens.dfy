/** How an in-process lease lives and dies with its cancellation token. Making a lease takes two steps:
    its revocation is registered with the token, which fires at once on a token that is cancelled
    already, and then the lease is recorded. Cancelling takes the registered callbacks off the token in
    one step and runs each of them in a later one, so anything may happen in between. */
module LeaseTokens {

  datatype Callback = Callback(token: nat, lease: int)

  /** `opening` are the leases between their two steps, `firing` the callbacks taken and not yet run. */
  datatype Book = Book(
    next: int,
    opening: set<int>,
    recorded: set<int>,
    cancelled: set<nat>,
    callbacks: set<Callback>,
    firing: set<Callback>)

  datatype Step = Reserve(token: nat) | Record(lease: int) | Cancel(token: nat) | Fire(callback: Callback)

  function Of(callbacks: set<Callback>, token: nat): set<Callback> { set c | c in callbacks && c.token == token }

  function Leases(cs: set<Callback>): set<int> { set c | c in cs :: c.lease }

  function Next(b: Book, step: Step): Book {
    match step
    case Reserve(t) =>
      var b' := b.(next := b.next + 1, opening := b.opening + {b.next});
      if t in b.cancelled then b'.(recorded := b.recorded - {b.next})
      else b'.(callbacks := b.callbacks + {Callback(t, b.next)})
    case Record(l) => if l in b.opening then b.(opening := b.opening - {l}, recorded := b.recorded + {l}) else b
    case Cancel(t) =>
      if t in b.cancelled then b
      else
        var taken := Of(b.callbacks, t);
        b.(cancelled := b.cancelled + {t}, callbacks := b.callbacks - taken, firing := b.firing + taken)
    case Fire(c) => if c in b.firing then b.(firing := b.firing - {c}, recorded := b.recorded - {c.lease}) else b
  }

  function Run(b: Book, steps: seq<Step>): Book
    decreases steps
  {
    if steps == [] then b else Run(Next(b, steps[0]), steps[1..])
  }

  /** A lease has at most one callback, registered with a token that is not cancelled or on its way. */
  ghost predicate Inv(b: Book) {
    && (forall l :: l in b.opening || l in b.recorded || l in Leases(b.callbacks + b.firing) ==> l < b.next)
    && b.opening !! b.recorded && b.callbacks !! b.firing
    && (forall c :: c in b.callbacks ==> c.token !in b.cancelled)
    && (forall c, d :: c in b.callbacks + b.firing && d in b.callbacks + b.firing && c.lease == d.lease ==> c == d)
  }

  lemma StepKeepsInv(b: Book, step: Step)
    requires Inv(b)
    ensures Inv(Next(b, step))
  {
    var b' := Next(b, step);
    forall c | c in b.callbacks + b.firing ensures c.lease in Leases(b.callbacks + b.firing) && c.lease < b.next {}
    forall l | l in Leases(b'.callbacks + b'.firing) ensures l < b'.next {
      var c :| c in b'.callbacks + b'.firing && c.lease == l;
      assert c in b.callbacks + b.firing || l == b.next;
    }
  }

  // ---------- what becomes of one lease

  /** The revocation has happened, or had nothing to revoke, and will not happen again. */
  ghost predicate Spent(b: Book, l: int) { l < b.next && l !in Leases(b.callbacks + b.firing) }

  /** The run cancels the callback's token and, after that, runs the callback. */
  predicate Fires(steps: seq<Step>, c: Callback) {
    steps != [] && if steps[0] == Cancel(c.token) then Fire(c) in steps[1..] else Fires(steps[1..], c)
  }

  lemma StepRegistered(b: Book, step: Step, c: Callback)
    requires Inv(b) && c in b.callbacks
    ensures var b' := Next(b, step);
            && (if step == Cancel(c.token) then c in b'.firing else c in b'.callbacks)
            && (step != Record(c.lease) ==> (c.lease in b'.recorded <==> c.lease in b.recorded))
            && (step != Record(c.lease) ==> (c.lease in b'.opening <==> c.lease in b.opening))
  {
    assert c.lease in Leases(b.callbacks + b.firing);
  }

  lemma StepFiring(b: Book, step: Step, c: Callback)
    requires Inv(b) && c in b.firing
    ensures var b' := Next(b, step);
            && (if step == Fire(c) then Spent(b', c.lease) && c.lease !in b'.recorded else c in b'.firing)
            && (step != Record(c.lease) && step != Fire(c) ==> (c.lease in b'.recorded <==> c.lease in b.recorded))
            && (step != Record(c.lease) ==> (c.lease in b'.opening <==> c.lease in b.opening))
  {
    assert c.lease in Leases(b.callbacks + b.firing);
  }

  lemma StepSpent(b: Book, step: Step, l: int)
    requires Inv(b) && Spent(b, l)
    ensures var b' := Next(b, step);
            && Spent(b', l)
            && (step != Record(l) ==> (l in b'.opening <==> l in b.opening) && (l in b'.recorded <==> l in b.recorded))
  {
    var b' := Next(b, step);
    forall c | c in b.callbacks + b.firing ensures c.lease != l { assert c.lease in Leases(b.callbacks + b.firing); }
    forall c | c in b'.callbacks + b'.firing ensures c.lease != l { assert c in b.callbacks + b.firing || c.lease == b.next; }
  }

  lemma {:induction false} RunSpent(b: Book, steps: seq<Step>, l: int)
    requires Inv(b) && Spent(b, l) && Record(l) !in steps
    ensures var b' := Run(b, steps);
            Inv(b') && Spent(b', l) && (l in b'.opening <==> l in b.opening) && (l in b'.recorded <==> l in b.recorded)
    decreases steps
  {
    hide Inv, Spent, Next;
    if steps != [] {
      assert steps[0] in steps;
      StepKeepsInv(b, steps[0]);
      StepSpent(b, steps[0], l);
      RunSpent(Next(b, steps[0]), steps[1..], l);
    }
  }

  /** A callback on its way revokes its lease in a run exactly when the run runs it. */
  lemma {:induction false} RunFiring(b: Book, steps: seq<Step>, c: Callback)
    requires Inv(b) && c in b.firing && Record(c.lease) !in steps
    ensures var b' := Run(b, steps);
            && Inv(b') && (c.lease in b'.opening <==> c.lease in b.opening)
            && if Fire(c) in steps then Spent(b', c.lease) && c.lease !in b'.recorded
               else c in b'.firing && (c.lease in b'.recorded <==> c.lease in b.recorded)
    decreases steps
  {
    hide Inv, Spent, Next;
    if steps != [] {
      assert steps[0] in steps;
      StepKeepsInv(b, steps[0]);
      StepFiring(b, steps[0], c);
      assert Fire(c) in steps <==> steps[0] == Fire(c) || Fire(c) in steps[1..];
      if steps[0] == Fire(c) {
        RunSpent(Next(b, steps[0]), steps[1..], c.lease);
      } else {
        RunFiring(Next(b, steps[0]), steps[1..], c);
      }
    }
  }

  /** A registered lease is revoked in a run exactly when the run cancels its token and then runs its callback. */
  lemma {:induction false} RunRegistered(b: Book, steps: seq<Step>, c: Callback)
    requires Inv(b) && c in b.callbacks && Record(c.lease) !in steps
    ensures var b' := Run(b, steps);
            && Inv(b') && (c.lease in b'.opening <==> c.lease in b.opening)
            && if Fires(steps, c) then Spent(b', c.lease) && c.lease !in b'.recorded
               else c in (if Cancel(c.token) in steps then b'.firing else b'.callbacks)
                    && (c.lease in b'.recorded <==> c.lease in b.recorded)
    decreases steps
  {
    hide Inv, Spent, Next;
    if steps != [] {
      assert steps[0] in steps;
      StepKeepsInv(b, steps[0]);
      StepRegistered(b, steps[0], c);
      assert Cancel(c.token) in steps <==> steps[0] == Cancel(c.token) || Cancel(c.token) in steps[1..];
      if steps[0] == Cancel(c.token) {
        RunFiring(Next(b, steps[0]), steps[1..], c);
      } else {
        RunRegistered(Next(b, steps[0]), steps[1..], c);
      }
    }
  }

  lemma {:induction false} FiresAppend(xs: seq<Step>, ys: seq<Step>, c: Callback)
    ensures Fires(xs + ys, c) <==> Fires(xs, c) || (if Cancel(c.token) in xs then Fire(c) in ys else Fires(ys, c))
    decreases xs
  {
    if xs == [] {
      assert xs + ys == ys;
    } else {
      assert (xs + ys)[1..] == xs[1..] + ys;
      FiresAppend(xs[1..], ys, c);
      assert Cancel(c.token) in xs <==> xs[0] == Cancel(c.token) || Cancel(c.token) in xs[1..];
    }
  }

  /** A lease made with token `t`, with anything happening between its two steps and after them: it is there
      in the end exactly when `t` was cancelled at the call, its callback ran before the recording, or its
      callback has not run. In the first two cases, and only then, nothing can revoke it any more. */
  lemma LeaseOutlives(b: Book, t: nat, between: seq<Step>, after: seq<Step>)
    requires Inv(b) && Record(b.next) !in between && Record(b.next) !in after
    ensures var c := Callback(t, b.next);
            var recorded := Next(Run(Next(b, Reserve(t)), between), Record(b.next));
            && b.next in recorded.recorded
            && (Spent(recorded, b.next) <==> t in b.cancelled || Fires(between, c))
            && (b.next in Run(recorded, after).recorded <==>
                 t in b.cancelled || Fires(between, c) || !Fires(between + after, c))
  {
    hide Run, Fires;
    var l, b1, c := b.next, Next(b, Reserve(t)), Callback(t, b.next);
    StepKeepsInv(b, Reserve(t));
    FiresAppend(between, after, c);
    ReserveStands(b, t);
    if t in b.cancelled {
      RunSpent(b1, between, l);
    } else {
      RunRegistered(b1, between, c);
    }
    var b2 := Run(b1, between);
    var b3 := Next(b2, Record(l));
    StepKeepsInv(b2, Record(l));
    if t in b.cancelled || Fires(between, c) {
      RunSpent(b3, after, l);
    } else {
      assert l in Leases(b3.callbacks + b3.firing);
      if Cancel(t) in between { RunFiring(b3, after, c); } else { RunRegistered(b3, after, c); }
    }
  }

  lemma ReserveStands(b: Book, t: nat)
    requires Inv(b)
    ensures var b' := Next(b, Reserve(t));
            && b.next in b'.opening && (if t in b.cancelled then Spent(b', b.next) else Callback(t, b.next) in b'.callbacks)
  {
    if t in b.cancelled {
      forall c | c in b.callbacks + b.firing ensures c.lease != b.next { assert c.lease in Leases(b.callbacks + b.firing); }
    }
  }

  /** Once every callback taken has run, the lease is there exactly when its token was cancelled at the
      call, has never been cancelled since, or had its callback run before the recording. */
  lemma LeaseSettles(b: Book, t: nat, between: seq<Step>, after: seq<Step>)
    requires Inv(b) && Record(b.next) !in between && Record(b.next) !in after
    requires Run(Next(Run(Next(b, Reserve(t)), between), Record(b.next)), after).firing == {}
    ensures b.next in Run(Next(Run(Next(b, Reserve(t)), between), Record(b.next)), after).recorded <==>
              t in b.cancelled || Fires(between, Callback(t, b.next)) || (Cancel(t) !in between && Cancel(t) !in after)
  {
    hide Run, Fires;
    var l, b1, c := b.next, Next(b, Reserve(t)), Callback(t, b.next);
    LeaseOutlives(b, t, between, after);
    FiresAppend(between, after, c);
    NeverFires(between + after, c);
    if t !in b.cancelled && !Fires(between, c) {
      StepKeepsInv(b, Reserve(t));
      ReserveStands(b, t);
      RunRegistered(b1, between, c);
      var b2 := Run(b1, between);
      StepKeepsInv(b2, Record(l));
      if Cancel(t) in between {
        RunFiring(Next(b2, Record(l)), after, c);
      } else {
        RunRegistered(Next(b2, Record(l)), after, c);
      }
    }
  }

  lemma {:induction false} NeverFires(steps: seq<Step>, c: Callback)
    ensures Cancel(c.token) !in steps ==> !Fires(steps, c)
    decreases steps
  {
    if steps != [] {
      NeverFires(steps[1..], c);
      assert steps[0] in steps;
    }
  }
}
