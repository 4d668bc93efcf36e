/** The bounded channel between threads and coroutines: every step is one hold of its mutex, and a wait on
    a condition variable ends one step and starts another when it is woken. */
module Channel {

  import opened Options

  type Value = int
  type Thread = nat
  type Awaiter = nat

  /** `blockedS` and `blockedR` wait for a notification; `wokenS` and `wokenR` have been notified and have
      yet to look again. `accepted`, `delivered`, `ended` and `refused` record what callers were told. */
  datatype Channel = Channel(
    capacity: nat, queue: seq<Value>, closed: bool, parked: seq<Awaiter>,
    senders: nat, receivers: nat, closing: nat,
    blockedS: map<Thread, Value>, wokenS: map<Thread, Value>, blockedR: set<Thread>, wokenR: set<Thread>,
    accepted: seq<Value>, delivered: seq<Value>, ended: nat, refused: nat)

  function Start(capacity: nat): Channel {
    Channel(capacity, [], false, [], 1, 1, 0, map[], map[], {}, {}, [], [], 0, 0)
  }

  // ---------- notifications

  function NotifySender(c: Channel, wake: Option<Thread>): Channel {
    if wake.Some? && wake.value in c.blockedS
    then c.(blockedS := c.blockedS - {wake.value}, wokenS := c.wokenS[wake.value := c.blockedS[wake.value]])
    else c
  }

  function NotifyReceiver(c: Channel, wake: Option<Thread>): Channel {
    if wake.Some? && wake.value in c.blockedR
    then c.(blockedR := c.blockedR - {wake.value}, wokenR := c.wokenR + {wake.value})
    else c
  }

  /** One notification wakes some waiter, if there is one. */
  predicate Picks(wake: Option<Thread>, waiting: set<Thread>) {
    if waiting == {} then wake.None? else wake.Some? && wake.value in waiting
  }

  // ---------- what one hold of the mutex does

  function Push(c: Channel, t: Thread, v: Value, wake: Option<Thread>): Channel {
    if c.closed then c.(refused := c.refused + 1)
    else if c.parked != [] then c.(parked := c.parked[1..], accepted := c.accepted + [v], delivered := c.delivered + [v])
    else if |c.queue| < c.capacity then NotifyReceiver(c.(queue := c.queue + [v], accepted := c.accepted + [v]), wake)
    else c.(blockedS := c.blockedS[t := v])
  }

  function Pop(c: Channel, wake: Option<Thread>): Channel
    requires c.queue != []
  {
    NotifySender(c.(queue := c.queue[1..], delivered := c.delivered + [c.queue[0]]), wake)
  }

  function Await(c: Channel, a: Awaiter, wake: Option<Thread>): Channel {
    if c.queue != [] then Pop(c, wake)
    else if c.closed then c.(ended := c.ended + 1)
    else c.(parked := c.parked + [a])
  }

  function Take(c: Channel, t: Thread, wake: Option<Thread>): Channel {
    if c.queue != [] then Pop(c, wake)
    else if c.closed then c.(ended := c.ended + 1)
    else c.(blockedR := c.blockedR + {t})
  }

  function CloseNow(c: Channel): Channel {
    if c.closed then c
    else c.(closed := true, ended := c.ended + |c.parked|, parked := [],
            wokenS := c.wokenS + c.blockedS, blockedS := map[], wokenR := c.wokenR + c.blockedR, blockedR := {})
  }

  datatype Step =
    | Send(t: Thread, v: Value, wake: Option<Thread>)
    | Resend(t: Thread, wake: Option<Thread>)
    | Recv(a: Awaiter, wake: Option<Thread>)
    | SyncRecv(t: Thread, wake: Option<Thread>)
    | Rerecv(t: Thread, wake: Option<Thread>)
    | Close
    | CloneSender | DropSender | CloneReceiver | DropReceiver | CloseDropped

  predicate Idle(c: Channel, t: Thread) {
    t !in c.blockedS && t !in c.wokenS && t !in c.blockedR && t !in c.wokenR
  }

  /** A waiting thread may also look again without a notification. */
  predicate Enabled(c: Channel, s: Step) {
    match s
    case Send(t, _, wake) => c.senders > 0 && Idle(c, t) && Picks(wake, c.blockedR)
    case Resend(t, wake) => (t in c.blockedS || t in c.wokenS) && Picks(wake, c.blockedR)
    case Recv(_, wake) => c.receivers > 0 && Picks(wake, c.blockedS.Keys)
    case SyncRecv(t, wake) => c.receivers > 0 && Idle(c, t) && Picks(wake, c.blockedS.Keys)
    case Rerecv(t, wake) => (t in c.blockedR || t in c.wokenR) && Picks(wake, c.blockedS.Keys)
    case Close => c.senders > 0 || c.receivers > 0
    case CloneSender => c.senders > 0
    case DropSender => c.senders > 0
    case CloneReceiver => c.receivers > 0
    case DropReceiver => c.receivers > 0
    case CloseDropped => c.closing > 0
  }

  function Pending(c: Channel, t: Thread): Value
    requires t in c.blockedS || t in c.wokenS
  {
    if t in c.blockedS then c.blockedS[t] else c.wokenS[t]
  }

  function Next(c: Channel, s: Step): Channel
    requires Enabled(c, s)
  {
    match s
    case Send(t, v, wake) => Push(c, t, v, wake)
    case Resend(t, wake) => Push(c.(blockedS := c.blockedS - {t}, wokenS := c.wokenS - {t}), t, Pending(c, t), wake)
    case Recv(a, wake) => Await(c, a, wake)
    case SyncRecv(t, wake) => Take(c, t, wake)
    case Rerecv(t, wake) => Take(c.(blockedR := c.blockedR - {t}, wokenR := c.wokenR - {t}), t, wake)
    case Close => CloseNow(c)
    case CloneSender => c.(senders := c.senders + 1)
    case DropSender => c.(senders := c.senders - 1, closing := if c.senders == 1 then c.closing + 1 else c.closing)
    case CloneReceiver => c.(receivers := c.receivers + 1)
    case DropReceiver => c.(receivers := c.receivers - 1, closing := if c.receivers == 1 then c.closing + 1 else c.closing)
    case CloseDropped => CloseNow(c.(closing := c.closing - 1))
  }

  predicate IsRun(c: Channel, steps: seq<Step>)
    decreases steps
  {
    steps == [] || (Enabled(c, steps[0]) && IsRun(Next(c, steps[0]), steps[1..]))
  }

  function Run(c: Channel, steps: seq<Step>): Channel
    requires IsRun(c, steps)
    decreases steps
  {
    if steps == [] then c else Run(Next(c, steps[0]), steps[1..])
  }

  // ---------- what every step keeps

  ghost predicate Lossless(c: Channel) { c.delivered + c.queue == c.accepted }

  ghost predicate Bounded(c: Channel) {
    && |c.queue| <= c.capacity
    && (c.parked != [] ==> c.queue == [] && !c.closed)
    && (c.ended > 0 ==> c.closed && c.queue == [])
    && (c.refused > 0 ==> c.closed)
    && (c.senders == 0 || c.receivers == 0 ==> c.closed || c.closing > 0)
  }

  /** No waiting receiver is forgotten: every queued value has a notified receiver on its way. */
  ghost predicate ReceiversServed(c: Channel) {
    && (c.blockedR != {} ==> !c.closed && |c.queue| <= |c.wokenR|)
    && (c.blockedS.Keys != {} ==> !c.closed)
    && c.blockedR !! c.wokenR && c.blockedS.Keys !! c.wokenS.Keys
  }

  ghost predicate Inv(c: Channel) { Lossless(c) && Bounded(c) && ReceiversServed(c) }

  lemma StartInv(capacity: nat)
    ensures Inv(Start(capacity))
  {
  }

  lemma NotifySenderKeeps(c: Channel, wake: Option<Thread>)
    requires Inv(c)
    ensures Inv(NotifySender(c, wake))
  {
  }

  lemma PushInv(c: Channel, t: Thread, v: Value, wake: Option<Thread>)
    requires Inv(c) && Picks(wake, c.blockedR) && t !in c.wokenS
    ensures Inv(Push(c, t, v, wake))
  {
    var r := Push(c, t, v, wake);
    if !c.closed && c.parked != [] {
      assert c.delivered + [v] + c.queue == c.accepted + [v];
    } else if !c.closed && |c.queue| < c.capacity {
      assert c.delivered + (c.queue + [v]) == c.accepted + [v];
    }
  }

  lemma PopInv(c: Channel, wake: Option<Thread>)
    requires Inv(c) && c.queue != []
    ensures Inv(Pop(c, wake))
  {
    hide NotifySender;
    assert c.delivered + [c.queue[0]] + c.queue[1..] == c.delivered + c.queue;
    NotifySenderKeeps(c.(queue := c.queue[1..], delivered := c.delivered + [c.queue[0]]), wake);
  }

  lemma TakeInv(c: Channel, t: Thread, wake: Option<Thread>)
    requires Inv(c) && t !in c.wokenR
    ensures Inv(Take(c, t, wake))
  {
    if c.queue != [] { PopInv(c, wake); }
  }

  lemma AwaitInv(c: Channel, a: Awaiter, wake: Option<Thread>)
    requires Inv(c)
    ensures Inv(Await(c, a, wake))
  {
    if c.queue != [] { PopInv(c, wake); }
  }

  /** A woken receiver that looks again takes its value along. */
  lemma RetakeInv(c: Channel, t: Thread, wake: Option<Thread>)
    requires Inv(c) && (t in c.blockedR || t in c.wokenR)
    ensures Inv(Take(c.(blockedR := c.blockedR - {t}, wokenR := c.wokenR - {t}), t, wake))
  {
    hide NotifySender;
    var c1 := c.(blockedR := c.blockedR - {t}, wokenR := c.wokenR - {t});
    if c.queue == [] {
      TakeInv(c1, t, wake);
    } else {
      assert t in c.wokenR ==> |c1.wokenR| == |c.wokenR| - 1;
      assert t !in c.wokenR ==> c1.wokenR == c.wokenR;
      assert c.delivered + [c.queue[0]] + c.queue[1..] == c.delivered + c.queue;
      NotifySenderKeeps(c1.(queue := c.queue[1..], delivered := c.delivered + [c.queue[0]]), wake);
    }
  }

  lemma StepKeepsInv(c: Channel, s: Step)
    requires Inv(c) && Enabled(c, s)
    ensures Inv(Next(c, s))
  {
    match s
    case Send(t, v, wake) => PushInv(c, t, v, wake);
    case Resend(t, wake) =>
      var c1 := c.(blockedS := c.blockedS - {t}, wokenS := c.wokenS - {t});
      PushInv(c1, t, Pending(c, t), wake);
    case Recv(a, wake) => AwaitInv(c, a, wake);
    case SyncRecv(t, wake) => TakeInv(c, t, wake);
    case Rerecv(t, wake) => RetakeInv(c, t, wake);
    case Close =>
    case CloneSender =>
    case DropSender =>
    case CloneReceiver =>
    case DropReceiver =>
    case CloseDropped =>
  }

  lemma {:induction false} RunKeepsInv(c: Channel, steps: seq<Step>)
    requires Inv(c) && IsRun(c, steps)
    ensures Inv(Run(c, steps))
    decreases steps
  {
    hide Inv, Next, Enabled;
    if steps == [] {
    } else {
      StepKeepsInv(c, steps[0]);
      RunKeepsInv(Next(c, steps[0]), steps[1..]);
    }
  }

  // ---------- main results, for every run from a new channel

  /** Values come out once each, in the order in which they were accepted, and the queue never overfills. */
  lemma LosslessFifo(capacity: nat, steps: seq<Step>)
    requires IsRun(Start(capacity), steps)
    ensures var c := Run(Start(capacity), steps);
            c.delivered + c.queue == c.accepted && |c.queue| <= c.capacity
  {
    StartInv(capacity);
    RunKeepsInv(Start(capacity), steps);
  }

  /** An end of stream is reported only when the channel is closed and drained, and a send is refused only
      when it is closed; a coroutine is parked only while the queue is empty and open. */
  lemma EndMeansDrained(capacity: nat, steps: seq<Step>)
    requires IsRun(Start(capacity), steps)
    ensures var c := Run(Start(capacity), steps);
            && (c.ended > 0 ==> c.closed && c.queue == [] && c.delivered == c.accepted)
            && (c.refused > 0 ==> c.closed)
            && (c.parked != [] ==> c.queue == [] && !c.closed)
            && (c.senders == 0 || c.receivers == 0 ==> c.closed || c.closing > 0)
  {
    StartInv(capacity);
    RunKeepsInv(Start(capacity), steps);
    var c := Run(Start(capacity), steps);
    assert c.delivered + [] == c.delivered;
  }

  /** A waiting receiver is never left behind: while one waits unnotified the channel is open, and there is a
      notified receiver for every queued value. */
  lemma NoReceiverStranded(capacity: nat, steps: seq<Step>)
    requires IsRun(Start(capacity), steps)
    ensures var c := Run(Start(capacity), steps);
            c.blockedR != {} ==> !c.closed && |c.queue| <= |c.wokenR|
  {
    StartInv(capacity);
    RunKeepsInv(Start(capacity), steps);
  }

  // ---------- waiting senders

  /** A sender waits unnotified although it could go on, and no notified sender is on its way. */
  predicate SenderStranded(c: Channel) {
    c.blockedS.Keys != {} && c.wokenS.Keys == {} && (c.closed || |c.queue| < c.capacity || c.parked != [])
  }

  /** While a sender waits unnotified, every free slot and every parked receiver has a notified sender. */
  ghost predicate Served(c: Channel) {
    c.blockedS.Keys != {} ==> c.capacity - |c.queue| + |c.parked| <= |c.wokenS.Keys|
  }

  /** The step parks a coroutine while a sender waits and no notification is to spare. */
  predicate Starves(c: Channel, s: Step) {
    s.Recv? && c.queue == [] && !c.closed && c.blockedS.Keys != {} && c.capacity + |c.parked| + 1 > |c.wokenS.Keys|
  }

  /** One step leaves waiting senders served exactly when it does not starve them. */
  lemma StepServesIff(c: Channel, s: Step)
    requires Inv(c) && Served(c) && Enabled(c, s)
    ensures Served(Next(c, s)) <==> !Starves(c, s)
  {
    match s
    case Send(t, v, wake) => PushServes(c, t, v, wake);
    case Resend(t, wake) => ResendServes(c, t, wake);
    case Recv(a, wake) => if c.queue != [] { PopServes(c, wake); }
    case SyncRecv(t, wake) => if c.queue != [] { PopServes(c, wake); }
    case Rerecv(t, wake) => if c.queue != [] { PopServes(c.(blockedR := c.blockedR - {t}, wokenR := c.wokenR - {t}), wake); }
    case Close =>
    case CloneSender =>
    case DropSender =>
    case CloneReceiver =>
    case DropReceiver =>
    case CloseDropped =>
  }

  /** A send makes up for one notification. */
  lemma PushServes(c: Channel, t: Thread, v: Value, wake: Option<Thread>)
    requires Bounded(c)
    requires c.blockedS.Keys != {} ==> !c.closed && c.capacity - |c.queue| + |c.parked| <= |c.wokenS.Keys| + 1
    ensures Served(Push(c, t, v, wake))
  {
  }

  lemma ResendServes(c: Channel, t: Thread, wake: Option<Thread>)
    requires Inv(c) && Served(c) && (t in c.blockedS || t in c.wokenS)
    ensures Served(Push(c.(blockedS := c.blockedS - {t}, wokenS := c.wokenS - {t}), t, Pending(c, t), wake))
  {
    hide Push;
    var c1 := c.(blockedS := c.blockedS - {t}, wokenS := c.wokenS - {t});
    assert c1.wokenS.Keys == c.wokenS.Keys - {t} && c1.blockedS.Keys <= c.blockedS.Keys;
    assert |c1.wokenS.Keys| >= |c.wokenS.Keys| - 1;
    PushServes(c1, t, Pending(c, t), wake);
  }

  lemma PopServes(c: Channel, wake: Option<Thread>)
    requires Bounded(c) && Served(c) && c.queue != [] && Picks(wake, c.blockedS.Keys) && c.blockedS.Keys !! c.wokenS.Keys
    ensures Served(Pop(c, wake))
  {
    if wake.Some? {
      var d := Pop(c, wake);
      assert d.wokenS.Keys == c.wokenS.Keys + {wake.value} && d.blockedS.Keys == c.blockedS.Keys - {wake.value};
    }
  }

  /** Some notified senders, looking again and nothing else happening, would leave a sender behind. */
  ghost predicate CanStrand(c: Channel) {
    exists more :: AllResend(more) && IsRun(c, more) && AllNotified(c, more) && SenderStranded(Run(c, more))
  }

  /** Every sender that looks again was notified. */
  predicate AllNotified(c: Channel, steps: seq<Step>)
    requires IsRun(c, steps)
    decreases steps
  {
    steps == [] || (steps[0].Resend? && steps[0].t in c.wokenS && AllNotified(Next(c, steps[0]), steps[1..]))
  }

  predicate AllResend(steps: seq<Step>) { forall k :: 0 <= k < |steps| ==> steps[k].Resend? }

  lemma {:induction false} ServedStays(c: Channel, steps: seq<Step>)
    requires Inv(c) && Served(c) && IsRun(c, steps) && NeverStarves(c, steps)
    ensures Inv(Run(c, steps)) && Served(Run(c, steps)) && !SenderStranded(Run(c, steps))
    decreases steps
  {
    if steps == [] {
    } else {
      StepKeepsInv(c, steps[0]);
      StepServesIff(c, steps[0]);
      ServedStays(Next(c, steps[0]), steps[1..]);
    }
  }

  ghost predicate NeverStarves(c: Channel, steps: seq<Step>)
    requires IsRun(c, steps)
    decreases steps
  {
    steps == [] || (!Starves(c, steps[0]) && NeverStarves(Next(c, steps[0]), steps[1..]))
  }

  lemma {:induction false} WithoutAwaitsNeverStarve(c: Channel, steps: seq<Step>)
    requires IsRun(c, steps) && forall k :: 0 <= k < |steps| ==> !steps[k].Recv?
    ensures NeverStarves(c, steps)
    decreases steps
  {
    hide Next, Enabled;
    if steps == [] {
    } else {
      assert !steps[0].Recv?;
      assert forall k :: 0 <= k < |steps[1..]| ==> steps[1..][k] == steps[k + 1];
      WithoutAwaitsNeverStarve(Next(c, steps[0]), steps[1..]);
    }
  }

  lemma Cons(c: Channel, s: Step, rest: seq<Step>)
    requires Enabled(c, s) && IsRun(Next(c, s), rest)
    ensures IsRun(c, [s] + rest) && Run(c, [s] + rest) == Run(Next(c, s), rest)
    ensures s.Resend? && s.t in c.wokenS && AllNotified(Next(c, s), rest) ==> AllNotified(c, [s] + rest)
  {
    assert ([s] + rest)[1..] == rest;
  }

  /** With too few notified senders, letting them look again leaves one behind. */
  lemma {:induction false} UnservedStrands(c: Channel) returns (steps: seq<Step>)
    requires Inv(c) && !Served(c)
    ensures AllResend(steps) && IsRun(c, steps) && AllNotified(c, steps) && SenderStranded(Run(c, steps))
    decreases |c.wokenS.Keys|
  {
    hide Inv, Served, Next, Enabled, SenderStranded;
    if c.wokenS.Keys == {} {
      UnservedAlone(c);
      steps := [];
    } else {
      var t :| t in c.wokenS.Keys;
      var wake: Option<Thread> := None;
      if c.blockedR != {} {
        var r :| r in c.blockedR;
        wake := Some(r);
      }
      var s := Resend(t, wake);
      WokenGoesOn(c, t, wake);
      StepKeepsInv(c, s);
      steps := UnservedStrands(Next(c, s));
      Cons(c, s, steps);
      steps := [s] + steps;
    }
  }

  lemma UnservedAlone(c: Channel)
    requires Inv(c) && !Served(c) && c.wokenS.Keys == {}
    ensures SenderStranded(c)
  {
  }

  lemma WokenGoesOn(c: Channel, t: Thread, wake: Option<Thread>)
    requires Inv(c) && !Served(c) && t in c.wokenS.Keys && Picks(wake, c.blockedR)
    ensures Enabled(c, Resend(t, wake)) && !Served(Next(c, Resend(t, wake)))
    ensures |Next(c, Resend(t, wake)).wokenS.Keys| == |c.wokenS.Keys| - 1
  {
    var c1 := c.(blockedS := c.blockedS - {t}, wokenS := c.wokenS - {t});
    assert c1.wokenS.Keys == c.wokenS.Keys - {t} && c1.blockedS.Keys == c.blockedS.Keys;
  }

  /** In a state that keeps the invariant, a sender can be left behind exactly when it is not served. */
  lemma CanStrandIff(c: Channel)
    requires Inv(c)
    ensures CanStrand(c) <==> !Served(c)
  {
    hide Inv, Served, Next, Enabled, SenderStranded;
    if Served(c) {
      forall more | AllResend(more) && IsRun(c, more) ensures !SenderStranded(Run(c, more)) {
        WithoutAwaitsNeverStarve(c, more);
        ServedStays(c, more);
      }
    } else {
      var more := UnservedStrands(c);
    }
  }

  lemma {:induction false} RunPrefix(c: Channel, steps: seq<Step>, n: nat)
    requires IsRun(c, steps) && n <= |steps|
    ensures IsRun(c, steps[..n])
    decreases steps
  {
    hide Next, Enabled;
    if n == 0 {
    } else {
      RunPrefix(Next(c, steps[0]), steps[1..], n - 1);
      assert steps[..n][0] == steps[0] && steps[..n][1..] == steps[1..][..n - 1];
    }
  }

  /** Along a run of a channel no sender can be left behind at any point exactly when no step of it parks a
      coroutine while a sender waits without a notification to spare. */
  lemma {:induction false} StrandingIff(c: Channel, steps: seq<Step>)
    requires Inv(c) && Served(c) && IsRun(c, steps)
    ensures forall n :: 0 <= n <= |steps| ==> IsRun(c, steps[..n])
    ensures NeverStarves(c, steps) <==> forall n :: 0 <= n <= |steps| ==> !CanStrand(Run(c, steps[..n]))
    decreases steps
  {
    hide Inv, Served, Starves, CanStrand, Next, Enabled;
    assert steps[..0] == [];
    CanStrandIff(c);
    forall n | 0 <= n <= |steps| ensures IsRun(c, steps[..n]) { RunPrefix(c, steps, n); }
    if steps == [] {
    } else {
      var d, rest := Next(c, steps[0]), steps[1..];
      StepKeepsInv(c, steps[0]);
      StepServesIff(c, steps[0]);
      CanStrandIff(d);
      assert forall n :: 1 <= n <= |steps| ==> steps[..n][0] == steps[0] && steps[..n][1..] == rest[..n - 1];
      assert steps[..1][1..] == [];
      forall n | 0 <= n <= |rest| ensures IsRun(d, rest[..n]) && Run(d, rest[..n]) == Run(c, steps[..n + 1]) {
        RunPrefix(d, rest, n);
      }
      if Served(d) {
        StrandingIff(d, rest);
        assert forall n :: 1 <= n <= |steps| ==> Run(c, steps[..n]) == Run(d, rest[..n - 1]);
      }
    }
  }

  /** From a new channel: no starving step, no sender left behind. */
  lemma NoSenderStranded(capacity: nat, steps: seq<Step>)
    requires IsRun(Start(capacity), steps) && NeverStarves(Start(capacity), steps)
    ensures !SenderStranded(Run(Start(capacity), steps))
  {
    StartInv(capacity);
    ServedStays(Start(capacity), steps);
  }

  predicate Awaits(steps: seq<Step>) { exists k :: 0 <= k < |steps| && steps[k].Recv? }

  // ---------- with awaiting receivers, whatever the capacity, one can be

  function Range(a: nat, b: nat): (r: set<Thread>)
    ensures forall i :: i in r <==> a <= i < b
    decreases b
  {
    if a >= b then {} else Range(a, b - 1) + {b - 1}
  }

  /** The state on the way to a stranded sender. */
  ghost predicate OnTheWay(c: Channel, queued: nat, parked: nat, woken: set<Thread>, blocked: set<Thread>) {
    && |c.queue| == queued && |c.parked| == parked && c.wokenS.Keys == woken && c.blockedS.Keys == blocked
    && !c.closed && c.senders > 0 && c.receivers > 0 && c.blockedR == {} && c.wokenR == {}
  }

  /** The notified senders hand their values to the parked receivers; nobody notifies the last sender. */
  lemma {:induction false} HandOver(c: Channel, j: nat) returns (steps: seq<Step>)
    requires j <= c.capacity && OnTheWay(c, 0, c.capacity + 1 - j, Range(j + 1, c.capacity + 1), {c.capacity + 1})
    ensures IsRun(c, steps) && SenderStranded(Run(c, steps))
    decreases c.capacity - j
  {
    if j == c.capacity {
      steps := [];
    } else {
      var s := Resend(j + 1, None);
      var n := Next(c, s);
      assert n.wokenS.Keys == Range(j + 2, c.capacity + 1) && n.blockedS.Keys == {c.capacity + 1};
      steps := HandOver(n, j + 1);
      Cons(c, s, steps);
      steps := [s] + steps;
    }
  }

  lemma {:induction false} Park(c: Channel, j: nat) returns (steps: seq<Step>)
    requires j <= c.capacity + 1 && OnTheWay(c, 0, j, Range(1, c.capacity + 1), {c.capacity + 1})
    ensures IsRun(c, steps) && SenderStranded(Run(c, steps))
    decreases c.capacity + 1 - j
  {
    if j == c.capacity + 1 {
      steps := HandOver(c, 0);
    } else {
      var s := Recv(0, Some(c.capacity + 1));
      steps := Park(Next(c, s), j + 1);
      Cons(c, s, steps);
      steps := [s] + steps;
    }
  }

  lemma {:induction false} Drain(c: Channel, j: nat) returns (steps: seq<Step>)
    requires j <= c.capacity && OnTheWay(c, c.capacity - j, 0, Range(1, j + 1), Range(j + 1, c.capacity + 2))
    ensures IsRun(c, steps) && SenderStranded(Run(c, steps))
    decreases c.capacity - j
  {
    if j == c.capacity {
      assert Range(j + 1, c.capacity + 2) == {c.capacity + 1};
      steps := Park(c, 0);
    } else {
      var s := Recv(0, Some(j + 1));
      assert j + 1 in c.blockedS.Keys;
      var n := Next(c, s);
      assert n.wokenS.Keys == Range(1, j + 2) && n.blockedS.Keys == Range(j + 2, c.capacity + 2);
      steps := Drain(n, j + 1);
      Cons(c, s, steps);
      steps := [s] + steps;
    }
  }

  lemma {:induction false} Block(c: Channel, j: nat) returns (steps: seq<Step>)
    requires j <= c.capacity + 1 && OnTheWay(c, c.capacity, 0, {}, Range(1, j + 1))
    ensures IsRun(c, steps) && SenderStranded(Run(c, steps))
    decreases c.capacity + 1 - j
  {
    if j == c.capacity + 1 {
      assert Range(1, 1) == {};
      steps := Drain(c, 0);
    } else {
      var s := Send(j + 1, 0, None);
      var n := Next(c, s);
      assert n.blockedS.Keys == Range(1, j + 2);
      steps := Block(n, j + 1);
      Cons(c, s, steps);
      steps := [s] + steps;
    }
  }

  lemma {:induction false} FillUp(c: Channel, j: nat) returns (steps: seq<Step>)
    requires j <= c.capacity && OnTheWay(c, j, 0, {}, {})
    ensures IsRun(c, steps) && SenderStranded(Run(c, steps))
    decreases c.capacity - j
  {
    if j == c.capacity {
      assert Range(1, 1) == {};
      steps := Block(c, 0);
    } else {
      var s := Send(0, 0, None);
      steps := FillUp(Next(c, s), j + 1);
      Cons(c, s, steps);
      steps := [s] + steps;
    }
  }

  /** With awaiting receivers there is, for every capacity, a run after which a sender waits although it could go
      on, with no notification under way: one was spent on a hand-over that leaves the free slot free. */
  lemma SenderCanBeStranded(capacity: nat) returns (steps: seq<Step>)
    ensures IsRun(Start(capacity), steps) && SenderStranded(Run(Start(capacity), steps)) && Awaits(steps)
  {
    steps := FillUp(Start(capacity), 0);
    if !Awaits(steps) {
      WithoutAwaitsNeverStarve(Start(capacity), steps);
      NoSenderStranded(capacity, steps);
    }
  }
}
