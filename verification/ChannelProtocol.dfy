/**
 The channel protocol as a step system: a bounded buffer, a queue of blocked
 receivers and a queue of blocked senders with the values they hold.
 */
module ChannelProtocol {
  import opened Basics
  import opened TaskQueues

  datatype Waiting<V> = Waiting(task: Ref, value: V)

  /** What every channel operation sees and changes. */
  datatype Chan<V> = Chan(cap: nat, buf: seq<V>, closed: bool, receivers: List<Ref>, senders: List<Waiting<V>>)

  /** The values the blocked senders hold, first in line first. */
  ghost function Held<V>(ws: List<Waiting<V>>): seq<V> {
    if ws.End? then [] else [ws.head.value] + Held(ws.tail)
  }

  lemma {:induction false} HeldSnoc<V>(ws: List<Waiting<V>>, w: Waiting<V>)
    ensures Held(Snoc(ws, w)) == Held(ws) + [w.value]
  {
    if ws.Cons? {
      HeldSnoc(ws.tail, w);
    }
  }

  /** tya_channel_wake_one_sender: move blocked senders' values into free places. */
  ghost function WakeSenders<V>(c: Chan<V>): Chan<V>
    decreases c.senders
  {
    if c.senders.Cons? && |c.buf| < c.cap && !c.closed then
      WakeSenders(c.(buf := c.buf + [c.senders.head.value], senders := c.senders.tail))
    else c
  }

  // ----- steps -----

  datatype Step<V> =
    | Send(sender: Ref, value: V)   // channel.send by a task
    | Receive(receiver: Ref)        // channel.receive by a task
    | SelectSend(offered: V)        // one polling round of channel.select
    | SelectReceive
    | Close
    | TimeoutReceive                // channel.receive_timeout that finds a value
    | ResumedSend(resumed: V)       // channel.send by the main thread after it had to wait

  ghost function HandOff<V>(c: Chan<V>): Chan<V>
    requires c.receivers.Cons?
  {
    c.(receivers := c.receivers.tail)
  }

  ghost predicate CanHandOff<V>(c: Chan<V>) {
    c.receivers.Cons? && c.buf == [] && !c.closed
  }

  ghost function Next<V>(c: Chan<V>, s: Step<V>): Chan<V> {
    match s
    case Send(t, v) =>
      if CanHandOff(c) then HandOff(c)
      else if |c.buf| == c.cap && !c.closed then c.(senders := Snoc(c.senders, Waiting(t, v)))
      else if c.closed then c
      else c.(buf := c.buf + [v])
    case Receive(t) =>
      if c.buf == [] && !c.closed then c.(receivers := Snoc(c.receivers, t))
      else if c.buf == [] then c
      else WakeSenders(c.(buf := c.buf[1..]))
    case SelectSend(v) =>
      if c.closed then c
      else if CanHandOff(c) then HandOff(c)
      else if |c.buf| < c.cap then c.(buf := c.buf + [v])
      else c
    case SelectReceive =>
      if c.buf != [] then WakeSenders(c.(buf := c.buf[1..])) else c
    case Close => c.(closed := true, receivers := End, senders := End)
    case TimeoutReceive => if c.buf != [] then c.(buf := c.buf[1..]) else c
    case ResumedSend(v) => if |c.buf| < c.cap && !c.closed then c.(buf := c.buf + [v]) else c
  }

  /** The values a step brings to the channel: those it takes over from the caller. */
  ghost function Arrives<V>(c: Chan<V>, s: Step<V>): seq<V> {
    match s
    case Send(t, v) => if c.closed then [] else [v]
    case SelectSend(v) => if !c.closed && (CanHandOff(c) || |c.buf| < c.cap) then [v] else []
    case ResumedSend(v) => if !c.closed && |c.buf| < c.cap then [v] else []
    case _ => []
  }

  /** The values a step hands to receivers. */
  ghost function Delivers<V>(c: Chan<V>, s: Step<V>): seq<V> {
    match s
    case Send(t, v) => if CanHandOff(c) then [v] else []
    case SelectSend(v) => if CanHandOff(c) then [v] else []
    case Receive(t) => if c.buf != [] then [c.buf[0]] else []
    case SelectReceive => if c.buf != [] then [c.buf[0]] else []
    case TimeoutReceive => if c.buf != [] then [c.buf[0]] else []
    case _ => []
  }

  /** The values of the senders a step makes fail. */
  ghost function Drops<V>(c: Chan<V>, s: Step<V>): seq<V> {
    if s.Close? then Held(c.senders) else []
  }

  /** Blocked receivers mean an empty buffer, blocked senders a full one; a closed channel has neither. */
  ghost predicate Inv<V>(c: Chan<V>) {
    0 < c.cap && |c.buf| <= c.cap &&
    (c.receivers.Cons? ==> c.buf == [] && !c.closed) &&
    (c.senders.Cons? ==> |c.buf| == c.cap && !c.closed)
  }

  /** A channel with the values that arrived, were delivered and were dropped so far. */
  datatype History<V> = History(chan: Chan<V>, sent: seq<V>, delivered: seq<V>, dropped: seq<V>)

  ghost function Advance<V>(h: History<V>, s: Step<V>): History<V> {
    History(Next(h.chan, s), h.sent + Arrives(h.chan, s),
            h.delivered + Delivers(h.chan, s), h.dropped + Drops(h.chan, s))
  }

  ghost function Start<V>(cap: nat): History<V> {
    History(Chan(cap, [], false, End, End), [], [], [])
  }

  ghost function Run<V>(cap: nat, steps: seq<Step<V>>): History<V> {
    if steps == [] then Start(cap) else Advance(Run(cap, steps[..|steps|-1]), steps[|steps|-1])
  }

  /** First in, first out, and nothing lost: what arrived is what was delivered, then what is
      buffered, then what blocked senders hold, then what a close dropped. */
  ghost predicate Fifo<V>(h: History<V>) {
    h.sent == h.delivered + h.chan.buf + Held(h.chan.senders) + h.dropped &&
    (h.dropped != [] ==> h.chan.closed)
  }

  /** Every step a task issues is in order; the other two are when nobody is passed over. */
  ghost predicate InOrder<V>(c: Chan<V>, s: Step<V>) {
    (s.TimeoutReceive? ==> c.buf == [] || c.senders.End?) &&
    (s.ResumedSend? ==> c.closed || |c.buf| >= c.cap || c.receivers.End?)
  }

  ghost predicate RunInOrder<V>(cap: nat, steps: seq<Step<V>>) {
    steps == [] ||
    (RunInOrder(cap, steps[..|steps|-1]) && InOrder(Run(cap, steps[..|steps|-1]).chan, steps[|steps|-1]))
  }

  // ----- exactly when the order is kept -----

  /** What every step keeps, in order or not. */
  ghost predicate Sized<V>(c: Chan<V>) {
    |c.buf| <= c.cap && (c.closed ==> c.senders.End?)
  }

  /** The value a step lets into the buffer or hands to a receiver, rather than having its sender queue up. */
  ghost function Placed<V>(c: Chan<V>, s: Step<V>): seq<V> {
    match s
    case Send(t, v) => if !c.closed && (CanHandOff(c) || |c.buf| < c.cap) then [v] else []
    case SelectSend(v) => if !c.closed && (CanHandOff(c) || |c.buf| < c.cap) then [v] else []
    case ResumedSend(v) => if !c.closed && |c.buf| < c.cap then [v] else []
    case _ => []
  }

  /** No value is let in past a blocked sender that holds a different one. */
  ghost predicate NobodyPassed<V>(c: Chan<V>, s: Step<V>) {
    forall v :: v in Placed(c, s) ==> AllAre(Held(c.senders), v)
  }

  ghost predicate AllAre<V>(s: seq<V>, v: V) {
    forall i :: 0 <= i < |s| ==> s[i] == v
  }

  lemma {:induction false} WakeMoves<V>(c: Chan<V>)
    requires Sized(c)
    ensures var d := WakeSenders(c);
            Sized(d) && d.buf + Held(d.senders) == c.buf + Held(c.senders) && d.closed == c.closed && d.cap == c.cap
    decreases c.senders
  {
    if c.senders.Cons? && |c.buf| < c.cap && !c.closed {
      var e := c.(buf := c.buf + [c.senders.head.value], senders := c.senders.tail);
      WakeMoves(e);
      assert e.buf + Held(e.senders) == c.buf + Held(c.senders);
    }
  }

  lemma StepSized<V>(c: Chan<V>, s: Step<V>)
    requires Sized(c)
    ensures Sized(Next(c, s)) && Next(c, s).cap == c.cap
  {
    if (s.Receive? || s.SelectReceive?) && c.buf != [] {
      WakeMoves(c.(buf := c.buf[1..]));
    }
  }

  lemma {:induction false} CommutesAt<V>(s: seq<V>, v: V, i: nat)
    requires s + [v] == [v] + s && i < |s|
    ensures s[i] == v
  {
    assert s[i] == (s + [v])[i] == ([v] + s)[i];
    if i > 0 {
      CommutesAt(s, v, i - 1);
    }
  }

  /** A value commutes with a sequence exactly when the sequence holds nothing else. */
  lemma Commutes<V>(s: seq<V>, v: V)
    ensures s + [v] == [v] + s <==> AllAre(s, v)
  {
    if s + [v] == [v] + s {
      forall i | 0 <= i < |s| ensures s[i] == v {
        CommutesAt(s, v, i);
      }
    }
  }

  /** Letting a value in behind `done` keeps the order exactly when nobody in `held` is passed. */
  lemma PlacedExact<V>(done: seq<V>, held: seq<V>, v: V)
    ensures done + held + [v] == done + [v] + held <==> AllAre(held, v)
  {
    var l, r := done + held + [v], done + [v] + held;
    Commutes(held, v);
    assert l[|done|..] == held + [v] && r[|done|..] == [v] + held;
    assert l == done + l[|done|..] && r == done + r[|done|..];
  }

  /** A step on a channel in first-in, first-out order leaves that order exactly when it passes no blocked sender. */
  lemma FifoExact<V>(h: History<V>, s: Step<V>)
    requires Sized(h.chan) && Fifo(h)
    ensures Fifo(Advance(h, s)) <==> NobodyPassed(h.chan, s)
  {
    var p := Placed(h.chan, s);
    if p != [] {
      assert p == [p[0]];
      FifoPlaced(h, s, p[0]);
    } else {
      FifoOther(h, s);
    }
  }

  lemma PlacedNext<V>(h: History<V>, s: Step<V>, v: V)
    requires Sized(h.chan) && Placed(h.chan, s) == [v]
    ensures var d := Advance(h, s);
            d.sent == h.sent + [v] && d.delivered + d.chan.buf == h.delivered + h.chan.buf + [v] &&
            d.chan.senders == h.chan.senders && d.dropped == h.dropped && !h.chan.closed && !d.chan.closed
  {
  }

  lemma FifoPlaced<V>(h: History<V>, s: Step<V>, v: V)
    requires Sized(h.chan) && Fifo(h) && Placed(h.chan, s) == [v]
    ensures Fifo(Advance(h, s)) <==> AllAre(Held(h.chan.senders), v)
  {
    PlacedNext(h, s, v);
    var done, held := h.delivered + h.chan.buf, Held(h.chan.senders);
    PlacedExact(done, held, v);
    assert h.dropped == [] && h.sent == done + held;
    assert Advance(h, s).sent == done + held + [v];
  }

  lemma FifoOther<V>(h: History<V>, s: Step<V>)
    requires Sized(h.chan) && Fifo(h) && Placed(h.chan, s) == []
    ensures Fifo(Advance(h, s))
  {
    if (s.Receive? || s.SelectReceive? || s.TimeoutReceive?) && h.chan.buf != [] {
      FifoPop(h, s);
    } else if s.Send? {
      FifoQueued(h, s.sender, s.value);
    } else if s.Close? {
      FifoClose(h);
    } else {
      FifoIdle(h, s);
    }
  }

  /** A send that blocks, or fails on a closed channel. */
  lemma FifoQueued<V>(h: History<V>, t: Ref, v: V)
    requires Sized(h.chan) && Fifo(h) && Placed(h.chan, Send(t, v)) == []
    ensures Fifo(Advance(h, Send(t, v)))
  {
    HeldSnoc(h.chan.senders, Waiting(t, v));
  }

  lemma FifoClose<V>(h: History<V>)
    requires Sized(h.chan) && Fifo(h)
    ensures Fifo(Advance(h, Close))
  {
    CloseAccounts(h);
  }

  lemma FifoIdle<V>(h: History<V>, s: Step<V>)
    requires Fifo(h) && Placed(h.chan, s) == [] && !s.Send? && !s.Close?
    requires s.Receive? || s.SelectReceive? || s.TimeoutReceive? ==> h.chan.buf == []
    ensures Fifo(Advance(h, s))
  {
    var d := Advance(h, s);
    assert d.sent == h.sent && d.delivered == h.delivered && d.dropped == h.dropped;
  }

  lemma PopNext<V>(c: Chan<V>, s: Step<V>)
    requires Sized(c) && c.buf != [] && (s.Receive? || s.SelectReceive? || s.TimeoutReceive?)
    ensures var d := Next(c, s);
            c.buf + Held(c.senders) == [c.buf[0]] + d.buf + Held(d.senders) && d.closed == c.closed
  {
    WakeMoves(c.(buf := c.buf[1..]));
    assert c.buf == [c.buf[0]] + c.buf[1..];
    assert c.buf + Held(c.senders) == [c.buf[0]] + (c.buf[1..] + Held(c.senders));
    var d := Next(c, s);
    assert [c.buf[0]] + d.buf + Held(d.senders) == [c.buf[0]] + (d.buf + Held(d.senders));
  }

  lemma FifoPop<V>(h: History<V>, s: Step<V>)
    requires Sized(h.chan) && Fifo(h) && h.chan.buf != []
    requires s.Receive? || s.SelectReceive? || s.TimeoutReceive?
    ensures Fifo(Advance(h, s))
  {
    PopNext(h.chan, s);
    var d := Next(h.chan, s);
    Regroup(h.delivered, h.chan.buf, Held(h.chan.senders), h.chan.buf[0], d.buf, Held(d.senders));
  }

  /** A channel in order stays so: after a pop at most one sender moves up. */
  lemma InvKept<V>(c: Chan<V>, s: Step<V>)
    requires Inv(c) && InOrder(c, s)
    ensures Inv(Next(c, s)) && NobodyPassed(c, s)
  {
    if (s.Receive? || s.SelectReceive?) && c.buf != [] && c.senders.Cons? {
      var d := c.(buf := c.buf[1..]);
      var e := d.(buf := d.buf + [c.senders.head.value], senders := c.senders.tail);
      assert WakeSenders(d) == WakeSenders(e) == e;
    }
  }

  lemma Regroup<V>(a: seq<V>, b: seq<V>, c: seq<V>, x: V, d: seq<V>, e: seq<V>)
    requires b + c == [x] + d + e
    ensures a + b + c == (a + [x]) + d + e
  {
    assert a + b + c == a + (b + c);
    assert (a + [x]) + d + e == a + ([x] + d + e);
  }

  /** Every step in order keeps the channel in order and loses nothing. */
  lemma StepKeeps<V>(h: History<V>, s: Step<V>)
    requires Inv(h.chan) && Fifo(h) && InOrder(h.chan, s)
    ensures Inv(Next(h.chan, s)) && Fifo(Advance(h, s)) && Next(h.chan, s).cap == h.chan.cap
  {
    InvKept(h.chan, s);
    FifoExact(h, s);
    StepSized(h.chan, s);
  }

  /** A step leaves the channel in order exactly when it is in order itself: receive_timeout
      wakes no sender, and a main-thread send that had to wait does not look for a receiver again. */
  lemma StepExact<V>(c: Chan<V>, s: Step<V>)
    requires Inv(c)
    ensures Inv(Next(c, s)) <==> InOrder(c, s)
  {
    if InOrder(c, s) {
      InvKept(c, s);
    }
  }

  /** In order after every step of a run. */
  ghost predicate AlwaysFifo<V>(cap: nat, steps: seq<Step<V>>) {
    Fifo(Run(cap, steps)) && (steps != [] ==> AlwaysFifo(cap, steps[..|steps|-1]))
  }

  ghost predicate NobodyEverPassed<V>(cap: nat, steps: seq<Step<V>>) {
    steps == [] ||
    (NobodyEverPassed(cap, steps[..|steps|-1]) && NobodyPassed(Run(cap, steps[..|steps|-1]).chan, steps[|steps|-1]))
  }

  lemma {:induction false} RunSized<V>(cap: nat, steps: seq<Step<V>>)
    ensures Sized(Run(cap, steps).chan) && Run(cap, steps).chan.cap == cap
    decreases |steps|
  {
    if steps != [] {
      RunSized(cap, steps[..|steps|-1]);
      StepSized(Run(cap, steps[..|steps|-1]).chan, steps[|steps|-1]);
    }
  }

  /** Any run, whoever issues its steps, is first in, first out throughout exactly when no step passes a blocked
      sender. */
  lemma {:induction false} FifoRunExact<V>(cap: nat, steps: seq<Step<V>>)
    ensures AlwaysFifo(cap, steps) <==> NobodyEverPassed(cap, steps)
    decreases |steps|
  {
    if steps != [] {
      var before := steps[..|steps|-1];
      FifoRunExact(cap, before);
      RunSized(cap, before);
      if AlwaysFifo(cap, before) {
        FifoExact(Run(cap, before), steps[|steps|-1]);
      }
    }
  }

  /** Every run in order keeps the channel in order and loses nothing. */
  lemma {:induction false} RunKeeps<V>(cap: nat, steps: seq<Step<V>>)
    requires 0 < cap && RunInOrder(cap, steps)
    ensures Inv(Run(cap, steps).chan) && Fifo(Run(cap, steps))
    decreases |steps|
  {
    if steps != [] {
      RunKeeps(cap, steps[..|steps|-1]);
      StepKeeps(Run(cap, steps[..|steps|-1]), steps[|steps|-1]);
    }
  }

  /** Steps issued by tasks are always in order; so, while the channel is open,
      sent == delivered ++ buffered ++ held by blocked senders. */
  lemma {:induction false} TaskRun<V>(cap: nat, steps: seq<Step<V>>)
    requires 0 < cap && forall s :: s in steps ==> !s.TimeoutReceive? && !s.ResumedSend?
    ensures RunInOrder(cap, steps)
    ensures var h := Run(cap, steps);
            Inv(h.chan) && (!h.chan.closed ==> h.sent == h.delivered + h.chan.buf + Held(h.chan.senders))
    decreases |steps|
  {
    if steps != [] {
      assert forall s :: s in steps[..|steps|-1] ==> s in steps;
      TaskRun(cap, steps[..|steps|-1]);
    }
    RunKeeps(cap, steps);
  }

  /** After a close everything that arrived is delivered, buffered, or dropped with a failed sender. */
  lemma CloseAccounts<V>(h: History<V>)
    requires Sized(h.chan) && Fifo(h)
    ensures var d := Advance(h, Close);
            d.sent == d.delivered + d.chan.buf + d.dropped && d.chan.receivers.End? && d.chan.senders.End?
  {
    if h.chan.closed {
      assert Held(h.chan.senders) == [];
    }
  }

  /** A closed channel then delivers what it had buffered, in order, before it answers nil. */
  lemma {:induction false} ClosedDrains<V>(h: History<V>, receivers: seq<Ref>)
    requires Inv(h.chan) && Fifo(h) && h.chan.closed && |receivers| == |h.chan.buf|
    ensures var d := Drain(h, receivers);
            d.chan.buf == [] && d.delivered == h.delivered + h.chan.buf && d.sent == d.delivered + d.dropped
    decreases |receivers|
  {
    if receivers != [] {
      var g := Advance(h, Receive(receivers[0]));
      StepKeeps(h, Receive(receivers[0]));
      ClosedDrains(g, receivers[1..]);
      assert h.chan.buf == [h.chan.buf[0]] + h.chan.buf[1..];
    }
  }

  ghost function Drain<V>(h: History<V>, receivers: seq<Ref>): History<V>
    decreases |receivers|
  {
    if receivers == [] then h else Drain(Advance(h, Receive(receivers[0])), receivers[1..])
  }

  /** With a blocked sender left behind, a later value overtakes it: on a channel of capacity 1
      the values 1, 2, 3 arrive in this order, and 1 and 3 are delivered before 2. */
  lemma TimeoutReceiveOvertakes()
    ensures var h2 := Advance(Advance(Start<int>(1), Send(Task(1), 1)), Send(Task(2), 2));
            var h4 := Advance(Advance(h2, TimeoutReceive), Send(Task(3), 3));
            var h5 := Advance(h4, Receive(Task(4)));
            h5.sent == [1, 2, 3] && h5.delivered == [1, 3]
  {
    OvertakenWaits();
    OvertakingEnds(Advance(Advance(Advance(Start<int>(1), Send(Task(1), 1)), Send(Task(2), 2)), TimeoutReceive));
  }

  lemma OvertakingEnds(h3: History<int>)
    requires h3 == History(Chan(1, [], false, End, Cons(Waiting(Task(2), 2), End)), [1, 2], [1], [])
    ensures var h5 := Advance(Advance(h3, Send(Task(3), 3)), Receive(Task(4)));
            h5.sent == [1, 2, 3] && h5.delivered == [1, 3]
  {
    var h4 := Advance(h3, Send(Task(3), 3));
    assert h4.sent == [1, 2, 3] && h4.delivered == [1] && h4.chan.buf == [3];
  }

  /** After the timed receive the second sender still waits, in front of an empty buffer. */
  lemma OvertakenWaits()
    ensures var h2 := Advance(Advance(Start<int>(1), Send(Task(1), 1)), Send(Task(2), 2));
            Advance(h2, TimeoutReceive) ==
            History(Chan(1, [], false, End, Cons(Waiting(Task(2), 2), End)), [1, 2], [1], [])
  {
    var h1 := Advance(Start<int>(1), Send(Task(1), 1));
    assert h1 == History(Chan(1, [1], false, End, End), [1], [], []);
    var h2 := Advance(h1, Send(Task(2), 2));
    assert h2 == History(Chan(1, [1], false, End, Cons(Waiting(Task(2), 2), End)), [1, 2], [], []);
  }

  /** A main-thread send that waited for a place passes a receiver over: the value 2 lies in the
      buffer while task 2 stays blocked. */
  lemma ResumedSendPassesReceiver()
    ensures var h2 := Advance(Advance(Start<int>(1), Send(Task(1), 1)), Receive(Task(1)));
            var c := Advance(Advance(h2, Receive(Task(2))), ResumedSend(2)).chan;
            c.buf == [2] && c.receivers == Cons(Task(2), End) && !Inv(c)
  {
    var h1 := Advance(Start<int>(1), Send(Task(1), 1));
    assert h1 == History(Chan(1, [1], false, End, End), [1], [], []);
    var h2 := Advance(h1, Receive(Task(1)));
    assert h2 == History(Chan(1, [], false, End, End), [1], [1], []);
    var h3 := Advance(h2, Receive(Task(2)));
    assert h3 == History(Chan(1, [], false, Cons(Task(2), End), End), [1], [1], []);
  }
}
