/** The proxy's connection bookkeeping and two-stage shutdown, as interleaved steps of the accept loop, any
    number of connection handlers, and Stop. */
module Shutdown {

  /** The accept loop: in Accept, holding a connection it has not counted, having counted it but not yet
      started its handler, or returned. */
  datatype Acceptor = Accepting | HasConn | Added | Exited

  /** A handler: started, counted in the total, counted as active, and no longer active. */
  datatype Handler = Spawned | Counted | Active | Inactive

  /** Stop: not called, context cancelled, listener closed and waiting for the accept loop, waiting for the
      connections, returned.  `joined` tells whether stage one ended because the accept loop had returned,
      `drained` whether stage two ended because the connection group was seen empty. */
  datatype Stopper = Running | Cancelled | Closed | Draining(joined: bool) | Returned(joined: bool, drained: bool)

  datatype Proxy = Proxy(
    cancelled: bool, listening: bool,
    acceptor: Acceptor, handlers: multiset<Handler>, stopper: Stopper,
    acceptWg: int, connWg: int, acceptSeenZero: bool, connSeenZero: bool,
    connectionsTotal: int, connectionsActive: int,
    accepted: nat, addsDuringWait: nat)

  datatype Step =
    | AcceptConn | AcceptError | AddConn | StartHandler              // accept loop
    | CountTotal | CountActive | Leave | Finish                      // a handler
    | Cancel | CloseListener | AcceptSeenZero | EndStageOne(done: bool)  // Stop
    | ConnSeenZero | EndStageTwo(done: bool)

  predicate InStageTwo(s: Stopper)
  {
    s.Draining? || s.Returned?
  }

  predicate Enabled(p: Proxy, s: Step)
  {
    match s
    case AcceptConn => p.acceptor == Accepting && p.listening
    case AcceptError => p.acceptor == Accepting
    case AddConn => p.acceptor == HasConn
    case StartHandler => p.acceptor == Added
    case CountTotal => Spawned in p.handlers
    case CountActive => Counted in p.handlers
    case Leave => Active in p.handlers
    case Finish => Inactive in p.handlers
    case Cancel => p.stopper == Running
    case CloseListener => p.stopper == Cancelled
    case AcceptSeenZero => p.stopper == Closed && p.acceptWg == 0
    case EndStageOne(done) => p.stopper == Closed && (done ==> p.acceptSeenZero)
    case ConnSeenZero => p.stopper.Draining? && p.connWg == 0
    case EndStageTwo(done) => p.stopper.Draining? && (done ==> p.connSeenZero)
  }

  function Moved(handlers: multiset<Handler>, from: Handler, to: Handler): multiset<Handler>
  {
    handlers - multiset{from} + multiset{to}
  }

  function Next(p: Proxy, s: Step): Proxy
    requires Enabled(p, s)
  {
    match s
    case AcceptConn => p.(acceptor := HasConn, accepted := p.accepted + 1)
    case AcceptError => if p.cancelled then p.(acceptor := Exited, acceptWg := p.acceptWg - 1) else p
    case AddConn =>
      p.(acceptor := Added, connWg := p.connWg + 1, addsDuringWait := p.addsDuringWait + if InStageTwo(p.stopper) then 1 else 0)
    case StartHandler => p.(acceptor := Accepting, handlers := p.handlers + multiset{Spawned})
    case CountTotal => p.(handlers := Moved(p.handlers, Spawned, Counted), connectionsTotal := p.connectionsTotal + 1)
    case CountActive => p.(handlers := Moved(p.handlers, Counted, Active), connectionsActive := p.connectionsActive + 1)
    case Leave => p.(handlers := Moved(p.handlers, Active, Inactive), connectionsActive := p.connectionsActive - 1)
    case Finish => p.(handlers := p.handlers - multiset{Inactive}, connWg := p.connWg - 1)
    case Cancel => p.(stopper := Cancelled, cancelled := true)
    case CloseListener => p.(stopper := Closed, listening := false)
    case AcceptSeenZero => p.(acceptSeenZero := true)
    case EndStageOne(done) => p.(stopper := Draining(done))
    case ConnSeenZero => p.(connSeenZero := true)
    case EndStageTwo(done) => p.(stopper := Returned(p.stopper.joined, done))
  }

  /** The proxy just after Start. */
  const STARTED: Proxy :=
    Proxy(false, true, Accepting, multiset{}, Running, 1, 0, false, false, 0, 0, 0, 0)

  ghost predicate Possible(p: Proxy, steps: seq<Step>)
    decreases |steps|
  {
    steps == [] || (Enabled(p, steps[0]) && Possible(Next(p, steps[0]), steps[1..]))
  }

  ghost function After(p: Proxy, steps: seq<Step>): Proxy
    requires Possible(p, steps)
    decreases |steps|
  {
    if steps == [] then p else After(Next(p, steps[0]), steps[1..])
  }

  // ---------- The invariant ----------

  ghost predicate CountsOk(p: Proxy)
  {
    && p.acceptWg == (if p.acceptor == Exited then 0 else 1)
    && p.connWg == |p.handlers| + (if p.acceptor == Added then 1 else 0)
    && p.connectionsActive == p.handlers[Active]
    && p.accepted == p.connectionsTotal + p.handlers[Spawned] + (if p.acceptor == HasConn || p.acceptor == Added then 1 else 0)
  }

  predicate Joined(s: Stopper)
  {
    InStageTwo(s) && s.joined
  }

  ghost predicate StagesOk(p: Proxy)
  {
    && (p.listening <==> p.stopper.Running? || p.stopper.Cancelled?)
    && (p.acceptSeenZero ==> p.acceptor == Exited)
    && (Joined(p.stopper) ==> p.acceptor == Exited && p.addsDuringWait == 0)
    && (!InStageTwo(p.stopper) ==> p.addsDuringWait == 0 && !p.connSeenZero)
    && (Joined(p.stopper) && p.connSeenZero ==> p.connWg == 0)
    && (p.stopper.Returned? && p.stopper.drained ==> p.connSeenZero)
  }

  ghost predicate Inv(p: Proxy)
  {
    CountsOk(p) && StagesOk(p)
  }

  lemma MovedCounts(handlers: multiset<Handler>, from: Handler, to: Handler)
    requires from in handlers && from != to
    ensures |Moved(handlers, from, to)| == |handlers|
    ensures forall h :: Moved(handlers, from, to)[h] ==
              handlers[h] - (if h == from then 1 else 0) + (if h == to then 1 else 0)
  {
  }

  lemma HandlerKeepsInv(p: Proxy, s: Step)
    requires Inv(p) && Enabled(p, s) && (s.CountTotal? || s.CountActive? || s.Leave? || s.Finish?)
    ensures Inv(Next(p, s))
  {
    match s
    case CountTotal => MovedCounts(p.handlers, Spawned, Counted);
    case CountActive => MovedCounts(p.handlers, Counted, Active);
    case Leave => MovedCounts(p.handlers, Active, Inactive);
    case Finish => assert |p.handlers - multiset{Inactive}| == |p.handlers| - 1;
  }

  lemma LoopKeepsInv(p: Proxy, s: Step)
    requires Inv(p) && Enabled(p, s) && (s.AcceptConn? || s.AcceptError? || s.AddConn? || s.StartHandler?)
    ensures Inv(Next(p, s))
  {
    assert |p.handlers + multiset{Spawned}| == |p.handlers| + 1;
  }

  lemma StopKeepsInv(p: Proxy, s: Step)
    requires Inv(p) && Enabled(p, s)
    requires s.Cancel? || s.CloseListener? || s.AcceptSeenZero? || s.EndStageOne? || s.ConnSeenZero? || s.EndStageTwo?
    ensures Inv(Next(p, s))
  {
  }

  lemma NextKeepsInv(p: Proxy, s: Step)
    requires Inv(p) && Enabled(p, s)
    ensures Inv(Next(p, s))
  {
    if s.CountTotal? || s.CountActive? || s.Leave? || s.Finish? { HandlerKeepsInv(p, s); }
    else if s.AcceptConn? || s.AcceptError? || s.AddConn? || s.StartHandler? { LoopKeepsInv(p, s); }
    else { StopKeepsInv(p, s); }
  }

  lemma {:induction false} RunKeepsInv(p: Proxy, steps: seq<Step>)
    requires Inv(p) && Possible(p, steps)
    ensures Inv(After(p, steps))
    decreases |steps|
  {
    if steps != [] {
      NextKeepsInv(p, steps[0]);
      RunKeepsInv(Next(p, steps[0]), steps[1..]);
    }
  }

  /** Over every interleaving: if stage one ended because the accept loop had returned, no connection is
      added to the group once it is being waited for; if moreover stage two ended because the group was
      seen empty, no connection is active and the total is the number of accepted connections. */
  lemma TwoStageShutdown(steps: seq<Step>)
    requires Possible(STARTED, steps)
    ensures var p := After(STARTED, steps);
            Joined(p.stopper) ==> p.addsDuringWait == 0 && p.acceptor == Exited
    ensures var p := After(STARTED, steps);
            p.stopper == Returned(true, true) ==>
              p.connectionsActive == 0 && p.connectionsTotal == p.accepted && p.handlers == multiset{} && p.connWg == 0
    ensures var p := After(STARTED, steps);
            0 <= p.connectionsActive <= p.connWg && p.connectionsTotal <= p.accepted <= p.connectionsTotal + p.connWg + 1
  {
    RunKeepsInv(STARTED, steps);
  }

  // ---------- The order of the steps ----------

  /** The context is cancelled before the listener is closed and before the accept loop gives up, and every
      connection is counted in the total before it counts as active. */
  ghost predicate OrderOk(p: Proxy)
  {
    && (p.stopper != Running <==> p.cancelled)
    && (p.listening <==> p.stopper == Running || p.stopper == Cancelled)
    && (p.acceptor == Exited ==> p.cancelled)
    && p.connectionsTotal >= p.handlers[Counted] + p.handlers[Active] + p.handlers[Inactive]
    && p.connectionsActive == p.handlers[Active]
  }

  lemma HandlerKeepsOrder(p: Proxy, s: Step)
    requires OrderOk(p) && Enabled(p, s) && (s.CountTotal? || s.CountActive? || s.Leave?)
    ensures OrderOk(Next(p, s))
  {
    if s.CountTotal? { MovedCounts(p.handlers, Spawned, Counted); }
    if s.CountActive? { MovedCounts(p.handlers, Counted, Active); }
    if s.Leave? { MovedCounts(p.handlers, Active, Inactive); }
  }

  lemma OtherKeepsOrder(p: Proxy, s: Step)
    requires OrderOk(p) && Enabled(p, s) && !s.CountTotal? && !s.CountActive? && !s.Leave?
    ensures OrderOk(Next(p, s))
  {
  }

  lemma StepKeepsOrder(p: Proxy, s: Step)
    requires OrderOk(p) && Enabled(p, s)
    ensures OrderOk(Next(p, s))
  {
    if s.CountTotal? || s.CountActive? || s.Leave? { HandlerKeepsOrder(p, s); } else { OtherKeepsOrder(p, s); }
  }

  lemma {:induction false} RunKeepsOrder(p: Proxy, steps: seq<Step>)
    requires OrderOk(p) && Possible(p, steps)
    ensures OrderOk(After(p, steps))
    decreases |steps|
  {
    if steps != [] {
      StepKeepsOrder(p, steps[0]);
      RunKeepsOrder(Next(p, steps[0]), steps[1..]);
    }
  }

  /** In every reachable state: the accept loop has returned, and the listener is closed, only if shutdown has
      begun; and no more connections are active than have been counted. */
  lemma StepsInOrder(steps: seq<Step>)
    requires Possible(STARTED, steps)
    ensures var p := After(STARTED, steps);
            && (p.acceptor == Exited ==> p.cancelled)
            && (!p.listening ==> p.cancelled)
            && p.connectionsActive <= p.connectionsTotal
  {
    RunKeepsOrder(STARTED, steps);
  }

  /** A failed accept before shutdown leaves the loop accepting; after it, the loop returns. */
  lemma AcceptErrorExactly(p: Proxy)
    requires p.acceptor == Accepting
    ensures Enabled(p, AcceptError)
    ensures Next(p, AcceptError).acceptor == if p.cancelled then Exited else Accepting
    ensures !p.cancelled ==> Next(p, AcceptError) == p
  {
  }

  /** Neither stage waits for ever: from stage one Stop can always go on and return. */
  lemma StopReturns(p: Proxy) returns (steps: seq<Step>)
    requires p.stopper == Closed
    ensures Possible(p, steps) && After(p, steps) == p.(stopper := Returned(false, false))
  {
    var draining := p.(stopper := Draining(false));
    var rest := [EndStageTwo(false)] + [];
    Then(draining, EndStageTwo(false), p.(stopper := Returned(false, false)), []);
    steps := [EndStageOne(false)] + rest;
    Then(p, EndStageOne(false), draining, rest);
  }

  // ---------- When an empty group means that all is over ----------

  ghost predicate Settled(p: Proxy)
  {
    p.connectionsActive == 0 && p.connectionsTotal == p.accepted
  }

  ghost predicate SettledForever(p: Proxy)
  {
    forall steps :: Possible(p, steps) ==> Settled(After(p, steps))
  }

  lemma {:induction false} StaysSettled(p: Proxy, steps: seq<Step>)
    requires Inv(p) && !p.listening && p.connWg == 0 && p.acceptor != HasConn && Possible(p, steps)
    ensures Settled(After(p, steps))
    decreases |steps|
  {
    assert p.handlers == multiset{};
    if steps != [] {
      NextKeepsInv(p, steps[0]);
      StaysSettled(Next(p, steps[0]), steps[1..]);
    }
  }

  /** Once the listener is closed, an empty group means that every accepted connection has been served and
      none will become active, whatever follows, exactly when the accept loop is not holding a connection. */
  lemma SettledExactly(p: Proxy)
    requires Inv(p) && !p.listening && p.connWg == 0
    ensures SettledForever(p) <==> p.acceptor != HasConn
  {
    if p.acceptor != HasConn {
      forall steps | Possible(p, steps) ensures Settled(After(p, steps)) {
        StaysSettled(p, steps);
      }
    }
    if SettledForever(p) {
      var none: seq<Step> := [];
      assert Possible(p, none) && After(p, none) == p;
      assert Settled(p);
    }
  }

  lemma Then(p: Proxy, s: Step, q: Proxy, rest: seq<Step>)
    requires Enabled(p, s) && Next(p, s) == q && Possible(q, rest)
    ensures Possible(p, [s] + rest) && After(p, [s] + rest) == After(q, rest)
  {
    assert ([s] + rest)[0] == s && ([s] + rest)[1..] == rest;
  }

  /** Stop has returned after stage one timed out; a connection has been accepted but not counted. */
  const ADRIFT: Proxy :=
    Proxy(true, false, HasConn, multiset{}, Returned(false, true), 1, 0, false, true, 0, 0, 1, 0)

  lemma TimeoutLeavesAdrift() returns (steps: seq<Step>)
    ensures Possible(STARTED, steps) && After(STARTED, steps) == ADRIFT
  {
    var p1 := STARTED.(acceptor := HasConn, accepted := 1);
    var p2 := p1.(stopper := Cancelled, cancelled := true);
    var p3 := p2.(stopper := Closed, listening := false);
    var p4 := p3.(stopper := Draining(false));
    var p5 := p4.(connSeenZero := true);
    var s5 := [EndStageTwo(true)] + [];
    Then(p5, EndStageTwo(true), ADRIFT, []);
    var s4 := [ConnSeenZero] + s5;
    Then(p4, ConnSeenZero, p5, s5);
    var s3 := [EndStageOne(false)] + s4;
    Then(p3, EndStageOne(false), p4, s4);
    var s2 := [CloseListener] + s3;
    Then(p2, CloseListener, p3, s3);
    var s1 := [Cancel] + s2;
    Then(p1, Cancel, p2, s2);
    steps := [AcceptConn] + s1;
    Then(STARTED, AcceptConn, p1, s1);
  }

  lemma AdriftBecomesActive() returns (steps: seq<Step>)
    ensures Possible(ADRIFT, steps) && After(ADRIFT, steps).connectionsActive == 1 && After(ADRIFT, steps).addsDuringWait == 1
  {
    var p1 := ADRIFT.(acceptor := Added, connWg := 1, addsDuringWait := 1);
    var p2 := p1.(acceptor := Accepting, handlers := multiset{Spawned});
    var p3 := p2.(handlers := multiset{Counted}, connectionsTotal := 1);
    var p4 := p3.(handlers := multiset{Active}, connectionsActive := 1);
    var s3 := [CountActive] + [];
    Then(p3, CountActive, p4, []);
    var s2 := [CountTotal] + s3;
    Then(p2, CountTotal, p3, s3);
    var s1 := [StartHandler] + s2;
    Then(p1, StartHandler, p2, s2);
    steps := [AddConn] + s1;
    Then(ADRIFT, AddConn, p1, s1);
  }

  /** When stage one times out, stage two can end by an empty group while an accepted connection is still
      on its way to being counted: after Stop has returned it is added and becomes active. */
  lemma TimeoutLosesConnection() returns (steps: seq<Step>, more: seq<Step>)
    ensures Possible(STARTED, steps) && After(STARTED, steps).stopper == Returned(false, true)
    ensures After(STARTED, steps).connectionsTotal < After(STARTED, steps).accepted
    ensures Possible(After(STARTED, steps), more) && After(After(STARTED, steps), more).connectionsActive == 1
  {
    steps := TimeoutLeavesAdrift();
    more := AdriftBecomesActive();
  }
}
