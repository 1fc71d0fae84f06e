/** The main `while True` loop: one iteration is one tick.

    The pins and timers become booleans (the powertail level, whether the hourly network beep
    timer and the 30-second alarm beep timer are running), the radio becomes a per-tick
    `connected` reading, and what the helpers' sendMessage call does on the wire becomes a
    per-tick `completed` input. `Next` is the loop body as a function of the module-level
    state, in the loop's three sections; `Controller.Step` is the same body as updates to the
    fields of one object. */
module ControlLoop {
  import opened Pushover

  /** A module-level name that may not be bound yet. The program initialises
      `send_alert_message` instead of `sent_alert_message`, so the latter starts unbound. */
  datatype Binding = Unbound | Bound(value: bool)

  /** What a tick does to the outside world: a non-blocking wlan.connect, or a helper's
      request to the notification service. */
  datatype Event = Connect | Send(kind: Kind)

  /** The readings of one tick: wlan.isconnected(), the float switch level (true is high: the
      water level is fine), and whether the startup helper's and the alert/recovery helper's
      sendMessage call returned without raising. */
  datatype Input = Input(connected: bool, reading: bool, startupCompleted: bool, notifyCompleted: bool)

  /** The variables of the network section (lines 159-172). */
  datatype Net = Net(
    netTimerInit: bool,        // net_timer_init
    netTimerRunning: bool,     // net_timer: the hourly beep
    connectCount: int)         // connect_count

  /** The variables of the float section (lines 175-204) and the outputs it drives. */
  datatype Level = Level(
    lastFloat: bool,           // last_float_state
    powertail: bool,           // the powertail pin (high: the pump has power)
    sentAlert: Binding,        // sent_alert_message
    sentRecovery: bool,        // sent_recovery_message
    alarmTimerInit: bool,      // alarm_timer_init
    alarmTimerRunning: bool)   // alarm_timer: the 30-second beep

  /** All module-level state the loop reads and writes. */
  datatype State = State(
    startupSent: bool,         // startup_message_sent
    net: Net,
    level: Level)

  /** The state when the loop is entered: the pin defaults, lines 44-52 and connect_count. */
  const Boot: State := State(false, Net(true, false, 60), Level(true, true, Unbound, true, false, false))

  /** A value after one section of a tick, with what that section did. */
  datatype Out<T> = Out(value: T, events: seq<Event>)

  /** A state after a whole tick, with what the tick did. */
  datatype Tick = Tick(state: State, events: seq<Event>)

  function AttemptEvents(kind: Kind, a: Attempt): seq<Event> {
    if a.Attempted? then [Send(kind)] else []
  }

  /** sent_alert_message is read only in the low state; there it must be bound. */
  predicate AlertFlagReadable(l: Level) {
    !l.lastFloat ==> l.sentAlert.Bound?
  }

  // ---------------------------------------------------------------------------
  // The three sections of one iteration

  /** Lines 155-156: send the startup message until a helper call reports success. */
  function StartupPhase(sent: bool, connected: bool, completed: bool): (o: Out<bool>)
    ensures o.value <==> sent || (connected && completed)
    ensures forall e | e in o.events :: e == Send(Startup)
    ensures Send(Startup) in o.events <==> !sent && connected
  {
    if sent then Out(sent, [])
    else
      var a := Notify(Startup, connected, completed);
      Out(Reported(a), AttemptEvents(Startup, a))
  }

  /** Lines 159-172: while disconnected, start the hourly beep if net_timer_init has been
      cleared, count the tick and issue a connect when the count passes 60; on a connected
      tick with net_timer_init set, reset the count and stop the hourly beep. */
  function NetworkPhase(n: Net, connected: bool): (o: Out<Net>)
    ensures forall e | e in o.events :: e == Connect && !connected
    ensures NetInv(n) ==> NetInv(o.value)
    ensures !connected ==> o.value.netTimerInit
    ensures connected ==> !o.value.netTimerInit && (NetInv(n) ==> !o.value.netTimerRunning)
  {
    if !connected then
      var n1 := if !n.netTimerInit then n.(netTimerRunning := true, netTimerInit := true) else n;
      var count := n1.connectCount + 1;
      if count > 60 then Out(n1.(connectCount := 0), [Connect])
      else Out(n1.(connectCount := count), [])
    else if n.netTimerInit then
      Out(Net(false, false, 0), [])
    else Out(n, [])
  }

  /** Lines 175-204: on a change of the float reading, drive the powertail, start or stop the
      alarm beep and send the alert or recovery message; otherwise retry whichever message
      for the current level is still unsent. */
  function FloatPhase(l: Level, connected: bool, reading: bool, completed: bool): (o: Out<Level>)
    requires AlertFlagReadable(l)
    ensures o.value.lastFloat == reading
    ensures AlertFlagReadable(o.value)
  {
    if reading != l.lastFloat then
      if reading then
        var a := Notify(Recovery, connected, completed);
        Out(l.(lastFloat := true, powertail := true, sentAlert := Bound(false), sentRecovery := Reported(a),
               alarmTimerRunning := if l.alarmTimerInit then false else l.alarmTimerRunning),
            AttemptEvents(Recovery, a))
      else
        var a := Notify(Alert, connected, completed);
        Out(l.(lastFloat := false, powertail := false, sentRecovery := false, alarmTimerRunning := true,
               alarmTimerInit := true, sentAlert := Bound(Reported(a))),
            AttemptEvents(Alert, a))
    else if !reading && !l.sentAlert.value then
      var a := Notify(Alert, connected, completed);
      Out(l.(sentAlert := Bound(Reported(a))), AttemptEvents(Alert, a))
    else if reading && !l.sentRecovery then
      var a := Notify(Recovery, connected, completed);
      Out(l.(sentRecovery := Reported(a)), AttemptEvents(Recovery, a))
    else Out(l, [])
  }

  /** One iteration of the loop. It never reads sent_alert_message unbound, and leaves the
      name readable for the next iteration. */
  function Next(s: State, i: Input): (t: Tick)
    requires AlertFlagReadable(s.level)
    ensures AlertFlagReadable(t.state.level)
  {
    var o1 := StartupPhase(s.startupSent, i.connected, i.startupCompleted);
    var o2 := NetworkPhase(s.net, i.connected);
    var o3 := FloatPhase(s.level, i.connected, i.reading, i.notifyCompleted);
    Tick(State(o1.value, o2.value, o3.value), o1.events + o2.events + o3.events)
  }

  /** The loop run over a sequence of ticks. */
  function Run(s: State, ins: seq<Input>): (t: Tick)
    requires AlertFlagReadable(s.level)
    ensures AlertFlagReadable(t.state.level)
    decreases |ins|
  {
    if ins == [] then Tick(s, [])
    else
      var t1 := Next(s, ins[0]);
      var rest := Run(t1.state, ins[1..]);
      Tick(rest.state, t1.events + rest.events)
  }

  // ---------------------------------------------------------------------------
  // What holds between iterations

  /** connect_count stays in 0..60, and the hourly beep runs only with net_timer_init set. */
  ghost predicate NetInv(n: Net) {
    0 <= n.connectCount <= 60 && (n.netTimerRunning ==> n.netTimerInit)
  }

  /** The powertail follows last_float_state, the alarm beep runs exactly in the low state, an
      alert can only be recorded as sent in the low state and a recovery only in the high state
      (so the two are never both set), and sent_alert_message is bound whenever it is read. */
  ghost predicate LevelInv(l: Level) {
    && l.powertail == l.lastFloat
    && (l.alarmTimerRunning <==> !l.lastFloat)
    && (l.alarmTimerRunning ==> l.alarmTimerInit)
    && AlertFlagReadable(l)
    && (l.sentAlert == Bound(true) ==> !l.lastFloat)
    && (l.sentRecovery ==> l.lastFloat)
  }

  /** The loop invariant. */
  ghost predicate Inv(s: State) {
    NetInv(s.net) && LevelInv(s.level)
  }

  lemma FloatPhaseInv(l: Level, connected: bool, reading: bool, completed: bool)
    requires LevelInv(l)
    ensures LevelInv(FloatPhase(l, connected, reading, completed).value)
  {
  }

  lemma NextPreservesInv(s: State, i: Input)
    requires Inv(s)
    ensures Inv(Next(s, i).state)
  {
    FloatPhaseInv(s.level, i.connected, i.reading, i.notifyCompleted);
  }

  lemma {:induction false} RunPreservesInv(s: State, ins: seq<Input>)
    requires Inv(s)
    ensures Inv(Run(s, ins).state)
    decreases |ins|
  {
    if ins != [] {
      NextPreservesInv(s, ins[0]);
      RunPreservesInv(Next(s, ins[0]).state, ins[1..]);
    }
  }

  lemma {:induction false} RunLastReading(s: State, ins: seq<Input>)
    requires AlertFlagReadable(s.level) && ins != []
    ensures Run(s, ins).state.level.lastFloat == ins[|ins| - 1].reading
    decreases |ins|
  {
    if |ins| > 1 {
      RunLastReading(Next(s, ins[0]).state, ins[1..]);
    }
  }

  /** After any sequence of ticks from boot: last_float_state is the latest reading, the
      powertail mirrors it, the alarm beep runs exactly in the low state, connect_count is in
      0..60, the alert and recovery flags are never both set, and sent_alert_message is bound
      whenever it can be read. */
  lemma Reachable(ins: seq<Input>)
    ensures var l := Run(Boot, ins).state.level;
            && l.powertail == l.lastFloat
            && (l.alarmTimerRunning <==> !l.lastFloat)
            && 0 <= Run(Boot, ins).state.net.connectCount <= 60
            && !(l.sentAlert == Bound(true) && l.sentRecovery)
            && (!l.lastFloat ==> l.sentAlert.Bound?)
            && (ins != [] ==> l.lastFloat == ins[|ins| - 1].reading)
  {
    RunPreservesInv(Boot, ins);
    if ins != [] {
      RunLastReading(Boot, ins);
    }
  }

  // ---------------------------------------------------------------------------
  // One iteration

  /** After every iteration last_float_state is the reading just taken, the powertail pin
      equals it, and the alarm beep timer runs exactly when it is low. */
  lemma NextTracksLevel(s: State, i: Input)
    requires Inv(s)
    ensures var l := Next(s, i).state.level;
            l.lastFloat == i.reading && l.powertail == i.reading && (l.alarmTimerRunning <==> !i.reading)
  {
    FloatPhaseInv(s.level, i.connected, i.reading, i.notifyCompleted);
  }

  lemma FloatPhaseEvents(l: Level, connected: bool, reading: bool, completed: bool)
    requires AlertFlagReadable(l)
    ensures forall e | e in FloatPhase(l, connected, reading, completed).events :: e.Send? && e.kind != Startup && connected
  {
  }

  /** Every request to the notification service is made on a connected tick, and every
      connect request on a disconnected one. */
  lemma SendsNeedConnection(s: State, i: Input)
    requires AlertFlagReadable(s.level)
    ensures forall e | e in Next(s, i).events :: (e.Send? ==> i.connected) && (e.Connect? ==> !i.connected)
  {
    FloatPhaseEvents(s.level, i.connected, i.reading, i.notifyCompleted);
  }

  /** Once startup_message_sent is set it stays set, and no further startup message is sent. */
  lemma StartupLatch(s: State, i: Input)
    requires AlertFlagReadable(s.level) && s.startupSent
    ensures Next(s, i).state.startupSent
    ensures Send(Startup) !in Next(s, i).events
  {
    FloatPhaseEvents(s.level, i.connected, i.reading, i.notifyCompleted);
  }

  lemma {:induction false} RunStartupLatch(s: State, ins: seq<Input>)
    requires AlertFlagReadable(s.level) && s.startupSent
    ensures Run(s, ins).state.startupSent
    ensures Send(Startup) !in Run(s, ins).events
    decreases |ins|
  {
    if ins != [] {
      StartupLatch(s, ins[0]);
      RunStartupLatch(Next(s, ins[0]).state, ins[1..]);
    }
  }

  /** A disconnected tick sends nothing, advances connect_count modulo 61 and issues a connect
      exactly when the count wraps. */
  lemma DisconnectedTick(s: State, i: Input)
    requires Inv(s) && !i.connected
    ensures var t := Next(s, i);
            && (forall e | e in t.events :: e == Connect)
            && t.state.net.connectCount == (s.net.connectCount + 1) % 61
            && (Connect in t.events <==> s.net.connectCount == 60)
            && Connects(t.events) == (s.net.connectCount + 1) / 61
  {
    var o1 := StartupPhase(s.startupSent, i.connected, i.startupCompleted);
    var o2 := NetworkPhase(s.net, i.connected);
    var o3 := FloatPhase(s.level, i.connected, i.reading, i.notifyCompleted);
    FloatPhaseEvents(s.level, i.connected, i.reading, i.notifyCompleted);
    assert o1.events == [] && o3.events == [];
    assert Next(s, i).events == o2.events;
  }

  /** A connected tick issues no connect, stops the hourly beep, and resets connect_count only
      if net_timer_init was still set. */
  lemma ConnectedTick(s: State, i: Input)
    requires Inv(s) && i.connected
    ensures var t := Next(s, i);
            && Connect !in t.events
            && !t.state.net.netTimerRunning && !t.state.net.netTimerInit
            && t.state.net.connectCount == (if s.net.netTimerInit then 0 else s.net.connectCount)
  {
    SendsNeedConnection(s, i);
  }

  /** The number of connect requests among some events. */
  function Connects(es: seq<Event>): nat {
    if es == [] then 0 else (if es[0] == Connect then 1 else 0) + Connects(es[1..])
  }

  lemma {:induction false} ConnectsAppend(a: seq<Event>, b: seq<Event>)
    ensures Connects(a + b) == Connects(a) + Connects(b)
    decreases |a|
  {
    if a == [] {
      assert a + b == b;
    } else {
      assert (a + b)[0] == a[0];
      assert (a + b)[1..] == a[1..] + b;
      ConnectsAppend(a[1..], b);
    }
  }

  /** While the radio stays down, connects are issued once every 61 ticks: from a count c,
      n disconnected ticks issue (c + n) / 61 connects and leave the count at (c + n) % 61.
      From boot (c = 60) the first disconnected tick already connects. */
  lemma {:induction false} ReconnectCadence(s: State, ins: seq<Input>)
    requires Inv(s)
    requires forall j :: 0 <= j < |ins| ==> !ins[j].connected
    ensures var t := Run(s, ins);
            && Connects(t.events) == (s.net.connectCount + |ins|) / 61
            && t.state.net.connectCount == (s.net.connectCount + |ins|) % 61
    decreases |ins|
  {
    if ins != [] {
      var t1 := Next(s, ins[0]);
      DisconnectedTick(s, ins[0]);
      NextPreservesInv(s, ins[0]);
      ReconnectCadence(t1.state, ins[1..]);
      var rest := Run(t1.state, ins[1..]);
      ConnectsAppend(t1.events, rest.events);
      var c, n := s.net.connectCount, |ins|;
      if c == 60 {
        assert (c + n) / 61 == 1 + (n - 1) / 61;
        assert (c + n) % 61 == (n - 1) % 61;
      } else {
        assert t1.state.net.connectCount == c + 1;
      }
    }
  }

  /** The hourly beep timer can only start on a disconnected tick after net_timer_init has been
      cleared, and only a connected tick clears it. */
  lemma NetTimerStart(s: State, i: Input)
    requires AlertFlagReadable(s.level)
    requires !s.net.netTimerRunning && Next(s, i).state.net.netTimerRunning
    ensures !i.connected && !s.net.netTimerInit
  {
  }

  lemma {:induction false} NetTimerIdleWhileNeverConnected(s: State, ins: seq<Input>)
    requires AlertFlagReadable(s.level) && s.net.netTimerInit && !s.net.netTimerRunning
    requires forall j :: 0 <= j < |ins| ==> !ins[j].connected
    ensures Run(s, ins).state.net.netTimerInit && !Run(s, ins).state.net.netTimerRunning
    decreases |ins|
  {
    if ins != [] {
      NetTimerIdleWhileNeverConnected(Next(s, ins[0]).state, ins[1..]);
    }
  }

  /** From boot, the hourly beep is running only if some tick was connected. */
  lemma NetTimerNeedsConnectedTick(ins: seq<Input>)
    requires Run(Boot, ins).state.net.netTimerRunning
    ensures exists j :: 0 <= j < |ins| && ins[j].connected
  {
    if forall j :: 0 <= j < |ins| ==> !ins[j].connected {
      NetTimerIdleWhileNeverConnected(Boot, ins);
    }
  }

  /** On a tick without a level change, a message is sent exactly when the one for the current
      level is still outstanding and the radio is up; a failed attempt leaves its flag unset for
      the next tick, and a flag already set causes no further send. */
  lemma Retry(s: State, i: Input)
    requires Inv(s) && i.reading == s.level.lastFloat
    ensures var t := Next(s, i);
            && (Send(Alert) in t.events <==> !i.reading && s.level.sentAlert == Bound(false) && i.connected)
            && (Send(Recovery) in t.events <==> i.reading && !s.level.sentRecovery && i.connected)
            && (!i.reading ==> t.state.level.sentAlert
                               == Bound(s.level.sentAlert == Bound(true) || (i.connected && i.notifyCompleted)))
            && (i.reading ==> t.state.level.sentRecovery
                              == (s.level.sentRecovery || (i.connected && i.notifyCompleted)))
  {
  }

  /** On a level change the message for the new level is attempted (if the radio is up) and the
      flag for the other level is cleared, whatever it was. */
  lemma Edge(s: State, i: Input)
    requires Inv(s) && i.reading != s.level.lastFloat
    ensures var t := Next(s, i);
            && (i.reading ==>
                  && t.state.level.sentAlert == Bound(false)
                  && t.state.level.sentRecovery == (i.connected && i.notifyCompleted)
                  && (Send(Recovery) in t.events <==> i.connected)
                  && Send(Alert) !in t.events)
            && (!i.reading ==>
                  && !t.state.level.sentRecovery
                  && t.state.level.sentAlert == Bound(i.connected && i.notifyCompleted)
                  && (Send(Alert) in t.events <==> i.connected)
                  && Send(Recovery) !in t.events)
  {
  }

  /** The two beep timers are independent: after a connected tick and then a disconnected tick
      with the float low, both the hourly and the 30-second beep are running. */
  lemma BothTimersCanRun()
    ensures var s := Run(Boot, [Input(true, true, true, true), Input(false, false, false, false)]).state;
            s.net.netTimerRunning && s.level.alarmTimerRunning
  {
  }

  // ---------------------------------------------------------------------------
  // The loop as updates to one object

  class Controller {
    var startupSent: bool
    var netTimerInit: bool
    var netTimerRunning: bool
    var connectCount: int
    var lastFloat: bool
    var powertail: bool
    var sentAlert: Binding
    var sentRecovery: bool
    var alarmTimerInit: bool
    var alarmTimerRunning: bool

    function NetView(): Net
      reads this
    {
      Net(netTimerInit, netTimerRunning, connectCount)
    }

    function LevelView(): Level
      reads this
    {
      Level(lastFloat, powertail, sentAlert, sentRecovery, alarmTimerInit, alarmTimerRunning)
    }

    function Snapshot(): State
      reads this
    {
      State(startupSent, NetView(), LevelView())
    }

    ghost predicate Valid()
      reads this
    {
      Inv(Snapshot())
    }

    /** The module-level initial state. */
    constructor ()
      ensures Valid() && Snapshot() == Boot
    {
      startupSent := false;
      netTimerInit := true;
      netTimerRunning := false;
      connectCount := 60;
      lastFloat := true;
      powertail := true;
      sentAlert := Unbound;
      sentRecovery := true;
      alarmTimerInit := false;
      alarmTimerRunning := false;
    }

    /** Lines 155-156: the startup message. */
    method StartupStep(connected: bool, completed: bool) returns (events: seq<Event>)
      requires Valid()
      modifies this`startupSent
      ensures Valid()
      ensures Out(startupSent, events) == StartupPhase(old(startupSent), connected, completed)
    {
      events := [];
      if !startupSent {
        var a := Notify(Startup, connected, completed);
        startupSent := Reported(a);
        events := AttemptEvents(Startup, a);
      }
    }

    /** Lines 159-172: network maintenance. */
    method NetworkStep(connected: bool) returns (events: seq<Event>)
      requires Valid()
      modifies this`netTimerInit, this`netTimerRunning, this`connectCount
      ensures Valid()
      ensures Out(NetView(), events) == NetworkPhase(old(NetView()), connected)
    {
      events := [];
      if !connected {
        if !netTimerInit {
          netTimerRunning := true;
          netTimerInit := true;
        }
        connectCount := connectCount + 1;
        if connectCount > 60 {
          connectCount := 0;
          events := [Connect];
        }
      } else {
        if netTimerInit {
          connectCount := 0;
          netTimerRunning := false;
          netTimerInit := false;
        }
      }
    }

    /** Lines 175-204: the float switch, the outputs and the alert and recovery messages. */
    method FloatStep(connected: bool, reading: bool, completed: bool) returns (events: seq<Event>)
      requires Valid()
      modifies this`lastFloat, this`powertail, this`sentAlert, this`sentRecovery,
               this`alarmTimerInit, this`alarmTimerRunning
      ensures Valid()
      ensures Out(LevelView(), events) == FloatPhase(old(LevelView()), connected, reading, completed)
    {
      ghost var l0 := LevelView();
      FloatPhaseInv(l0, connected, reading, completed);
      events := [];
      if reading != lastFloat {
        lastFloat := reading;
        if reading {
          powertail := true;
          sentAlert := Bound(false);
          var a := Notify(Recovery, connected, completed);
          sentRecovery := Reported(a);
          events := AttemptEvents(Recovery, a);
          if alarmTimerInit {
            alarmTimerRunning := false;
          }
        } else {
          powertail := false;
          sentRecovery := false;
          alarmTimerRunning := true;
          alarmTimerInit := true;
          var a := Notify(Alert, connected, completed);
          sentAlert := Bound(Reported(a));
          events := AttemptEvents(Alert, a);
        }
      } else {
        if !reading && !sentAlert.value {
          var a := Notify(Alert, connected, completed);
          sentAlert := Bound(Reported(a));
          events := AttemptEvents(Alert, a);
        }
        if reading && !sentRecovery {
          var a := Notify(Recovery, connected, completed);
          sentRecovery := Reported(a);
          events := AttemptEvents(Recovery, a);
        }
      }
    }

    /** One iteration of the loop body. */
    method Step(connected: bool, reading: bool, startupCompleted: bool, notifyCompleted: bool)
      returns (events: seq<Event>)
      requires Valid()
      modifies this
      ensures Valid()
      ensures Tick(Snapshot(), events) == Next(old(Snapshot()), Input(connected, reading, startupCompleted, notifyCompleted))
      ensures lastFloat == reading && powertail == reading && (alarmTimerRunning <==> !reading)
      ensures 0 <= connectCount <= 60 && !(sentAlert == Bound(true) && sentRecovery)
      ensures old(startupSent) ==> startupSent
      ensures connected ==> !netTimerRunning
      ensures forall e | e in events :: (e.Send? ==> connected) && (e.Connect? ==> !connected)
    {
      ghost var s0 := Snapshot();
      ghost var input := Input(connected, reading, startupCompleted, notifyCompleted);
      var e1 := StartupStep(connected, startupCompleted);
      var e2 := NetworkStep(connected);
      var e3 := FloatStep(connected, reading, notifyCompleted);
      events := e1 + e2 + e3;
      assert Tick(Snapshot(), events) == Next(s0, input);
      NextPreservesInv(s0, input);
      NextTracksLevel(s0, input);
      SendsNeedConnection(s0, input);
      if connected {
        ConnectedTick(s0, input);
      }
    }
  }
}
