// Commands to a shutter that moves, is blocked or is muted, and buttons that are held.
module RolladenPress {
  import opened Words
  import opened RolladenModel
  import opened RolladenSafety
  import opened RolladenDrive

  // ---------- Stopping ----------

  // Nothing is asked for and power, if still on, goes off in the next tick.
  predicate Stopping(s: State) {
    !s.sollPower && s.sollDir == Auf && (s.power ==> s.exePower)
  }

  lemma StopsInTick(c: Config, s: State)
    requires Stopping(s)
    ensures var t := TimerTick(c, s);
            && Stopping(t) && !t.power && t.laufzeit == s.laufzeit
            && (s.blockingTimer > 0 ==> t.blockingTimer == s.blockingTimer - 1)
            && (s.blockingTimer == 0 ==> t.blockingTimer == 0 && AtRest(t))
  {
    var stop := TickIsCore(c, s);
    StoppingDirection(c, s);
  }

  // From the next tick on the motor stays off and the shutter where it is; after the lockout both relays
  // are released.
  ghost predicate ComesToRest(c: Config, s: State, n: nat) {
    var out, end := Outputs(c, s, Ticks(n)), After(c, s, Ticks(n));
    && |out| == n && (forall k :: 0 <= k < n ==> !out[k].power)
    && end.laufzeit == s.laufzeit && (n > s.blockingTimer ==> AtRest(end))
  }

  lemma {:induction false} StoppingRuns(c: Config, s: State, n: nat)
    requires Stopping(s)
    ensures ComesToRest(c, s, n)
    decreases n
  {
    if n == 0 {
      NoTicks(c, s);
    } else {
      var t := TimerTick(c, s);
      StopsInTick(c, s);
      FirstTick(c, s, n);
      StoppingRuns(c, t, n - 1);
      if n > s.blockingTimer == 0 {
        RestRuns(c, t, n - 1);
      }
    }
  }

  // The command stops the shutter: where it stands, or at the end it is calibrated to.
  ghost predicate Stops(c: Config, s: State, t: State, n: nat) {
    && !t.sollPower && ComesToRest(c, t, n) && t.blockingTimer == (if s.dir == Ab then 5 else s.blockingTimer)
    && t.laufzeit == if Calibrates(c, s.kalibrieren, s.laufzeit, s.sollLaufzeit) then CalibratedEnd(c) else s.laufzeit
  }

  lemma StopStops(c: Config, s: State, n: nat)
    ensures Stops(c, s, CmdStop(c, s), n)
  {
    StopIsCore(c, s);
    StopSettles(c, s);
    StoppingRuns(c, CmdStop(c, s), n);
  }

  predicate IsPress(cmd: Command) {
    cmd.PositionSet? && (cmd.value == 200 || cmd.value == 201)
  }

  // The group is that of the shutter's own button or among the configured ones.
  predicate HeedsGroup(c: Config, group: uint8) {
    group == c.taster || exists i :: 0 <= i < |c.gruppen| && c.gruppen[i] == group
  }

  predicate Addressed(c: Config, cmd: Command) {
    if cmd.Mute? then cmd.id == c.muteId else HeedsGroup(c, cmd.group)
  }

  // A press of either button stops a shutter that moves or is about to.
  lemma PressStops(c: Config, s: State, cmd: Command, n: nat)
    requires IsPress(cmd) && Addressed(c, cmd) && !Blocked(s) && (s.power || s.sollPower)
    ensures Stops(c, s, Handle(c, s, cmd), n)
  {
    StopStops(c, s, n);
  }

  // So does the one button while the motor runs; held, it will change the direction, unless the shutter
  // has reached an end, where it drives back in any case.
  lemma OneButtonStops(c: Config, s: State, group: uint8, n: nat)
    requires HeedsGroup(c, group) && !Blocked(s) && s.power
    ensures var t := Handle(c, s, TasterDown(group));
            && Stops(c, s, t, n)
            && (if AtEnd(c, s.laufzeit) then t.changeDirCounter == -1 && t.lastDir == Opposite(s.dir)
                else t.changeDirCounter == 7 && t.lastDir == s.lastDir)
  {
    var u := s.(changeDirCounter := 7);
    StopStops(c, u, n);
    StopSettles(c, u);
  }

  // HALT stops in every state, muted or blocked or not.
  lemma HaltStops(c: Config, s: State, group: uint8, n: nat)
    requires HeedsGroup(c, group)
    ensures var t := Handle(c, s, PositionSet(group, 202)); Stops(c, s, t, n) && t.longPressedCounter == -1
  {
    var u := s.(longPressedCounter := -1);
    StopStops(c, u, n);
    StopSettles(c, u);
  }

  // ---------- Commands that change nothing, or nothing of a drive ----------

  predicate IsPercentage(cmd: Command) {
    cmd.PositionSet? && cmd.value !in {200, 201, 202, 222}
  }

  // Other groups are not concerned; a muted or blocked shutter heeds neither presses nor percentages.
  lemma Ignored(c: Config, s: State, cmd: Command)
    requires !Addressed(c, cmd) || (Blocked(s) && (IsPress(cmd) || IsPercentage(cmd) || cmd.TasterDown?))
    ensures Handle(c, s, cmd) == s
  {
  }

  // Releases of buttons and muting.
  predicate Harmless(c: Config, cmd: Command) {
    !Addressed(c, cmd) || cmd.Mute? || cmd.TasterUp? || (cmd.PositionSet? && cmd.value == 222)
  }

  lemma HarmlessEffect(c: Config, s: State, cmd: Command)
    requires Harmless(c, cmd)
    ensures var t := Handle(c, s, cmd);
            && t == s.(mute := t.mute, changeDirCounter := t.changeDirCounter,
                       longPressedCounter := t.longPressedCounter)
            && (t.mute == if cmd.Mute? && Addressed(c, cmd) then cmd.on else s.mute)
            && (t.changeDirCounter == if cmd.TasterUp? && Addressed(c, cmd) then -1 else s.changeDirCounter)
            && (t.longPressedCounter == if cmd.PositionSet? && Addressed(c, cmd) then -1 else s.longPressedCounter)
  {
    if !Addressed(c, cmd) {
      Ignored(c, s, cmd);
      assert Handle(c, s, cmd) == s;
    } else {
      assert cmd.Mute? || InGroup(c, cmd.group);
    }
  }

  function CountTicks(es: seq<Event>): nat {
    if es == [] then 0 else (if es[0].Tick? then 1 else 0) + CountTicks(es[1..])
  }

  lemma HarmlessKeeps(c: Config, p: Trip, k: nat, s: State, cmd: Command)
    requires DrivingAt(c, p, k, s) && Harmless(c, cmd)
    ensures DrivingAt(c, p, k, Handle(c, s, cmd))
  {
    HarmlessEffect(c, s, cmd);
  }

  // A drive goes on as if they had not been sent.
  lemma {:induction false} HarmlessRun(c: Config, p: Trip, k: nat, s: State, es: seq<Event>)
    requires Directed(p) && DrivingAt(c, p, k, s)
    requires forall e <- es :: e.Receive? ==> Harmless(c, e.command)
    ensures DrivingAt(c, p, k + CountTicks(es), After(c, s, es))
    decreases |es|
  {
    if es != [] {
      var t := Step(c, s, es[0]);
      if es[0].Tick? {
        DriveStep(c, p, k, s);
        HarmlessRun(c, p, k + 1, t, es[1..]);
      } else {
        HarmlessKeeps(c, p, k, s, es[0].command);
        HarmlessRun(c, p, k, t, es[1..]);
      }
    }
  }

  // ---------- A position command during a drive ----------

  // It is meant to be ignored, but it takes the target away: it changes nothing only if that had
  // happened before.
  lemma PercentageDuringDrive(c: Config, s: State, percent: uint8)
    requires !Blocked(s) && (s.power || s.sollPower)
    ensures DriveTo(c, s, percent) == s.(sollLaufzeit := -1)
    ensures DriveTo(c, s, percent) == s <==> s.sollLaufzeit == -1
  {
  }

  // A shutter on its way up then stops with the next tick,
  lemma PercentageStopsUp(c: Config, s: State, percent: uint8, n: nat)
    requires !Blocked(s) && s.power && s.sollPower && s.dir == Auf
    requires s.laufzeit >= -2 && s.longPressedCounter == -1
    ensures var t := TimerTick(c, DriveTo(c, s, percent)); !t.sollPower && !t.power && ComesToRest(c, t, n)
  {
    var t := s.(sollLaufzeit := -1);
    TickIsRest(c, t);
    var _ := TickEffect(c, t);
    assert Reached(t);
    StoppingRuns(c, TimerTick(c, t), n);
  }

  // and one on its way down drives on to -1, below the bottom, wherever it was sent, and does not calibrate.
  lemma PercentageDrivesDown(c: Config, p: Trip, k: nat, s: State, percent: uint8, n: nat)
    requires Directed(p) && p.dir == Ab && DrivingAt(c, p, k, s)
    requires 5 <= k < Last(p) && s.laufzeit >= 0 && !s.mute
    ensures var end := After(c, DriveTo(c, s, percent), Ticks(n));
            && DrivingAt(c, p.(soll := -1), k + n, end)
            && (k + n >= p.from + 7 ==> end.laufzeit == -1 && end.kalibrieren == p.cal && !end.power)
  {
    var far := p.(soll := -1);
    assert s.(sollLaufzeit := -1) == DriveTo(c, s, percent);
    assert DrivingAt(c, far, k, s.(sollLaufzeit := -1));
    DriveEnds(c, far, s.(sollLaufzeit := -1), k, n);
    BottomIsAtEnd(-100, c.laufzeit);
  }

  // ---------- Held buttons ----------

  lemma LongPressedEffect(c: Config, s: State)
    ensures var t := CountLongPressed(c, s);
            && t.laufzeit == s.laufzeit && t.sollPower == s.sollPower
            && t.lastDir == s.lastDir && t.changeDirCounter == s.changeDirCounter
  {
  }

  lemma StoppingDirection(c: Config, s: State)
    requires !s.sollPower
    ensures TimerTick(c, s).lastDir == CountChangeDir(s).lastDir
    ensures TimerTick(c, s).changeDirCounter == CountChangeDir(s).changeDirCounter
    ensures TimerTick(c, s).laufzeit == s.laufzeit
  {
    var t := CountLongPressed(c, s);
    LongPressedEffect(c, s);
    TickIsRest(c, s);
    StandingStill(c, t);
    CountDown(s);
    CountDown(t);
  }

  lemma CountDown(s: State)
    ensures CountChangeDir(s).lastDir == if s.changeDirCounter == 0 then Opposite(s.lastDir) else s.lastDir
    ensures CountChangeDir(s).changeDirCounter
         == if s.changeDirCounter == 0 then -1
            else if s.changeDirCounter > 0 then s.changeDirCounter - 1
            else s.changeDirCounter
  {
  }

  lemma StandingStill(c: Config, t: State)
    requires !t.sollPower
    ensures var v := CountChangeDir(t);
            && Move(c, v) == v && v.laufzeit == t.laufzeit
            && SameDrive(v, ExecutePower(ExecuteDir(Unblock(v))))
  {
    ChangeDirEffect(t);
    ExecutedEffect(CountChangeDir(t));
  }

  // The one button changes the direction of the next drive after it has been held for 8 ticks.
  lemma {:induction false} HeldDirection(c: Config, s: State, n: nat)
    requires Stopping(s) && s.changeDirCounter >= -1
    ensures var end := After(c, s, Ticks(n));
            && end.lastDir == (if 0 <= s.changeDirCounter < n then Opposite(s.lastDir) else s.lastDir)
            && end.changeDirCounter == (if s.changeDirCounter < n then -1 else s.changeDirCounter - n)
    decreases n
  {
    if n == 0 {
      NoTicks(c, s);
    } else {
      var t := TimerTick(c, s);
      StopsInTick(c, s);
      StoppingDirection(c, s);
      FirstTick(c, s, n);
      HeldDirection(c, t, n - 1);
    }
  }

  // Held for n ticks after it stopped a drive short of an end, then released.
  lemma ChangeOfDirection(c: Config, s: State, group: uint8, held: nat, after: nat)
    requires HeedsGroup(c, group) && !Blocked(s) && s.power && !AtEnd(c, s.laufzeit)
    ensures var t := After(c, Handle(c, s, TasterDown(group)), Ticks(held));
            var end := After(c, Handle(c, t, TasterUp(group)), Ticks(after));
            end.lastDir == if held >= 8 then Opposite(s.lastDir) else s.lastDir
  {
    OneButtonStops(c, s, group, held);
    var u := Handle(c, s, TasterDown(group));
    StopIsCore(c, s.(changeDirCounter := 7));
    HeldDirection(c, u, held);
    StoppingStays(c, u, held);
    HeldDirection(c, Handle(c, After(c, u, Ticks(held)), TasterUp(group)), after);
  }

  lemma {:induction false} StoppingStays(c: Config, s: State, n: nat)
    requires Stopping(s)
    ensures Stopping(After(c, s, Ticks(n)))
    decreases n
  {
    if n == 0 {
      NoTicks(c, s);
    } else {
      StopsInTick(c, s);
      FirstTick(c, s, n);
      StoppingStays(c, TimerTick(c, s), n - 1);
    }
  }

  // A drive during which the button has been held from its beginning.
  ghost predicate HeldAt(c: Config, p: Trip, k: nat, t: State) {
    k <= 10 && t.longPressedCounter == 10 - k && Underway(c, p, k, t)
  }

  lemma HeldTick(c: Config, p: Trip, k: nat, t: State)
    requires Directed(p) && HeldAt(c, p, k, t) && k < 10
    ensures HeldAt(c, p, k + 1, TimerTick(c, t))
  {
    var u := CountLongPressed(c, t);
    StillHeld(c, p, k, t);
    TickIsRest(c, t);
    RestStep(c, p, k, u);
  }

  lemma StillHeld(c: Config, p: Trip, k: nat, t: State)
    requires Underway(c, p, k, t) && t.longPressedCounter > 0
    ensures var u := CountLongPressed(c, t);
            Underway(c, p, k, u) && u.longPressedCounter == t.longPressedCounter - 1
  {
  }

  lemma {:induction false} Held(c: Config, p: Trip, k: nat, t: State, n: nat)
    requires Directed(p) && HeldAt(c, p, k, t) && k + n == 10
    ensures HeldAt(c, p, 10, After(c, t, Ticks(n)))
    decreases n
  {
    if n > 0 {
      HeldTick(c, p, k, t);
      FirstTick(c, t, n);
      Held(c, p, k + 1, TimerTick(c, t), n - 1);
    }
  }

  // Holding the button for more than a second makes a drive towards the configured end a calibration,
  // if the drive lasts that long.
  lemma LongPress(c: Config, s: State, dir: Dir)
    requires Idle(s) && ShortOf(c, s.laufzeit, dir)
    requires Last(ButtonTrip(c, s, dir)) > 10
    ensures var p := ButtonTrip(c, s, dir);
            && Directed(Lengthened(c, p))
            && DrivingAt(c, Lengthened(c, p), 11, After(c, TwoButton(c, s, dir), Ticks(11)))
  {
    PressIsHeld(c, s, dir);
    HeldToTheEnd(c, ButtonTrip(c, s, dir), TwoButton(c, s, dir));
  }

  // If the drive is over by then, the shutter is left at rest, but marked for calibration whenever the
  // upper end is the configured one, wherever it has gone.
  lemma LongPressTooLate(c: Config, s: State, dir: Dir)
    requires Idle(s) && ShortOf(c, s.laufzeit, dir) && Last(ButtonTrip(c, s, dir)) <= 10
    ensures var p := ButtonTrip(c, s, dir);
            var end := After(c, TwoButton(c, s, dir), Ticks(11));
            var calibrated := Calibrates(c, p.cal, p.soll, p.soll);
            && !end.sollPower && !end.power
            && end.laufzeit == (if calibrated then CalibratedEnd(c) else p.soll)
            && (end.kalibrieren <==> c.kalibrierungOben || (p.cal && AtEnd(c, p.soll) && !calibrated))
  {
    var t := TwoButton(c, s, dir);
    PressIsHeld(c, s, dir);
    Held(c, ButtonTrip(c, s, dir), 0, t, 10);
    TickAfter(c, t, 10);
    RunsOutAtRest(c, After(c, t, Ticks(10)));
  }

  lemma RunsOutAtRest(c: Config, s: State)
    requires s.longPressedCounter == 0 && !s.sollPower && !s.power && s.sollDir == Auf
    ensures var t := TimerTick(c, s);
            && !t.sollPower && !t.power && t.laufzeit == s.laufzeit
            && (t.kalibrieren <==> s.kalibrieren || c.kalibrierungOben)
  {
    var u := CountLongPressed(c, s);
    assert u.kalibrieren <==> s.kalibrieren || c.kalibrierungOben;
    LongPressedEffect(c, s);
    TickIsRest(c, s);
    StandingStill(c, u);
    ChangeDirEffect(u);
    StopsInTick(c, s);
  }

  lemma HeldToTheEnd(c: Config, p: Trip, t: State)
    requires HeldAt(c, p, 0, t) && Directed(p) && Directed(Lengthened(c, p))
    requires Last(p) > 10 && Last(Lengthened(c, p)) > 10
    ensures DrivingAt(c, Lengthened(c, p), 11, After(c, t, Ticks(11)))
  {
    Held(c, p, 0, t, 10);
    TickAfter(c, t, 10);
    LongPressDue(c, p, After(c, t, Ticks(10)));
  }

  lemma PressIsHeld(c: Config, s: State, dir: Dir)
    requires Idle(s) && ShortOf(c, s.laufzeit, dir)
    ensures var p := ButtonTrip(c, s, dir);
            && HeldAt(c, p, 0, TwoButton(c, s, dir)) && Directed(p) && Directed(Lengthened(c, p))
            && Last(Lengthened(c, p)) >= Last(p)
  {
    TwoButtonStarts(c, s, dir);
  }

  lemma {:induction false} TickAfter(c: Config, s: State, n: nat)
    ensures After(c, s, Ticks(n + 1)) == TimerTick(c, After(c, s, Ticks(n)))
    decreases n
  {
    FirstTick(c, s, n + 1);
    if n == 0 {
      NoTicks(c, s);
      NoTicks(c, TimerTick(c, s));
    } else {
      FirstTick(c, s, n);
      TickAfter(c, TimerTick(c, s), n - 1);
    }
  }

  // What the counter does when it has run out.
  function Lengthened(c: Config, p: Trip): Trip {
    if ToCalibrate(c, p.cal, p.dir) then p.(soll := Beyond(c, p.dir), cal := true) else p
  }

  lemma LongPressDue(c: Config, p: Trip, t: State)
    requires Directed(p) && Directed(Lengthened(c, p)) && HeldAt(c, p, 10, t)
    requires Last(p) > 10 && Last(Lengthened(c, p)) > 10
    ensures DrivingAt(c, Lengthened(c, p), 11, TimerTick(c, t))
  {
    var u := CountLongPressed(c, t);
    TargetMovedOn(c, p, t);
    TickIsRest(c, t);
    RestStep(c, Lengthened(c, p), 10, u);
  }

  lemma TargetMovedOn(c: Config, p: Trip, t: State)
    requires Directed(p) && Directed(Lengthened(c, p)) && HeldAt(c, p, 10, t)
    requires Last(p) > 10 && Last(Lengthened(c, p)) > 10
    ensures var u := CountLongPressed(c, t); Underway(c, Lengthened(c, p), 10, u) && u.longPressedCounter == -1
  {
  }

  // ---------- A defined position ----------

  // A defined position is one percent more, rounded down, and no further than the top.
  lemma PositionDefined(c: Config, s: State, group: uint8, value: uint8)
    requires HeedsGroup(c, group)
    ensures var u := Handle(c, s, DefinePosition(group, value));
            && u == s.(laufzeit := u.laufzeit)
            && 0 <= u.laufzeit <= c.laufzeit
            && if value >= 99 then u.laufzeit == c.laufzeit
               else (value + 1) * c.laufzeit - 100 < 100 * u.laufzeit <= (value + 1) * c.laufzeit
  {
    if value >= 99 {
      Scaled(100, value + 1, c.laufzeit);
    } else {
      Scaled(0, value + 1, c.laufzeit);
      Scaled(value + 1, 100, c.laufzeit);
    }
  }

  // Asking for the position and defining it again later, as when the firmware is replaced, leaves the
  // shutter at most 2 percent of the running time too high and never too low.
  lemma PositionRestored(c: Config, s: State, t: State, group: uint8)
    requires HeedsGroup(c, group) && 0 <= s.laufzeit <= c.laufzeit
    ensures var u := Handle(c, t, DefinePosition(group, Position(c, s.laufzeit)));
            && u == t.(laufzeit := u.laufzeit)
            && s.laufzeit <= u.laufzeit <= c.laufzeit && 100 * (u.laufzeit - s.laufzeit) <= 2 * c.laufzeit
  {
    var p := Position(c, s.laufzeit);
    PositionDefined(c, t, group, p);
    RestoredWithin(s.laufzeit, c.laufzeit, 100 * s.laufzeit / c.laufzeit, p,
                   Handle(c, t, DefinePosition(group, p)).laufzeit);
  }

  lemma RestoredWithin(x: int, l: int, q: int, p: int, y: int)
    requires 0 <= x <= l && l > 0 && q == 100 * x / l && y <= l
    requires p == if q + 1 < 2 then 0 else if q + 1 > 98 then 100 else q + 1
    requires if p >= 99 then y == l else (p + 1) * l - 100 < 100 * y <= (p + 1) * l
    ensures x <= y && 100 * (y - x) <= 2 * l
  {
    var a := QuotientScaled(x, l, q);
    if p < 99 {
      var b := if p > 0 then a + 2 * l else l;
      assert p == q + 1 || (p == 0 && q == 0);
      Between(x, l, a, b, y);
    }
  }

  lemma QuotientScaled(x: int, l: int, q: int) returns (a: int)
    requires 0 <= x <= l && l > 0 && q == 100 * x / l
    ensures a <= 100 * x < a + l && 0 <= q <= 100
    ensures (q + 2) * l == a + 2 * l && (q == 0 ==> a == 0) && (q >= 98 ==> a >= 98 * l)
  {
    QuotientBounds(100 * x, l, 100, 0);
    a := q * l;
    if q >= 98 {
      Scaled(98, q, l);
    }
  }

  lemma Between(x: int, l: int, a: int, b: int, y: int)
    requires a <= 100 * x < a + l && a + l <= b <= a + 2 * l && b - 100 < 100 * y <= b
    ensures x <= y && 100 * (y - x) <= 2 * l
  {
  }
}
