// Relay safety of the shutter controller over all runs, and the exact configurations that have it.
module RolladenSafety {
  import opened Words
  import opened RolladenModel
  import opened Sequences

  // The direction relay is switched on (towards AB) at entry i, respectively released.
  predicate TurnsAb(tr: seq<Relays>, i: int) {
    0 < i < |tr| && tr[i - 1].dir == Auf && tr[i].dir == Ab
  }

  predicate TurnsAuf(tr: seq<Relays>, i: int) {
    0 < i < |tr| && tr[i - 1].dir == Ab && tr[i].dir == Auf
  }

  // The direction relay switches only while the power relay is off; it is released only 5 or more
  // ticks after power went off; and after it was switched on, power stays off for 5 or more ticks.
  ghost predicate Safe(tr: seq<Relays>) {
    && (forall i :: 0 < i < |tr| && tr[i].dir != tr[i - 1].dir ==> !tr[i - 1].power)
    && (forall i, j :: TurnsAuf(tr, i) && i - 5 <= j < i && 0 <= j ==> !tr[j].power)
    && (forall i, j :: TurnsAb(tr, i) && i <= j < i + 5 && j < |tr| ==> !tr[j].power)
  }

  // From every state of rest every run is safe.
  ghost predicate AlwaysSafe(c: Config) {
    forall s: State, es: seq<Event> :: AtRest(s) ==> Safe([RelaysOf(s)] + Outputs(c, s, es))
  }

  // Every run of a device from power-on is safe.
  ghost predicate SafeFromPowerOn(c: Config) {
    forall es: seq<Event> :: Safe([RelaysOf(PowerOn(c))] + Outputs(c, PowerOn(c), es))
  }

  // ---------- The invariant ----------

  // A calibration run to the bottom does not aim at -1, the mark for "no target".
  predicate Calibratable(c: Config) {
    Below(c) != -1
  }

  // The part of the state that decides about the relays.
  datatype Core = Core(dir: Dir, sollDir: Dir, exeDir: bool,
                       power: bool, sollPower: bool, exePower: bool, blocking: uint8)

  function CoreOf(s: State): Core {
    Core(s.dir, s.sollDir, s.exeDir, s.power, s.sollPower, s.exePower, s.blockingTimer)
  }

  predicate Sound(k: Core) {
    && (!k.sollPower ==> k.sollDir == Auf)
    && (k.power && k.exeDir ==> k.dir == k.sollDir)
    && (k.power && !k.sollPower ==> k.exePower && (k.dir == Ab ==> k.blocking == 5 && !k.exeDir))
    && (k.dir == Ab ==> k.blocking <= 5)
    && (k.dir == Ab && k.sollDir == Auf && k.exeDir ==> k.blocking == 0 && !k.power)
    && (k.sollPower && !k.power && k.blocking > 0 ==> !k.exePower)
    && (k.dir == Auf && k.sollDir == Ab ==> k.exeDir && k.blocking == 5 && !k.power && !k.exePower)
  }

  // Power was off at the last n entries.
  ghost predicate OffFor(tr: seq<Relays>, n: nat) {
    forall j: nat :: |tr| - n <= j < |tr| ==> !tr[j].power
  }

  // The direction relay was not switched on in the last n - 1 entries.
  ghost predicate SettledFor(tr: seq<Relays>, n: nat) {
    forall i :: TurnsAb(tr, i) ==> i + n <= |tr|
  }

  // How many ticks ago the lockout in force began.
  function Elapsed(k: Core): nat {
    if k.dir == Ab && !k.power && k.blocking <= 5 then 5 - k.blocking else 5
  }

  ghost predicate Consistent(k: Core, tr: seq<Relays>) {
    && tr != [] && tr[|tr| - 1] == Relays(k.dir, k.power)
    && Sound(k) && Safe(tr)
    && SettledFor(tr, Elapsed(k))
    && (k.dir == Ab && !k.power ==> OffFor(tr, Elapsed(k)))
  }

  lemma SafeExtended(tr: seq<Relays>, r: Relays)
    requires tr != [] && Safe(tr)
    requires tr[|tr| - 1].dir != r.dir ==> !tr[|tr| - 1].power
    requires tr[|tr| - 1].dir == Ab && r.dir == Auf ==> OffFor(tr, 5)
    requires tr[|tr| - 1].dir == Auf && r.dir == Ab ==> !r.power
    requires r.power ==> SettledFor(tr, 5)
    ensures Safe(tr + [r])
  {
    var tr' := tr + [r];
    forall i, j | TurnsAb(tr', i) && i <= j < i + 5 && j < |tr'| ensures !tr'[j].power {
      if i < |tr| {
        assert TurnsAb(tr, i);
      }
    }
    forall i, j | TurnsAuf(tr', i) && i - 5 <= j < i && 0 <= j ensures !tr'[j].power {
      if i < |tr| {
        assert TurnsAuf(tr, i);
      }
    }
  }

  lemma SettledExtended(tr: seq<Relays>, r: Relays, n: nat)
    requires tr != [] && SettledFor(tr, n)
    ensures !(tr[|tr| - 1].dir == Auf && r.dir == Ab) ==> SettledFor(tr + [r], n + 1)
    ensures SettledFor(tr + [r], if n == 0 then 0 else 1)
  {
    var tr' := tr + [r];
    forall i | TurnsAb(tr', i) ensures i < |tr| ==> TurnsAb(tr, i) {
    }
  }

  // ---------- Commands keep the relays and the invariant ----------

  function StopCore(k: Core): Core {
    var t := k.(sollPower := false, exePower := true, sollDir := Auf);
    if t.dir == Ab then t.(blocking := 5, exeDir := false) else t
  }

  function DriveCore(k: Core, dir: Dir): Core {
    if dir == Ab then k.(sollDir := Ab, sollPower := true, exeDir := true, blocking := 5, exePower := false)
    else k.(sollDir := Auf, sollPower := true, exePower := true)
  }

  lemma StopIsCore(c: Config, s: State)
    ensures CoreOf(CmdStop(c, s)) == StopCore(CoreOf(s))
  {
  }

  lemma SetSollIsCore(c: Config, s: State, dir: Dir)
    requires Calibratable(c)
    ensures var (t, toReach) := SetSollLaufzeit(c, s, dir);
            && CoreOf(t) == CoreOf(s).(sollDir := if toReach then dir else s.sollDir)
            && (toReach <==> t.sollLaufzeit != -1)
  {
  }

  // Every command stops, starts a drive while nothing is blocked and the power relay is off, or
  // leaves the relays and what is asked of them alone.
  predicate CommandCore(k: Core, t: Core) {
    || t == k
    || t == StopCore(k)
    || (k.blocking == 0 && !k.power && exists dir :: t == DriveCore(k, dir))
  }

  lemma TwoButtonIsCore(c: Config, s: State, dir: Dir)
    requires Calibratable(c)
    ensures CommandCore(CoreOf(s), CoreOf(TwoButton(c, s, dir)))
  {
    StopIsCore(c, s);
    SetSollIsCore(c, s, dir);
    var (t, toReach) := SetSollLaufzeit(c, s, dir);
    if toReach {
      assert CoreOf(CmdDrive(t.(longPressedCounter := 10))) == DriveCore(CoreOf(s), dir);
    }
  }

  lemma OneButtonIsCore(c: Config, s: State)
    requires Calibratable(c)
    ensures CommandCore(CoreOf(s), CoreOf(OneButton(c, s)))
  {
    StopIsCore(c, s.(changeDirCounter := 7));
    SetSollIsCore(c, s, s.lastDir);
    var (t, toReach) := SetSollLaufzeit(c, s, s.lastDir);
    if toReach {
      assert CoreOf(CmdDrive(t)) == DriveCore(CoreOf(s), s.lastDir);
    }
  }

  lemma DriveToIsCore(c: Config, s: State, percent: uint8)
    ensures CommandCore(CoreOf(s), CoreOf(DriveTo(c, s, percent)))
  {
    var dir := if Target(c, percent) < s.laufzeit then Ab else Auf;
    assert CoreOf(CmdDrive(s.(sollLaufzeit := Target(c, percent), kalibrieren := false, sollDir := dir)))
        == DriveCore(CoreOf(s), dir);
  }

  lemma HandleIsCore(c: Config, s: State, cmd: Command)
    requires Calibratable(c)
    ensures CommandCore(CoreOf(s), CoreOf(Handle(c, s, cmd)))
  {
    match cmd
    case PositionSet(group, value) =>
      TwoButtonIsCore(c, s, Ab);
      TwoButtonIsCore(c, s, Auf);
      StopIsCore(c, s.(longPressedCounter := -1));
      DriveToIsCore(c, s, value);
    case TasterDown(group) => OneButtonIsCore(c, s);
    case TasterUp(_) =>
    case DefinePosition(_, _) =>
    case Mute(_, _) =>
  }

  lemma CommandKeeps(k: Core, t: Core, tr: seq<Relays>)
    requires CommandCore(k, t) && Consistent(k, tr)
    ensures Consistent(t, tr)
  {
    assert t.dir == k.dir && t.power == k.power && Elapsed(t) <= Elapsed(k);
  }

  // ---------- Ticks ----------

  function UnblockCore(k: Core): Core {
    if k.blocking != 0 then k.(blocking := k.blocking - 1)
    else if k.sollPower then k.(exePower := true)
    else k.(exeDir := true)
  }

  function ExecuteDirCore(k: Core): Core {
    if k.exeDir && k.dir != k.sollDir then k.(dir := k.sollDir, exeDir := false) else k
  }

  function ExecutePowerCore(k: Core): Core {
    if k.exePower && k.power != k.sollPower then k.(power := k.sollPower, exePower := false) else k
  }

  // A tick, `stop` telling whether the end position is reached.
  function TickCore(k: Core, stop: bool): Core {
    ExecutePowerCore(ExecuteDirCore(UnblockCore(if stop then StopCore(k) else k)))
  }

  // Where the shutter is after the tick that starts in s, and whether that is the end of the drive.
  function MovedTo(s: State): int {
    if !(s.power && s.sollPower) then s.laufzeit
    else if s.dir == Ab then s.laufzeit - 1 else s.laufzeit + 1
  }

  predicate Reached(s: State) {
    s.power && s.sollPower && if s.dir == Ab then MovedTo(s) <= s.sollLaufzeit else MovedTo(s) >= s.sollLaufzeit
  }

  lemma MoveIsCore(c: Config, s: State)
    ensures CoreOf(Move(c, s)) == if Reached(s) then StopCore(CoreOf(s)) else CoreOf(s)
  {
    StopIsCore(c, s.(laufzeit := MovedTo(s)));
  }

  lemma LongPressedIsCore(c: Config, s: State)
    ensures CoreOf(CountLongPressed(c, s)) == CoreOf(s)
  {
  }

  lemma ChangeDirIsCore(s: State)
    ensures CoreOf(CountChangeDir(s)) == CoreOf(s)
  {
  }

  lemma UnblockIsCore(s: State)
    ensures CoreOf(Unblock(s)) == UnblockCore(CoreOf(s))
  {
  }

  lemma ExecuteIsCore(s: State)
    ensures CoreOf(ExecuteDir(s)) == ExecuteDirCore(CoreOf(s))
    ensures CoreOf(ExecutePower(s)) == ExecutePowerCore(CoreOf(s))
  {
  }

  lemma TickIsCore(c: Config, s: State) returns (stop: bool)
    ensures stop ==> s.power && s.sollPower
    ensures CoreOf(TimerTick(c, s)) == TickCore(CoreOf(s), stop)
  {
    var t := CountLongPressed(c, s);
    LongPressedIsCore(c, s);
    var u := CountChangeDir(t);
    ChangeDirIsCore(t);
    stop := Reached(u);
    MoveIsCore(c, u);
    ExecutedIsCore(Move(c, u));
  }

  lemma ExecutedIsCore(s: State)
    ensures CoreOf(ExecutePower(ExecuteDir(Unblock(s)))) == ExecutePowerCore(ExecuteDirCore(UnblockCore(CoreOf(s))))
  {
    UnblockIsCore(s);
    ExecuteIsCore(Unblock(s));
    ExecuteIsCore(ExecuteDir(Unblock(s)));
  }

  lemma TickCoreSound(k: Core, stop: bool)
    requires Sound(k) && (stop ==> k.power && k.sollPower)
    ensures var t := TickCore(k, stop);
            && Sound(t)
            && (t.dir != k.dir ==> !k.power)
            && (k.dir == Ab && t.dir == Auf ==> k.blocking == 0)
            && (k.dir == Auf && t.dir == Ab ==> !t.power && t.blocking == 4)
            && (t.power ==> Elapsed(k) == 5)
            && (t.dir == Ab && !t.power && k.dir == Ab ==> 5 - t.blocking <= if k.power then 1 else 6 - k.blocking)
  {
  }

  lemma TickKeeps(k: Core, stop: bool, tr: seq<Relays>)
    requires Consistent(k, tr) && (stop ==> k.power && k.sollPower)
    ensures Consistent(TickCore(k, stop), tr + [Relays(TickCore(k, stop).dir, TickCore(k, stop).power)])
  {
    var t := TickCore(k, stop);
    var r := Relays(t.dir, t.power);
    TickCoreSound(k, stop);
    SafeExtended(tr, r);
    SettledExtended(tr, r, Elapsed(k));
  }

  // ---------- Runs ----------

  lemma {:induction false} RunKeeps(c: Config, s: State, es: seq<Event>, tr: seq<Relays>)
    requires Calibratable(c) && Consistent(CoreOf(s), tr)
    ensures Safe(tr + Outputs(c, s, es))
    decreases |es|
  {
    if es == [] {
      assert tr + [] == tr;
    } else {
      var t := Step(c, s, es[0]);
      match es[0]
      case Receive(cmd) =>
        HandleIsCore(c, s, cmd);
        CommandKeeps(CoreOf(s), CoreOf(t), tr);
        RunKeeps(c, t, es[1..], tr);
        assert [] + Outputs(c, t, es[1..]) == Outputs(c, t, es[1..]);
      case Tick =>
        var stop := TickIsCore(c, s);
        TickKeeps(CoreOf(s), stop, tr);
        RunKeeps(c, t, es[1..], tr + [RelaysOf(t)]);
        assert tr + ([RelaysOf(t)] + Outputs(c, t, es[1..])) == tr + [RelaysOf(t)] + Outputs(c, t, es[1..]);
    }
  }

  lemma CalibratableIsSafe(c: Config)
    requires Calibratable(c)
    ensures AlwaysSafe(c)
  {
    forall s: State, es: seq<Event> | AtRest(s) ensures Safe([RelaysOf(s)] + Outputs(c, s, es)) {
      RunKeeps(c, s, es, [RelaysOf(s)]);
    }
  }

  // ---------- Configurations that are not safe ----------

  lemma {:induction false} AfterConcat(c: Config, s: State, a: seq<Event>, b: seq<Event>)
    ensures After(c, s, a + b) == After(c, After(c, s, a), b)
    ensures Outputs(c, s, a + b) == Outputs(c, s, a) + Outputs(c, After(c, s, a), b)
    decreases |a|
  {
    if a == [] {
      assert [] + b == b;
    } else {
      TailOfConcat(a, b);
      AfterConcat(c, Step(c, s, a[0]), a[1..], b);
      Associative(if a[0].Tick? then [RelaysOf(Step(c, s, a[0]))] else [],
                  Outputs(c, Step(c, s, a[0]), a[1..]), Outputs(c, After(c, s, a), b));
    }
  }

  lemma SetSollKeepsRelays(c: Config, s: State, dir: Dir)
    ensures RelaysOf(SetSollLaufzeit(c, s, dir).0) == RelaysOf(s)
  {
  }

  lemma TwoButtonKeepsRelays(c: Config, s: State, dir: Dir)
    ensures RelaysOf(TwoButton(c, s, dir)) == RelaysOf(s)
  {
    StopIsCore(c, s);
    SetSollKeepsRelays(c, s, dir);
  }

  lemma OneButtonKeepsRelays(c: Config, s: State)
    ensures RelaysOf(OneButton(c, s)) == RelaysOf(s)
  {
    StopIsCore(c, s.(changeDirCounter := 7));
    SetSollKeepsRelays(c, s, s.lastDir);
  }

  lemma PositionSetKeepsRelays(c: Config, s: State, value: uint8)
    ensures RelaysOf(Handle(c, s, PositionSet(c.taster, value))) == RelaysOf(s)
  {
    if value == 200 {
      TwoButtonKeepsRelays(c, s, Ab);
    } else if value == 201 {
      TwoButtonKeepsRelays(c, s, Auf);
    } else if value == 202 {
      StopIsCore(c, s.(longPressedCounter := -1));
    } else {
      DriveToIsCore(c, s, value);
    }
  }

  lemma HandleKeepsRelays(c: Config, s: State, cmd: Command)
    ensures RelaysOf(Handle(c, s, cmd)) == RelaysOf(s)
  {
    match cmd
    case PositionSet(_, value) => PositionSetKeepsRelays(c, s, value);
    case TasterDown(_) => OneButtonKeepsRelays(c, s);
    case _ =>
  }

  // The last entry shows the relays as they are.
  lemma {:induction false} LastEntry(c: Config, s: State, es: seq<Event>)
    ensures var tr := [RelaysOf(s)] + Outputs(c, s, es); tr[|tr| - 1] == RelaysOf(After(c, s, es))
    decreases |es|
  {
    if es != [] {
      var t := Step(c, s, es[0]);
      LastEntry(c, t, es[1..]);
      if es[0].Receive? {
        HandleKeepsRelays(c, s, es[0].command);
      }
    }
  }

  // A device at rest near the bottom whose next press of the one button aims at -1.
  predicate Trapped(c: Config, s: State) {
    && AtRest(s) && s.blockingTimer == 0 && s.kalibrieren && s.summeLaufzeit >= c.maxRekalib
    && s.laufzeit == 1 && s.lastDir == Ab && s.changeDirCounter == -1 && s.longPressedCounter == -1 && !s.mute
  }

  // The press turns the direction relay without starting a drive, and the next drive powers the motor
  // one tick later.
  function Trap(c: Config): seq<Event> {
    [Receive(TasterDown(c.taster)), Tick, Receive(PositionSet(c.taster, 201)), Tick]
  }

  lemma TrapOutputs(c: Config, s: State)
    requires !Calibratable(c) && Trapped(c, s)
    ensures Outputs(c, s, Trap(c)) == [Relays(Ab, false), Relays(Ab, true)]
  {
    var es := Trap(c);
    var s1 := Handle(c, s, TasterDown(c.taster));
    assert s1 == s.(sollDir := Ab, sollLaufzeit := -1);
    var s2 := TimerTick(c, s1);
    assert RelaysOf(s2) == Relays(Ab, false);
    var s3 := Handle(c, s2, PositionSet(c.taster, 201));
    assert s3.sollPower && s3.exePower && s3.sollDir == Auf && !s3.exeDir;
    var s4 := TimerTick(c, s3);
    assert RelaysOf(s4) == Relays(Ab, true);
    assert es[1..] == [Tick, Receive(PositionSet(c.taster, 201)), Tick];
    assert es[1..][1..] == [Receive(PositionSet(c.taster, 201)), Tick];
    assert es[1..][1..][1..] == [Tick];
    assert Outputs(c, s3, [Tick]) == [RelaysOf(s4)];
    assert Outputs(c, s2, es[1..][1..]) == [] + [RelaysOf(s4)];
    assert Outputs(c, s1, es[1..]) == [RelaysOf(s2)] + [RelaysOf(s4)];
    assert Outputs(c, s, es) == [] + ([RelaysOf(s2)] + [RelaysOf(s4)]);
  }

  lemma TrapSprings(c: Config, es: seq<Event>)
    requires !Calibratable(c) && Trapped(c, After(c, PowerOn(c), es))
    ensures !SafeFromPowerOn(c)
  {
    var s := PowerOn(c);
    var before := [RelaysOf(s)] + Outputs(c, s, es);
    AfterConcat(c, s, es, Trap(c));
    TrapOutputs(c, After(c, s, es));
    LastEntry(c, s, es);
    var tr := [RelaysOf(s)] + Outputs(c, s, es + Trap(c));
    assert tr == before + [Relays(Ab, false), Relays(Ab, true)];
    assert TurnsAb(tr, |before|) && tr[|before| + 1].power;
  }

  // A calibration is due at power-on: the bottom position, defined, and a halt turn the one button down.
  lemma QuickWay(c: Config) returns (es: seq<Event>)
    requires !Calibratable(c) && c.maxRekalib < 0xFFFF
    ensures Trapped(c, After(c, PowerOn(c), es))
  {
    var g := c.taster;
    es := [Receive(DefinePosition(g, 0)), Receive(PositionSet(g, 202)), Receive(DefinePosition(g, 50))];
    var s1 := Handle(c, PowerOn(c), DefinePosition(g, 0));
    assert s1 == PowerOn(c).(laufzeit := 0);
    var s2 := Handle(c, s1, PositionSet(g, 202));
    assert s2 == s1.(lastDir := Ab, exePower := true);
    var s3 := Handle(c, s2, DefinePosition(g, 50));
    assert s3 == s2.(laufzeit := 1);
    ThreeEvents(c, PowerOn(c), es);
  }

  lemma ThreeEvents(c: Config, s: State, es: seq<Event>)
    requires |es| == 3
    ensures After(c, s, es) == Step(c, Step(c, Step(c, s, es[0]), es[1]), es[2])
  {
    var t := Step(c, s, es[0]);
    assert After(c, s, es) == After(c, t, es[1..]);
    assert After(c, t, es[1..]) == After(c, Step(c, t, es[1]), es[1..][1..]);
    assert es[1..][1..] == [es[2]];
    assert [es[2]][1..] == [];
  }

  // The other devices first have to cover the distance: a drive upwards that never arrives, because the
  // bottom position is defined again and again.
  predicate Climbing(c: Config, s: State, summe: uint32) {
    && s.dir == Auf && s.sollDir == Auf && s.power && s.sollPower && s.blockingTimer == 0
    && s.kalibrieren && s.summeLaufzeit == summe && s.sollLaufzeit == c.laufzeit && 0 <= s.laufzeit <= 1
    && s.lastDir == Auf && s.changeDirCounter == -1 && s.longPressedCounter == -1 && !s.mute
  }

  function Climb(c: Config): seq<Event> {
    [Receive(DefinePosition(c.taster, 0)), Tick]
  }

  lemma ClimbStarts(c: Config)
    requires !Calibratable(c) && c.maxRekalib == 0xFFFF
    ensures Climbing(c, After(c, PowerOn(c), [Receive(TasterDown(c.taster)), Tick]), 0)
  {
    TwoEvents(c, PowerOn(c), [Receive(TasterDown(c.taster)), Tick]);
    var t := Handle(c, PowerOn(c), TasterDown(c.taster));
    assert t == PowerOn(c).(sollLaufzeit := c.laufzeit, sollPower := true, exePower := true);
  }

  lemma TwoEvents(c: Config, s: State, es: seq<Event>)
    requires |es| == 2
    ensures After(c, s, es) == Step(c, Step(c, s, es[0]), es[1])
  {
    assert After(c, s, es) == After(c, Step(c, s, es[0]), es[1..]);
    assert es[1..] == [es[1]] && [es[1]][1..] == [];
  }

  lemma ClimbOn(c: Config, s: State, summe: uint32)
    requires !Calibratable(c) && Climbing(c, s, summe) && summe < 0xFFFF
    ensures Climbing(c, After(c, s, Climb(c)), summe + 1)
  {
    TwoEvents(c, s, Climb(c));
    var t := Handle(c, s, DefinePosition(c.taster, 0));
    assert t == s.(laufzeit := 0);
    var u := Move(c, t);
    assert u == t.(laufzeit := 1, summeLaufzeit := summe + 1);
  }

  lemma {:induction false} ClimbFar(c: Config, s: State, summe: nat) returns (es: seq<Event>)
    requires !Calibratable(c) && Climbing(c, s, 0) && summe <= 0xFFFF
    ensures Climbing(c, After(c, s, es), summe)
  {
    if summe == 0 {
      es := [];
    } else {
      var before := ClimbFar(c, s, summe - 1);
      es := before + Climb(c);
      AfterConcat(c, s, before, Climb(c));
      ClimbOn(c, After(c, s, before), summe - 1);
    }
  }

  lemma ClimbEnds(c: Config, s: State)
    requires !Calibratable(c) && Climbing(c, s, 0xFFFF)
    ensures var g := c.taster;
            Trapped(c, After(c, After(c, s, [Receive(DefinePosition(g, 0)), Receive(PositionSet(g, 202))]),
                             [Tick, Receive(DefinePosition(g, 50))]))
  {
    var g := c.taster;
    TwoEvents(c, s, [Receive(DefinePosition(g, 0)), Receive(PositionSet(g, 202))]);
    var t := Handle(c, s, DefinePosition(g, 0));
    assert t == s.(laufzeit := 0);
    var u := Handle(c, t, PositionSet(g, 202));
    assert u == t.(lastDir := Ab, sollPower := false, exePower := true, sollLaufzeit := -1);
    TwoEvents(c, u, [Tick, Receive(DefinePosition(g, 50))]);
    assert AtRest(TimerTick(c, u));
  }

  lemma LongWay(c: Config) returns (es: seq<Event>)
    requires !Calibratable(c) && c.maxRekalib == 0xFFFF
    ensures Trapped(c, After(c, PowerOn(c), es))
  {
    var g := c.taster;
    var start := [Receive(TasterDown(g)), Tick];
    var halt := [Receive(DefinePosition(g, 0)), Receive(PositionSet(g, 202))];
    var rest := [Tick, Receive(DefinePosition(g, 50))];
    var s := After(c, PowerOn(c), start);
    ClimbStarts(c);
    var climb := ClimbFar(c, s, 0xFFFF);
    ClimbEnds(c, After(c, s, climb));
    AfterConcat(c, PowerOn(c), start, climb);
    AfterConcat(c, PowerOn(c), start + climb, halt);
    AfterConcat(c, PowerOn(c), start + climb + halt, rest);
    es := start + climb + halt + rest;
  }

  // With a calibration run to the bottom that aims at -1, some run from power-on breaks the rules.
  lemma NotCalibratableIsUnsafe(c: Config)
    requires !Calibratable(c)
    ensures !SafeFromPowerOn(c) && !AlwaysSafe(c)
  {
    var es;
    if c.maxRekalib < 0xFFFF {
      es := QuickWay(c);
    } else {
      es := LongWay(c);
    }
    TrapSprings(c, es);
  }

  // The relays are safe over all runs from rest, and over all runs from power-on, exactly when the
  // configured running time is neither 2 nor 3.
  lemma AlwaysSafeIff(c: Config)
    ensures AlwaysSafe(c) <==> c.laufzeit != 2 && c.laufzeit != 3
    ensures SafeFromPowerOn(c) <==> c.laufzeit != 2 && c.laufzeit != 3
  {
    if Calibratable(c) {
      CalibratableIsSafe(c);
    } else {
      NotCalibratableIsUnsafe(c);
    }
  }
}
