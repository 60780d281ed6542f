// The shutter controller as a state machine: what each CAN command and each 100 ms tick does.
module RolladenModel {
  import opened Words

  datatype Dir = Auf | Ab

  function Opposite(d: Dir): Dir {
    if d == Auf then Ab else Auf
  }

  // The configuration block; a running time of 0 would make the position undefined.
  datatype RawConfig = Config(laufzeit: uint16, maxRekalib: uint16, kalibrierungOben: bool,
                              taster: uint8, gruppen: seq<uint8>, muteId: uint8)

  type Config = c: RawConfig | c.laufzeit > 0 witness Config(1, 0, false, 0, [], 0)

  // `dir` and `power` are the relays; `sollDir` and `sollPower` what they should become, `exeDir` and
  // `exePower` whether they may.  Positions count tenths of a second of running time from the bottom.
  datatype State = State(
    mute: bool, kalibrieren: bool, summeLaufzeit: uint32, laufzeit: int, sollLaufzeit: int,
    dir: Dir, sollDir: Dir, exeDir: bool, lastDir: Dir,
    power: bool, sollPower: bool, exePower: bool,
    blockingTimer: uint8, changeDirCounter: int, longPressedCounter: int)

  datatype Command =
    | PositionSet(group: uint8, value: uint8)
    | TasterDown(group: uint8)
    | TasterUp(group: uint8)
    | DefinePosition(group: uint8, value: uint8)
    | Mute(id: uint8, on: bool)

  datatype Event = Receive(command: Command) | Tick

  predicate InGroup(c: Config, group: uint8) {
    c.taster == group || group in c.gruppen
  }

  // Division as in C, towards zero.
  function Quotient(a: int, b: int): int
    requires b > 0
  {
    if a >= 0 then a / b else -(-a / b)
  }

  function Position(c: Config, laufzeit: int): (pos: uint8)
    ensures pos <= 100
  {
    var pos := Quotient(100 * laufzeit, c.laufzeit) + 1;
    if pos < 2 then 0 else if pos > 98 then 100 else pos
  }

  function Above(c: Config): int {
    c.laufzeit * 150 / 100
  }

  function Below(c: Config): int {
    -(c.laufzeit * 50 / 100)
  }

  function PrepareCalibration(c: Config, s: State): State {
    if s.kalibrieren then
      s.(sollLaufzeit := if s.sollDir == Auf then Above(c) else Below(c))
    else if c.kalibrierungOben then
      if s.sollDir == Auf then s.(sollLaufzeit := Above(c), kalibrieren := true) else s
    else
      if s.sollDir == Ab then s.(sollLaufzeit := Below(c), kalibrieren := true) else s
  }

  function Calibration(c: Config, s: State): State {
    if c.kalibrierungOben then
      if s.sollLaufzeit > c.laufzeit then
        s.(laufzeit := c.laufzeit, summeLaufzeit := 0, kalibrieren := false)
      else s
    else if s.sollLaufzeit < -1 then
      s.(laufzeit := 0, summeLaufzeit := 0, kalibrieren := false)
    else s
  }

  // The end of a drive in an end position, or elsewhere.
  function SettleEnd(c: Config, s: State): State {
    var pos := Position(c, s.laufzeit);
    if pos == 0 || pos == 100 then
      var t := s.(lastDir := Opposite(s.dir), changeDirCounter := -1);
      if t.kalibrieren then Calibration(c, t) else t
    else s.(kalibrieren := false)
  }

  function Halt(s: State): State {
    var t := s.(sollPower := false, exePower := true, sollDir := Auf, sollLaufzeit := -1);
    if t.dir == Ab then t.(blockingTimer := 5, exeDir := false) else t
  }

  function CmdStop(c: Config, s: State): State {
    Halt(SettleEnd(c, s))
  }

  function CmdDrive(s: State): State {
    if s.sollDir == Ab then s.(sollPower := true, exeDir := true, blockingTimer := 5, exePower := false)
    else s.(sollPower := true, exePower := true)
  }

  // The new state, and whether the wanted end position is still to be reached.
  function SetSollLaufzeit(c: Config, s: State, dir: Dir): (State, bool) {
    var target := if dir == Ab then 0 else c.laufzeit;
    if (if dir == Ab then s.laufzeit <= target else s.laufzeit >= target) then
      (s.(sollLaufzeit := -1), false)
    else
      var t := s.(sollLaufzeit := target, sollDir := dir);
      (if t.summeLaufzeit >= c.maxRekalib then PrepareCalibration(c, t) else t, true)
  }

  predicate Blocked(s: State) {
    s.mute || s.blockingTimer != 0
  }

  // Two-button operation, towards one of the end positions.
  function TwoButton(c: Config, s: State, dir: Dir): State {
    if Blocked(s) then s
    else if s.power || s.sollPower then CmdStop(c, s)
    else
      var (t, toReach) := SetSollLaufzeit(c, s, dir);
      if toReach then CmdDrive(t.(longPressedCounter := 10)) else t
  }

  // Clamped to the configured running time.
  function Target(c: Config, percent: uint8): int {
    var t := c.laufzeit * percent / 100;
    if t > c.laufzeit then c.laufzeit else t
  }

  function DriveTo(c: Config, s: State, percent: uint8): State {
    if Blocked(s) then s
    else
      var t := s.(sollLaufzeit := Target(c, percent));
      if t.power || t.sollPower || t.sollLaufzeit == t.laufzeit then t.(sollLaufzeit := -1)
      else CmdDrive(t.(kalibrieren := false, sollDir := if t.sollLaufzeit < t.laufzeit then Ab else Auf))
  }

  function OneButton(c: Config, s: State): State {
    if Blocked(s) then s
    else if s.power then CmdStop(c, s.(changeDirCounter := 7))
    else
      var (t, _) := SetSollLaufzeit(c, s, s.lastDir);
      if t.sollLaufzeit != -1 then CmdDrive(t) else t
  }

  function Handle(c: Config, s: State, cmd: Command): State {
    match cmd
    case PositionSet(group, value) =>
      if !InGroup(c, group) then s
      else if value == 200 then TwoButton(c, s, Ab)
      else if value == 201 then TwoButton(c, s, Auf)
      else if value == 202 then CmdStop(c, s.(longPressedCounter := -1))
      else if value == 222 then s.(longPressedCounter := -1)
      else DriveTo(c, s, value)
    case TasterDown(group) => if InGroup(c, group) then OneButton(c, s) else s
    case TasterUp(group) => if InGroup(c, group) then s.(changeDirCounter := -1) else s
    case DefinePosition(group, value) =>
      if InGroup(c, group) then
        var p := (value + 1) * c.laufzeit / 100;
        s.(laufzeit := if p > c.laufzeit then c.laufzeit else p)
      else s
    case Mute(id, on) => if id == c.muteId then s.(mute := on) else s
  }

  // ---------- The tick, phase by phase ----------

  function CountLongPressed(c: Config, s: State): State {
    if s.longPressedCounter > 0 then s.(longPressedCounter := s.longPressedCounter - 1)
    else if s.longPressedCounter == 0 then PrepareCalibration(c, s).(longPressedCounter := -1)
    else s
  }

  function CountChangeDir(s: State): State {
    if s.changeDirCounter > 0 then s.(changeDirCounter := s.changeDirCounter - 1)
    else if s.changeDirCounter == 0 then s.(lastDir := Opposite(s.lastDir), changeDirCounter := -1)
    else s
  }

  function Arrive(c: Config, s: State): State {
    if (if s.dir == Ab then s.laufzeit <= s.sollLaufzeit else s.laufzeit >= s.sollLaufzeit) then CmdStop(c, s) else s
  }

  function OneTenthOn(s: State): State {
    s.(laufzeit := if s.dir == Ab then s.laufzeit - 1 else s.laufzeit + 1)
  }

  function Counted(s: State): State {
    s.(summeLaufzeit := (s.summeLaufzeit + 1) % 0x1_0000_0000)
  }

  function Move(c: Config, s: State): State {
    if s.power && s.sollPower then Counted(Arrive(c, OneTenthOn(s))) else s
  }

  function Unblock(s: State): State {
    if s.blockingTimer != 0 then s.(blockingTimer := s.blockingTimer - 1)
    else if s.sollPower then s.(exePower := true)
    else s.(exeDir := true)
  }

  function ExecuteDir(s: State): State {
    if s.exeDir && s.dir != s.sollDir then s.(dir := s.sollDir, exeDir := false) else s
  }

  function ExecutePower(s: State): State {
    if s.exePower && s.power != s.sollPower then s.(power := s.sollPower, exePower := false) else s
  }

  function TimerTick(c: Config, s: State): State {
    ExecutePower(ExecuteDir(Unblock(Move(c, CountChangeDir(CountLongPressed(c, s))))))
  }

  function Step(c: Config, s: State, e: Event): State {
    match e
    case Receive(cmd) => Handle(c, s, cmd)
    case Tick => TimerTick(c, s)
  }

  // ---------- Runs ----------

  datatype Relays = Relays(dir: Dir, power: bool)

  function RelaysOf(s: State): Relays {
    Relays(s.dir, s.power)
  }

  // The relays after each tick.
  function Outputs(c: Config, s: State, es: seq<Event>): seq<Relays>
    decreases |es|
  {
    if es == [] then []
    else
      var t := Step(c, s, es[0]);
      (if es[0].Tick? then [RelaysOf(t)] else []) + Outputs(c, t, es[1..])
  }

  // The state after some events.
  function After(c: Config, s: State, es: seq<Event>): State
    decreases |es|
  {
    if es == [] then s else After(c, Step(c, s, es[0]), es[1..])
  }

  // After power-on; the distance counter starts at a 16-bit sum.
  function PowerOn(c: Config): State {
    State(false, true, (c.maxRekalib + 1) % 0x1_0000, c.laufzeit / 2, -1, Auf, Auf, false, Auf,
          false, false, false, 0, -1, -1)
  }

  // Both relays released and nothing asked for; everything else is arbitrary.
  predicate AtRest(s: State) {
    s.dir == Auf && s.sollDir == Auf && !s.power && !s.sollPower
  }
}
