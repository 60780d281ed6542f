// An undisturbed position command: how long the motor is powered, where the shutter ends up, and
// what position is then reported.
module RolladenDrive {
  import opened Words
  import opened RolladenModel
  import opened RolladenSafety

  // At rest, with no timer running and accepting commands.
  predicate Idle(s: State) {
    AtRest(s) && s.blockingTimer == 0 && s.longPressedCounter == -1 && !s.mute
  }

  function Ticks(n: nat): seq<Event> {
    seq(n, _ => Tick)
  }

  function Distance(a: int, b: int): nat {
    if a < b then b - a else a - b
  }

  // The relays after tick k (from 1 on) of a drive over n tenths of a second.
  function Expected(dir: Dir, n: nat, k: nat): Relays {
    if dir == Auf then Relays(Auf, 1 <= k <= n)
    else Relays(if 1 <= k <= n + 10 then Ab else Auf, 6 <= k <= n + 5)
  }

  // The first tick of a drive in which power is on.
  function First(dir: Dir): nat { if dir == Auf then 1 else 6 }

  // A drive: where it begins, what it aims at, whether a calibration is due at its end, the distance
  // counted before it, and the direction the one button would drive in next.  `steady` tells that no
  // held button is about to change that direction.
  datatype Trip = Trip(dir: Dir, from: int, soll: int, cal: bool, summe: uint32, last: Dir, steady: bool)

  predicate Directed(p: Trip) {
    if p.dir == Auf then p.from < p.soll else p.soll < p.from
  }

  function Length(p: Trip): nat {
    Distance(p.from, p.soll)
  }

  // The tick in which power goes off.
  function Last(p: Trip): nat {
    First(p.dir) + Length(p)
  }

  // Counts as an end position.
  predicate AtEnd(c: Config, laufzeit: int) {
    Position(c, laufzeit) == 0 || Position(c, laufzeit) == 100
  }

  // Stopping in an end position, aimed beyond the end that is configured for calibration.
  predicate Calibrates(c: Config, cal: bool, at: int, soll: int) {
    cal && AtEnd(c, at) && if c.kalibrierungOben then soll > c.laufzeit else soll < -1
  }

  function CalibratedEnd(c: Config): int {
    if c.kalibrierungOben then c.laufzeit else 0
  }

  // The shutter has come to a stop at `at`, having aimed at `soll`.
  ghost predicate Settled(c: Config, cal: bool, at: int, soll: int, summe: int, last: Dir, dir: Dir, t: State) {
    && t.laufzeit == (if Calibrates(c, cal, at, soll) then CalibratedEnd(c) else at)
    && t.kalibrieren == (cal && AtEnd(c, at) && !Calibrates(c, cal, at, soll))
    && t.summeLaufzeit == (if Calibrates(c, cal, at, soll) then 0 else summe)
    && (AtEnd(c, at) ==> t.lastDir == Opposite(dir) && t.changeDirCounter == -1)
    && (!AtEnd(c, at) ==> t.lastDir == last)
  }

  lemma SettleEndSettles(c: Config, s: State)
    ensures var t := SettleEnd(c, s);
            && Settled(c, s.kalibrieren, s.laufzeit, s.sollLaufzeit, s.summeLaufzeit, s.lastDir, s.dir, t)
            && (!AtEnd(c, s.laufzeit) ==> t.changeDirCounter == s.changeDirCounter)
            && t.mute == s.mute && t.longPressedCounter == s.longPressedCounter
  {
  }

  lemma HaltEffect(s: State)
    ensures var t := Halt(s); SameDrive(s.(sollLaufzeit := -1), t)
  {
  }

  lemma StopSettles(c: Config, s: State)
    ensures var t := CmdStop(c, s);
            && Settled(c, s.kalibrieren, s.laufzeit, s.sollLaufzeit, s.summeLaufzeit, s.lastDir, s.dir, t)
            && (!AtEnd(c, s.laufzeit) ==> t.changeDirCounter == s.changeDirCounter)
            && t.mute == s.mute && t.longPressedCounter == s.longPressedCounter && t.sollLaufzeit == -1
  {
    SettleEndSettles(c, s);
    HaltEffect(SettleEnd(c, s));
  }

  // What a drive depends on beside the relays and timers.
  predicate SameDrive(s: State, t: State) {
    && t.laufzeit == s.laufzeit && t.sollLaufzeit == s.sollLaufzeit && t.summeLaufzeit == s.summeLaufzeit
    && t.kalibrieren == s.kalibrieren && t.longPressedCounter == s.longPressedCounter
    && t.lastDir == s.lastDir && t.changeDirCounter == s.changeDirCounter && t.mute == s.mute
  }

  lemma ExecutedEffect(s: State)
    ensures SameDrive(s, ExecutePower(ExecuteDir(Unblock(s))))
  {
    assert SameDrive(s, Unblock(s));
    assert SameDrive(Unblock(s), ExecuteDir(Unblock(s)));
  }

  // One tenth of a second more.
  function CountedOn(s: State): uint32 {
    if s.power && s.sollPower then (s.summeLaufzeit + 1) % 0x1_0000_0000 else s.summeLaufzeit
  }

  ghost predicate Moved(c: Config, s: State, t: State) {
    && t.longPressedCounter == s.longPressedCounter && t.mute == s.mute
    && (!AtEnd(c, MovedTo(s)) || !Reached(s) ==> t.lastDir == s.lastDir && t.changeDirCounter == s.changeDirCounter)
    && (if Reached(s) then
          exists u :: t == Counted(u) &&
            Settled(c, s.kalibrieren, MovedTo(s), s.sollLaufzeit, s.summeLaufzeit, s.lastDir, s.dir, u)
        else
          && t.laufzeit == MovedTo(s) && t.sollLaufzeit == s.sollLaufzeit && t.kalibrieren == s.kalibrieren
          && t.summeLaufzeit == CountedOn(s))
  }

  lemma MoveEffect(c: Config, s: State)
    ensures Moved(c, s, Move(c, s))
  {
    if Reached(s) {
      var u := s.(laufzeit := MovedTo(s));
      StopSettles(c, u);
      assert Move(c, s) == Counted(CmdStop(c, u));
    }
  }

  // The tick after the long-press timer.
  function RestOfTick(c: Config, s: State): State {
    ExecutePower(ExecuteDir(Unblock(Move(c, CountChangeDir(s)))))
  }

  lemma TickIsRest(c: Config, s: State)
    ensures TimerTick(c, s) == RestOfTick(c, CountLongPressed(c, s))
    ensures s.longPressedCounter == -1 ==> CountLongPressed(c, s) == s
  {
  }

  // What it does: v is the state after the motion.
  lemma TickEffect(c: Config, s: State) returns (v: State)
    ensures CoreOf(RestOfTick(c, s)) == TickCore(CoreOf(s), Reached(s))
    ensures Moved(c, CountChangeDir(s), v) && SameDrive(v, RestOfTick(c, s))
  {
    var u := CountChangeDir(s);
    v := Move(c, u);
    ChangeDirIsCore(s);
    ChangeDirEffect(s);
    MoveIsCore(c, u);
    MoveEffect(c, u);
    ExecutedIsCore(v);
    ExecutedEffect(v);
  }

  // The relays and timers after tick k of a drive.
  function DriveCoreAt(p: Trip, k: nat, exeDir: bool, exePower: bool): Core {
    var r, n := Expected(p.dir, Length(p), k), Length(p);
    var going := k < Last(p);
    var blocking :=
      if p.dir == Auf then 0
      else if k <= 5 then 5 - k
      else if n + 6 <= k <= n + 10 then n + 10 - k
      else 0;
    Core(r.dir, if going then p.dir else Auf, exeDir, r.power, going, exePower, blocking)
  }

  // How far the shutter has come in tick k.
  function Gone(p: Trip, k: nat): nat {
    if k <= First(p.dir) then 0 else k - First(p.dir)
  }

  function Summed(summe: uint32, n: nat): uint32 {
    (summe + n) % 0x1_0000_0000
  }

  // Position, target and counters while the drive goes on, and after its end.
  ghost predicate PlaceAt(c: Config, p: Trip, k: nat, t: State) {
    if k < Last(p) then
      && t.laufzeit == (if p.dir == Auf then p.from + Gone(p, k) else p.from - Gone(p, k))
      && t.sollLaufzeit == p.soll && t.kalibrieren == p.cal
      && t.summeLaufzeit == Summed(p.summe, Gone(p, k))
      && (p.steady ==> t.lastDir == p.last)
    else
      Rests(c, p, t)
  }

  // The shutter has come to rest: at the target, unless it has been calibrated there.
  ghost predicate Rests(c: Config, p: Trip, t: State) {
    var calibrated := Calibrates(c, p.cal, p.soll, p.soll);
    && t.laufzeit == (if calibrated then CalibratedEnd(c) else p.soll)
    && t.kalibrieren == (p.cal && AtEnd(c, p.soll) && !calibrated)
    && t.summeLaufzeit == (if calibrated then 1 else Summed(p.summe, Length(p)))
    && (AtEnd(c, p.soll) ==> t.lastDir == Opposite(p.dir) && t.changeDirCounter == -1)
    && (!AtEnd(c, p.soll) && p.steady ==> t.lastDir == p.last)
  }

  ghost predicate FlagsAt(p: Trip, k: nat, exeDir: bool, exePower: bool) {
    p.dir == Ab ==>
      (k == 0 ==> exeDir) && (1 <= k <= Length(p) + 10 ==> !exeDir) && (k <= 5 ==> !exePower)
  }

  // The relays and timers after tick k of a drive.
  ghost predicate RelaysAt(p: Trip, k: nat, core: Core) {
    core == DriveCoreAt(p, k, core.exeDir, core.exePower) && FlagsAt(p, k, core.exeDir, core.exePower)
  }

  ghost predicate Underway(c: Config, p: Trip, k: nat, t: State) {
    && RelaysAt(p, k, CoreOf(t))
    && (p.steady ==> t.changeDirCounter == -1)
    && PlaceAt(c, p, k, t)
  }

  // The state after tick k of a drive.
  ghost predicate DrivingAt(c: Config, p: Trip, k: nat, t: State) {
    Underway(c, p, k, t) && t.longPressedCounter == -1
  }

  lemma RelaysStep(p: Trip, k: nat, core: Core)
    requires Directed(p) && RelaysAt(p, k, core)
    ensures RelaysAt(p, k + 1, TickCore(core, k + 1 == Last(p)))
  {
  }

  lemma ReachedAt(c: Config, p: Trip, k: nat, t: State)
    requires Directed(p) && Underway(c, p, k, t)
    ensures Reached(t) <==> k + 1 == Last(p)
    ensures t.power && t.sollPower <==> First(p.dir) <= k < Last(p)
    ensures t.power && t.sollPower ==> t.dir == p.dir
  {
  }

  lemma SummedOn(summe: uint32, n: nat)
    ensures (Summed(summe, n) + 1) % 0x1_0000_0000 == Summed(summe, n + 1)
  {
  }

  lemma ChangeDirEffect(s: State)
    ensures var t := CountChangeDir(s);
            && t == s.(changeDirCounter := t.changeDirCounter, lastDir := t.lastDir)
            && (s.changeDirCounter == -1 ==> t == s)
  {
  }

  lemma PlaceGoesOn(c: Config, p: Trip, k: nat, t: State, u: State, v: State)
    requires Directed(p) && Underway(c, p, k, t) && k + 1 < Last(p)
    requires u == CountChangeDir(t) && Moved(c, u, v)
    ensures v.longPressedCounter == t.longPressedCounter && (p.steady ==> v.changeDirCounter == -1)
    ensures PlaceAt(c, p, k + 1, v)
  {
    ReachedAt(c, p, k, t);
    ChangeDirEffect(t);
    SummedOn(p.summe, Gone(p, k));
    assert !Reached(u);
  }

  lemma PlaceIsReached(c: Config, p: Trip, k: nat, t: State, u: State, v: State)
    requires Directed(p) && Underway(c, p, k, t) && k + 1 == Last(p)
    requires u == CountChangeDir(t) && Moved(c, u, v)
    ensures v.longPressedCounter == t.longPressedCounter && (p.steady ==> v.changeDirCounter == -1) && Rests(c, p, v)
  {
    ReachedAt(c, p, k, t);
    ChangeDirEffect(t);
    SummedOn(p.summe, Gone(p, k));
    assert Reached(u) && MovedTo(u) == p.soll && Gone(p, k) + 1 == Length(p);
  }

  lemma PlaceRests(c: Config, p: Trip, k: nat, t: State, u: State, v: State)
    requires Directed(p) && Underway(c, p, k, t) && k >= Last(p)
    requires u == CountChangeDir(t) && Moved(c, u, v)
    ensures v.longPressedCounter == t.longPressedCounter && (p.steady ==> v.changeDirCounter == -1) && Rests(c, p, v)
  {
    ReachedAt(c, p, k, t);
    ChangeDirEffect(t);
    assert !Reached(u);
  }

  lemma RestStep(c: Config, p: Trip, k: nat, t: State)
    requires Directed(p) && Underway(c, p, k, t)
    ensures var w := RestOfTick(c, t); Underway(c, p, k + 1, w) && w.longPressedCounter == t.longPressedCounter
  {
    var u := CountChangeDir(t);
    var v := TickEffect(c, t);
    ReachedAt(c, p, k, t);
    RelaysStep(p, k, CoreOf(t));
    if k + 1 < Last(p) {
      PlaceGoesOn(c, p, k, t, u, v);
    } else if k + 1 == Last(p) {
      PlaceIsReached(c, p, k, t, u, v);
    } else {
      PlaceRests(c, p, k, t, u, v);
    }
  }

  lemma DriveStep(c: Config, p: Trip, k: nat, t: State)
    requires Directed(p) && DrivingAt(c, p, k, t)
    ensures DrivingAt(c, p, k + 1, TimerTick(c, t))
  {
    TickIsRest(c, t);
    RestStep(c, p, k, t);
  }

  // ---------- The whole drive ----------

  // The first of n ticks, leading to t.
  ghost predicate TickTo(c: Config, s: State, n: nat, t: State)
    requires n > 0
  {
    && Outputs(c, s, Ticks(n)) == [RelaysOf(t)] + Outputs(c, t, Ticks(n - 1))
    && After(c, s, Ticks(n)) == After(c, t, Ticks(n - 1))
  }

  lemma FirstTick(c: Config, s: State, n: nat)
    requires n > 0
    ensures TickTo(c, s, n, TimerTick(c, s))
  {
    assert Ticks(n)[1..] == Ticks(n - 1);
  }

  lemma NoTicks(c: Config, s: State)
    ensures After(c, s, Ticks(0)) == s && Outputs(c, s, Ticks(0)) == []
  {
  }

  lemma DriveTick(c: Config, p: Trip, s: State, k: nat, n: nat) returns (t: State)
    requires Directed(p) && DrivingAt(c, p, k, s) && n > 0
    ensures DrivingAt(c, p, k + 1, t) && RelaysOf(t) == Expected(p.dir, Length(p), k + 1)
    ensures TickTo(c, s, n, t)
  {
    t := TimerTick(c, s);
    DriveStep(c, p, k, s);
    FirstTick(c, s, n);
  }

  lemma {:induction false} DriveEnds(c: Config, p: Trip, s: State, k: nat, n: nat)
    requires Directed(p) && DrivingAt(c, p, k, s)
    ensures DrivingAt(c, p, k + n, After(c, s, Ticks(n)))
    decreases n
  {
    if n == 0 {
      NoTicks(c, s);
    } else {
      var t := DriveTick(c, p, s, k, n);
      DriveEnds(c, p, t, k + 1, n - 1);
      assert k + 1 + (n - 1) == k + n;
    }
  }

  // The entries of a drive over n tenths, from tick k + 1 on.
  ghost predicate AsExpected(dir: Dir, n: nat, k: nat, out: seq<Relays>) {
    forall j :: 0 <= j < |out| ==> out[j] == Expected(dir, n, k + j + 1)
  }

  lemma ExpectedFirst(dir: Dir, n: nat, k: nat, r: Relays, out: seq<Relays>)
    requires r == Expected(dir, n, k + 1) && AsExpected(dir, n, k + 1, out)
    ensures AsExpected(dir, n, k, [r] + out)
  {
    forall j | 0 <= j < |out| + 1 ensures ([r] + out)[j] == Expected(dir, n, k + j + 1) {
      if j > 0 {
        assert ([r] + out)[j] == out[j - 1];
      }
    }
  }

  // The outputs of n ticks from s, which tick k of a drive has led to.
  ghost predicate OutputsFrom(c: Config, p: Trip, s: State, k: nat, n: nat) {
    |Outputs(c, s, Ticks(n))| == n && AsExpected(p.dir, Length(p), k, Outputs(c, s, Ticks(n)))
  }

  lemma OneMoreOutput(c: Config, p: Trip, s: State, t: State, k: nat, n: nat)
    requires n > 0 && TickTo(c, s, n, t) && RelaysOf(t) == Expected(p.dir, Length(p), k + 1)
    requires OutputsFrom(c, p, t, k + 1, n - 1)
    ensures OutputsFrom(c, p, s, k, n)
  {
    ExpectedFirst(p.dir, Length(p), k, RelaysOf(t), Outputs(c, t, Ticks(n - 1)));
  }

  lemma {:induction false} DriveOutputs(c: Config, p: Trip, s: State, k: nat, n: nat)
    requires Directed(p) && DrivingAt(c, p, k, s)
    ensures OutputsFrom(c, p, s, k, n)
    decreases n
  {
    if n == 0 {
      NoTicks(c, s);
    } else {
      var t := DriveTick(c, p, s, k, n);
      DriveOutputs(c, p, t, k + 1, n - 1);
      OneMoreOutput(c, p, s, t, k, n);
    }
  }

  function PoweredTicks(tr: seq<Relays>): nat {
    if tr == [] then 0 else (if tr[|tr| - 1].power then 1 else 0) + PoweredTicks(tr[..|tr| - 1])
  }

  lemma {:induction false} PoweredOverall(dir: Dir, n: nat, tr: seq<Relays>)
    requires forall k :: 0 <= k < |tr| ==> tr[k] == Expected(dir, n, k + 1)
    ensures var on := First(dir);
            PoweredTicks(tr) == if |tr| < on then 0 else if |tr| < on + n then |tr| - on + 1 else n
  {
    if tr != [] {
      PoweredOverall(dir, n, tr[..|tr| - 1]);
    }
  }

  lemma RestTick(c: Config, s: State)
    requires AtRest(s)
    ensures AtRest(TimerTick(c, s)) && TimerTick(c, s).laufzeit == s.laufzeit
  {
    var t := CountLongPressed(c, s);
    LongPressedIsCore(c, s);
    assert t.laufzeit == s.laufzeit;
    var u := CountChangeDir(t);
    ChangeDirIsCore(t);
    ChangeDirEffect(t);
    assert CoreOf(u) == CoreOf(s);
    assert Move(c, u) == u;
    ExecutedIsCore(u);
    ExecutedEffect(u);
  }

  lemma {:induction false} RestRuns(c: Config, s: State, n: nat)
    requires AtRest(s)
    ensures AtRest(After(c, s, Ticks(n))) && After(c, s, Ticks(n)).laufzeit == s.laufzeit
    ensures |Outputs(c, s, Ticks(n))| == n
    ensures forall j :: 0 <= j < n ==> !Outputs(c, s, Ticks(n))[j].power
    decreases n
  {
    if n > 0 {
      var t := TimerTick(c, s);
      RestTick(c, s);
      assert Ticks(n)[1..] == Ticks(n - 1);
      RestRuns(c, t, n - 1);
      assert Outputs(c, s, Ticks(n)) == [RelaysOf(t)] + Outputs(c, t, Ticks(n - 1));
    }
  }

  lemma {:induction false} NeverPowered(tr: seq<Relays>)
    requires forall k :: 0 <= k < |tr| ==> !tr[k].power
    ensures PoweredTicks(tr) == 0
  {
    if tr != [] {
      NeverPowered(tr[..|tr| - 1]);
    }
  }

  // In the next ticks, with no further command, the motor is powered for exactly the length of the
  // drive, in one stretch and in its direction; then the shutter rests with both relays released.
  ghost predicate Drives(c: Config, p: Trip, t: State, ticks: nat) {
    var out, end := Outputs(c, t, Ticks(ticks)), After(c, t, Ticks(ticks));
    && |out| == ticks
    && (forall k :: 0 <= k < ticks ==> out[k] == Expected(p.dir, Length(p), k + 1))
    && (ticks >= Last(p) ==> PoweredTicks(out) == Length(p) && Rests(c, p, end))
    && (ticks >= Length(p) + 11 ==> AtRest(end))
  }

  lemma WholeDrive(c: Config, p: Trip, t: State, ticks: nat)
    requires Directed(p) && DrivingAt(c, p, 0, t)
    ensures Drives(c, p, t, ticks)
  {
    DriveEnds(c, p, t, 0, ticks);
    DriveOutputs(c, p, t, 0, ticks);
    PoweredOverall(p.dir, Length(p), Outputs(c, t, Ticks(ticks)));
  }

  // The drive that begins in s.
  function TripFrom(s: State, soll: int, cal: bool): Trip {
    Trip(if soll < s.laufzeit then Ab else Auf, s.laufzeit, soll, cal, s.summeLaufzeit, s.lastDir,
         s.changeDirCounter == -1)
  }

  // A position command from rest; it never calibrates.
  lemma PositionCommand(c: Config, s: State, percent: uint8, ticks: nat)
    requires Idle(s)
    ensures var soll, t := Target(c, percent), DriveTo(c, s, percent);
            if soll == s.laufzeit then
              AtRest(After(c, t, Ticks(ticks))) && After(c, t, Ticks(ticks)).laufzeit == soll
              && PoweredTicks(Outputs(c, t, Ticks(ticks))) == 0
            else
              Drives(c, TripFrom(s, soll, false), t, ticks)
  {
    var soll, t := Target(c, percent), DriveTo(c, s, percent);
    if soll == s.laufzeit {
      RestRuns(c, t, ticks);
      NeverPowered(Outputs(c, t, Ticks(ticks)));
    } else {
      DriveStarts(c, s, percent);
      WholeDrive(c, TripFrom(s, soll, false), t, ticks);
    }
  }

  lemma DriveStarts(c: Config, s: State, percent: uint8)
    requires Idle(s) && Target(c, percent) != s.laufzeit
    ensures DrivingAt(c, TripFrom(s, Target(c, percent), false), 0, DriveTo(c, s, percent))
  {
  }

  // ---------- Buttons ----------

  function EndOf(c: Config, dir: Dir): int {
    if dir == Ab then 0 else c.laufzeit
  }

  // Half the way beyond the end.
  function Beyond(c: Config, dir: Dir): int {
    if dir == Ab then Below(c) else Above(c)
  }

  // A drive in direction dir is to calibrate: the marker is set, after power-on, or it goes towards the
  // configured end.
  predicate ToCalibrate(c: Config, marked: bool, dir: Dir) {
    marked || (c.kalibrierungOben <==> dir == Auf)
  }

  // What a press towards an end sets out for.
  function ButtonTrip(c: Config, s: State, dir: Dir): Trip {
    var far := s.summeLaufzeit >= c.maxRekalib && ToCalibrate(c, s.kalibrieren, dir);
    Trip(dir, s.laufzeit, if far then Beyond(c, dir) else EndOf(c, dir), s.kalibrieren || far,
         s.summeLaufzeit, s.lastDir, s.changeDirCounter == -1)
  }

  predicate ShortOf(c: Config, laufzeit: int, dir: Dir) {
    if dir == Ab then laufzeit > 0 else laufzeit < c.laufzeit
  }

  // A press of a button from rest; a long press of two-button operation is ended by the release.
  // Towards the end where the shutter stands, nothing moves.
  lemma ButtonCommand(c: Config, s: State, dir: Dir, ticks: nat)
    requires Idle(s)
    ensures var one, two := OneButton(c, s.(lastDir := dir)), TwoButton(c, s, dir).(longPressedCounter := -1);
            if ShortOf(c, s.laufzeit, dir) then
              && (ButtonTrip(c, s, dir).soll != -1 ==> Drives(c, ButtonTrip(c, s.(lastDir := dir), dir), one, ticks))
              && Drives(c, ButtonTrip(c, s, dir), two, ticks)
            else
              AtRest(one) && AtRest(two) && one.laufzeit == two.laufzeit == s.laufzeit
  {
    var one, two := OneButton(c, s.(lastDir := dir)), TwoButton(c, s, dir).(longPressedCounter := -1);
    if ShortOf(c, s.laufzeit, dir) {
      OneButtonStarts(c, s.(lastDir := dir));
      TwoButtonStarts(c, s, dir);
      TripDirected(c, s, dir);
      if ButtonTrip(c, s, dir).soll != -1 {
        WholeDrive(c, ButtonTrip(c, s.(lastDir := dir), dir), one, ticks);
      }
      WholeDrive(c, ButtonTrip(c, s, dir), two, ticks);
    }
  }

  lemma TripDirected(c: Config, s: State, dir: Dir)
    requires ShortOf(c, s.laufzeit, dir)
    ensures Directed(ButtonTrip(c, s, dir))
  {
  }

  lemma OneButtonStarts(c: Config, s: State)
    requires Idle(s) && ShortOf(c, s.laufzeit, s.lastDir)
    ensures var p := ButtonTrip(c, s, s.lastDir); p.soll != -1 ==> DrivingAt(c, p, 0, OneButton(c, s))
  {
  }

  lemma TwoButtonStarts(c: Config, s: State, dir: Dir)
    requires Idle(s) && ShortOf(c, s.laufzeit, dir)
    ensures DrivingAt(c, ButtonTrip(c, s, dir), 0, TwoButton(c, s, dir).(longPressedCounter := -1))
  {
  }

  // ---------- Calibration ----------

  // A press sets out beyond the end.
  predicate Due(c: Config, s: State, dir: Dir) {
    s.summeLaufzeit >= c.maxRekalib && ToCalibrate(c, s.kalibrieren, dir)
  }

  lemma TopIsAtEnd(x: int, l: int)
    requires x >= l > 0
    ensures Quotient(100 * x, l) >= 100
  {
    var d := 100 * x / l;
    assert 100 * x < (d + 1) * l;
    if d < 100 {
      Scaled(d + 1, 100, l);
    }
  }

  lemma BottomIsAtEnd(a: int, b: int)
    requires a <= 0 && b > 0
    ensures Quotient(a, b) <= 0
  {
  }

  lemma BeyondIsAtEnd(c: Config, dir: Dir)
    ensures AtEnd(c, Beyond(c, dir)) && AtEnd(c, EndOf(c, dir))
  {
    if dir == Auf {
      TopIsAtEnd(Above(c), c.laufzeit);
      TopIsAtEnd(c.laufzeit, c.laufzeit);
    } else {
      BottomIsAtEnd(100 * Below(c), c.laufzeit);
      BottomIsAtEnd(0, c.laufzeit);
    }
  }

  // Such a drive calibrates exactly when it goes to the configured end and the running time leaves room
  // beyond it; then the position is exact again and the distance is counted anew.
  lemma CalibrationDrive(c: Config, s: State, dir: Dir, t: State)
    requires Idle(s) && Due(c, s, dir) && Rests(c, ButtonTrip(c, s, dir), t)
    ensures var exact := (c.kalibrierungOben <==> dir == Auf) && c.laufzeit >= if dir == Auf then 2 else 4;
            && (t.kalibrieren <==> !exact)
            && (exact ==> t.laufzeit == EndOf(c, dir) && t.summeLaufzeit == 1)
            && (!exact ==> t.laufzeit == Beyond(c, dir))
            && t.lastDir == Opposite(dir)
  {
    BeyondIsAtEnd(c, dir);
  }

  // After power-on the shutter may stand anywhere: the first press drives the whole running time, up to
  // one tenth, unless the sum has wrapped.
  lemma FirstDrive(c: Config, dir: Dir, ticks: nat)
    requires ShortOf(c, PowerOn(c).laufzeit, dir)
    ensures var p := ButtonTrip(c, PowerOn(c), dir);
            && Drives(c, p, TwoButton(c, PowerOn(c), dir).(longPressedCounter := -1), ticks)
            && (c.maxRekalib < 0xFFFF ==> Length(p) == if dir == Auf then c.laufzeit else 2 * (c.laufzeit / 2))
            && (c.maxRekalib == 0xFFFF ==>
                  Length(p) == if dir == Auf then c.laufzeit - c.laufzeit / 2 else c.laufzeit / 2)
  {
    ButtonCommand(c, PowerOn(c), dir, ticks);
  }

  // ---------- The reported position ----------

  lemma ScaledTarget(c: Config, percent: uint8)
    requires percent <= 100
    ensures 0 <= Target(c, percent) <= c.laufzeit
    ensures c.laufzeit * percent - 100 < 100 * Target(c, percent) <= c.laufzeit * percent
  {
    assert c.laufzeit * percent <= c.laufzeit * 100;
    assert c.laufzeit * percent >= 0;
  }

  lemma QuotientBounds(x: int, y: int, q: int, low: int)
    requires y > 0 && low * y <= x <= q * y
    ensures low <= x / y <= q
  {
    var d := x / y;
    assert d * y <= x < (d + 1) * y;
    if d > q {
      Scaled(q + 1, d, y);
    }
    if d < low {
      Scaled(d + 1, low, y);
    }
  }

  lemma Scaled(a: int, b: int, y: int)
    requires a <= b && y > 0
    ensures a * y <= b * y
  {
  }

  // With a running time of at least 100 tenths, the position reported there is within 2 of the wanted one.
  lemma ReportedPosition(c: Config, percent: uint8)
    requires percent <= 100 && c.laufzeit >= 100
    ensures percent - 2 <= Position(c, Target(c, percent)) <= percent + 2
  {
    var l, t := c.laufzeit, Target(c, percent);
    ScaledTarget(c, percent);
    assert (percent - 1) * l == l * percent - l <= l * percent - 100;
    QuotientBounds(100 * t, l, percent, percent - 1);
  }
}
