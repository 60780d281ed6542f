// The shutter device itself: handlers that update the fields of one instance in place.
module Rolladen {
  import opened Words
  import opened RolladenModel

  class Device {
    const config: Config
    var mute: bool
    var kalibrieren: bool
    var summeLaufzeit: uint32
    var laufzeit: int
    var sollLaufzeit: int
    var dir: Dir
    var sollDir: Dir
    var exeDir: bool
    var lastDir: Dir
    var power: bool
    var sollPower: bool
    var exePower: bool
    var blockingTimer: uint8
    var changeDirCounter: int
    var longPressedCounter: int

    ghost function Snapshot(): State
      reads this
    {
      State(mute, kalibrieren, summeLaufzeit, laufzeit, sollLaufzeit, dir, sollDir, exeDir, lastDir,
            power, sollPower, exePower, blockingTimer, changeDirCounter, longPressedCounter)
    }

    // The instance data is cleared before it is initialised.
    constructor (config: Config)
      ensures this.config == config
      ensures Snapshot() == PowerOn(config) && AtRest(Snapshot())
    {
      this.config := config;
      mute := false;
      kalibrieren := true;
      summeLaufzeit := (config.maxRekalib + 1) % 0x1_0000;
      laufzeit := config.laufzeit / 2;
      sollLaufzeit := -1;
      sollDir, lastDir, dir := Auf, Auf, Auf;
      sollPower, power := false, false;
      exeDir, exePower, blockingTimer := false, false, 0;
      changeDirCounter := -1;
      longPressedCounter := -1;
    }

    method PrepareCalibrating()
      modifies this
      ensures Snapshot() == PrepareCalibration(config, old(Snapshot()))
    {
      if kalibrieren {
        if sollDir == Auf {
          sollLaufzeit := config.laufzeit * 150 / 100;
        } else {
          sollLaufzeit := -(config.laufzeit * 50 / 100);
        }
      } else if config.kalibrierungOben {
        if sollDir == Auf {
          sollLaufzeit := config.laufzeit * 150 / 100;
          kalibrieren := true;
        }
      } else {
        if sollDir == Ab {
          sollLaufzeit := -(config.laufzeit * 50 / 100);
          kalibrieren := true;
        }
      }
    }

    method Calibrate()
      modifies this
      ensures Snapshot() == Calibration(config, old(Snapshot()))
    {
      if config.kalibrierungOben {
        if sollLaufzeit > config.laufzeit {
          laufzeit := config.laufzeit;
          summeLaufzeit := 0;
          kalibrieren := false;
        }
      } else if sollLaufzeit < -1 {
        laufzeit := 0;
        summeLaufzeit := 0;
        kalibrieren := false;
      }
    }

    method Stop()
      modifies this
      ensures Snapshot() == CmdStop(config, old(Snapshot()))
    {
      var pos := Position(config, laufzeit);
      if pos == 0 || pos == 100 {
        lastDir := Opposite(dir);
        changeDirCounter := -1;
        if kalibrieren {
          Calibrate();
        }
      } else {
        kalibrieren := false;
      }
      HaltRelays();
    }

    method HaltRelays()
      modifies this
      ensures Snapshot() == Halt(old(Snapshot()))
    {
      sollPower := false;
      exePower := true;
      sollDir := Auf;
      if dir == Ab {
        blockingTimer := 5;
        exeDir := false;
      }
      sollLaufzeit := -1;
    }

    method Drive()
      modifies this
      ensures Snapshot() == CmdDrive(old(Snapshot()))
    {
      sollPower := true;
      if sollDir == Ab {
        exeDir := true;
        blockingTimer := 5;
        exePower := false;
      } else {
        exePower := true;
      }
    }

    method SetTarget(wanted: Dir) returns (toReach: bool)
      modifies this
      ensures (Snapshot(), toReach) == SetSollLaufzeit(config, old(Snapshot()), wanted)
    {
      if wanted == Ab {
        sollLaufzeit := 0;
        if laufzeit <= sollLaufzeit {
          sollLaufzeit := -1;
          return false;
        }
      } else {
        sollLaufzeit := config.laufzeit;
        if laufzeit >= sollLaufzeit {
          sollLaufzeit := -1;
          return false;
        }
      }
      sollDir := wanted;
      if summeLaufzeit >= config.maxRekalib {
        PrepareCalibrating();
      }
      return true;
    }

    method PressTwoButton(wanted: Dir)
      modifies this
      ensures Snapshot() == TwoButton(config, old(Snapshot()), wanted)
    {
      if mute || blockingTimer != 0 {
        return;
      }
      if power || sollPower {
        Stop();
      } else {
        var toReach := SetTarget(wanted);
        if toReach {
          longPressedCounter := 10;
          Drive();
        }
      }
    }

    method PressOneButton()
      modifies this
      ensures Snapshot() == OneButton(config, old(Snapshot()))
    {
      if mute || blockingTimer != 0 {
        return;
      }
      if power {
        changeDirCounter := 7;
        Stop();
      } else {
        var _ := SetTarget(lastDir);
        if sollLaufzeit != -1 {
          Drive();
        }
      }
    }

    method DrivePercent(percent: uint8)
      modifies this
      ensures Snapshot() == DriveTo(config, old(Snapshot()), percent)
    {
      if mute || blockingTimer != 0 {
        return;
      }
      sollLaufzeit := config.laufzeit * percent / 100;
      if sollLaufzeit > config.laufzeit {
        sollLaufzeit := config.laufzeit;
      }
      if power || sollPower || sollLaufzeit == laufzeit {
        sollLaufzeit := -1;
        return;
      }
      kalibrieren := false;
      if sollLaufzeit < laufzeit {
        sollDir := Ab;
      } else {
        sollDir := Auf;
      }
      Drive();
    }

    method IsInGroup(group: uint8) returns (found: bool)
      ensures found <==> InGroup(config, group)
    {
      if config.taster == group {
        return true;
      }
      for i := 0 to |config.gruppen|
        invariant group !in config.gruppen[..i]
      {
        if config.gruppen[i] == group {
          return true;
        }
      }
      return false;
    }

    method CanCallback(command: Command)
      modifies this
      ensures Snapshot() == Handle(config, old(Snapshot()), command)
    {
      match command
      case PositionSet(group, value) =>
        var addressed := IsInGroup(group);
        if addressed {
          if value == 200 {
            PressTwoButton(Ab);
          } else if value == 201 {
            PressTwoButton(Auf);
          } else if value == 202 {
            longPressedCounter := -1;
            Stop();
          } else if value == 222 {
            longPressedCounter := -1;
          } else {
            DrivePercent(value);
          }
        }
      case TasterDown(group) =>
        var addressed := IsInGroup(group);
        if addressed {
          PressOneButton();
        }
      case TasterUp(group) =>
        var addressed := IsInGroup(group);
        if addressed {
          changeDirCounter := -1;
        }
      case DefinePosition(group, value) =>
        var addressed := IsInGroup(group);
        if addressed {
          laufzeit := (value + 1) * config.laufzeit / 100;
          if laufzeit > config.laufzeit {
            laufzeit := config.laufzeit;
          }
        }
      case Mute(id, on) =>
        if id == config.muteId {
          mute := on;
        }
    }

    method CountDown()
      modifies this
      ensures Snapshot() == CountChangeDir(CountLongPressed(config, old(Snapshot())))
    {
      if longPressedCounter > 0 {
        longPressedCounter := longPressedCounter - 1;
      } else if longPressedCounter == 0 {
        PrepareCalibrating();
        longPressedCounter := -1;
      }
      assert Snapshot() == CountLongPressed(config, old(Snapshot()));
      if changeDirCounter > 0 {
        changeDirCounter := changeDirCounter - 1;
      } else if changeDirCounter == 0 {
        lastDir := Opposite(lastDir);
        changeDirCounter := -1;
      }
    }

    method StopWhenThere()
      modifies this
      ensures Snapshot() == Arrive(config, old(Snapshot()))
    {
      if dir == Ab {
        if laufzeit <= sollLaufzeit {
          Stop();
        }
      } else {
        if laufzeit >= sollLaufzeit {
          Stop();
        }
      }
    }

    method MoveOn()
      modifies this
      ensures Snapshot() == Move(config, old(Snapshot()))
    {
      if power && sollPower {
        if dir == Ab {
          laufzeit := laufzeit - 1;
        } else {
          laufzeit := laufzeit + 1;
        }
        assert Snapshot() == OneTenthOn(old(Snapshot()));
        StopWhenThere();
        ghost var there := Snapshot();
        summeLaufzeit := (summeLaufzeit + 1) % 0x1_0000_0000;
        assert Snapshot() == Counted(there);
      }
    }

    method SwitchRelays()
      modifies this
      ensures Snapshot() == ExecutePower(ExecuteDir(Unblock(old(Snapshot()))))
    {
      if blockingTimer != 0 {
        blockingTimer := blockingTimer - 1;
      } else if sollPower {
        exePower := true;
      } else {
        exeDir := true;
      }
      assert Snapshot() == Unblock(old(Snapshot()));
      if exeDir && dir != sollDir {
        dir := sollDir;
        exeDir := false;
      }
      assert Snapshot() == ExecuteDir(Unblock(old(Snapshot())));
      if exePower && power != sollPower {
        power := sollPower;
        exePower := false;
      }
    }

    // Called every 100 ms.
    method TimerHandler()
      modifies this
      ensures Snapshot() == TimerTick(config, old(Snapshot()))
    {
      CountDown();
      MoveOn();
      SwitchRelays();
    }
  }
}
