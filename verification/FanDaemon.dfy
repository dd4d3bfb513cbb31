/** The daemon's fan.c and socket.c over the driver's sysfs text, refining FanProtocol. */
module FanDaemonObject {
  import opened Decimal
  import opened FanDriver
  import opened FanProtocol
  import opened FanCtrlObject

  /** A sensor reading fits in an int. */
  predicate Sane(ev: Event) {
    ev.Request? && ev.temp.Temp? ==> -TWO_TO_31 < ev.temp.mc < TWO_TO_31
  }

  class FanDaemon {
    const driver: FanCtrl
    var fanManualMode: bool

    /** The frequency, and the next one up, fit in an int. */
    ghost predicate Readable()
      reads this, driver
    {
      driver.frequency < TWO_TO_31 - 1
    }

    /** The cached mode is the driver's. */
    ghost predicate Valid()
      reads this, driver
    {
      fanManualMode == driver.manualMode && Readable()
    }

    /** The frequency is in the daemon's range and the timer is pending. */
    ghost predicate Running()
      reads this, driver
    {
      InRange(driver.frequency) && driver.armed
    }

    ghost function Abstract(): Simple
      reads this, driver
    {
      Simple(driver.manualMode, driver.frequency)
    }

    /** fan_init: one character of manual_mode is read into the cache. */
    constructor FanInit(driver: FanCtrl)
      ensures this.driver == driver && fanManualMode == driver.manualMode
      ensures Readable() ==> Valid()
    {
      this.driver := driver;
      var shown := driver.ManualModeShow();
      fanManualMode := shown[0] == '1';
    }

    /** Whatever the driver's mode was, it follows the cache; nothing else changes. */
    method FanToggleMode()
      modifies this, driver
      ensures fanManualMode == !old(fanManualMode)
      ensures driver.Contents() == old(driver.Contents()).(manual := fanManualMode)
    {
      fanManualMode := !fanManualMode;
      var text := if fanManualMode then "1" else "0";
      var status := driver.ManualModeStore(text);
    }

    /** All 20 bytes of an uninitialised stack buffer go to the driver, which ignores a negative
        number and refuses any in automatic mode. */
    method FanSetFrequency(freq: int)
      requires -TWO_TO_31 < freq < TWO_TO_31
      modifies driver
      ensures Abstract() ==
              if old(Abstract().manual) && freq >= 0 then old(Abstract()).(frequency := freq) else old(Abstract())
      ensures driver.armed == (old(driver.armed) || (old(Abstract().manual) && freq > 0))
    {
      assert |seq(20, _ => 'x')| == 20;
      var buf: string :| |buf| == 20;
      StoredIsPrinted(buf, freq);
      var status, oops := driver.FrequencyStore(Snprintf(buf, Format(freq)));
      assert !oops;
    }

    method FanReadFrequency() returns (freq: int)
      requires driver.frequency < TWO_TO_31
      ensures freq == driver.frequency
    {
      ReadIsShown(driver.frequency);
      freq := Atoi(ReadInto20(driver.FrequencyShow()));
    }

    /** Minus one when the sysfs read fails. */
    method FanGetCpuTemp(temp: Reading) returns (mc: int)
      requires temp.Temp? ==> -TWO_TO_31 < temp.mc < TWO_TO_31
      ensures mc == if temp.Temp? then temp.mc else -1
    {
      match temp
      case ReadFailed =>
        mc := -1;
      case Temp(t) =>
        ReadIsShown(t);
        mc := Atoi(ReadInto20(Format(t) + "\n"));
    }

    method FanIncreaseFrequency()
      requires Readable()
      modifies driver
      ensures driver.armed == (old(driver.armed) || old(Abstract().manual))
      ensures Abstract() ==
              if old(Abstract().manual) then old(Abstract()).(frequency := Increased(old(Abstract().frequency)))
              else old(Abstract())
    {
      var freq := FanReadFrequency();
      freq := freq + FREQUENCY_STEP;
      if freq > FREQUENCY_MAX { freq := FREQUENCY_MAX; }
      FanSetFrequency(freq);
    }

    method FanDecreaseFrequency()
      requires Readable()
      modifies driver
      ensures driver.armed == (old(driver.armed) || old(Abstract().manual))
      ensures Abstract() ==
              if old(Abstract().manual) then old(Abstract()).(frequency := Decreased(old(Abstract().frequency)))
              else old(Abstract())
    {
      var freq := FanReadFrequency();
      freq := freq - FREQUENCY_STEP;
      if freq < FREQUENCY_MIN { freq := FREQUENCY_MIN; }
      FanSetFrequency(freq);
    }

    /** socket_handle_client, from a complete request to the response sent. */
    method HandleRequest(cmd: int, value: int, temp: Reading) returns (reply: Reply)
      requires Valid() && (temp.Temp? ==> -TWO_TO_31 < temp.mc < TWO_TO_31)
      modifies this, driver
      ensures Valid() && (Abstract(), reply) == Handle(old(Abstract()), Request(cmd, value, temp))
      ensures driver.armed == (old(driver.armed) || Accepts(old(Abstract()), Request(cmd, value, temp)))
    {
      var status, answer := 0, 0;
      if cmd == GET_MODE {
        answer := if fanManualMode then 1 else 0;
      } else if cmd == SET_MODE {
        if fanManualMode != (value != 0) {
          FanToggleMode();
        }
      } else if cmd == GET_FREQUENCY {
        answer := FanReadFrequency();
        status := if answer < 0 then answer else 0;
      } else if cmd == SET_FREQUENCY {
        if !fanManualMode {
          status := -EPERM;
        } else if value < FREQUENCY_MIN || value > FREQUENCY_MAX {
          status := -ERANGE;
        } else {
          FanSetFrequency(value);
        }
      } else if cmd == GET_TEMP {
        var mc := FanGetCpuTemp(temp);
        answer := if mc >= 0 then mc / 1000 else -(-mc / 1000);
      } else {
        status := -ENOSYS;
      }
      reply := Reply(status, answer);
    }

    method ProcessEvent(ev: Event) returns (reply: Reply)
      requires Valid() && Sane(ev) && (ev.Tick? ==> driver.armed)
      modifies this, driver
      ensures Valid() && (Abstract(), reply) == Handle(old(Abstract()), ev)
      ensures driver.armed ==
              if ev.Tick? then Abstract().frequency != 0 else old(driver.armed) || Accepts(old(Abstract()), ev)
    {
      reply := NoReply;
      match ev
      case ShortRequest =>
        reply := Reply(-EINVAL, 0);
      case Request(cmd, value, temp) =>
        reply := HandleRequest(cmd, value, temp);
      case Button1(pressed) =>
        if pressed && fanManualMode { FanIncreaseFrequency(); }
      case Button2(pressed) =>
        if pressed && fanManualMode { FanDecreaseFrequency(); }
      case Button3(pressed) =>
        if pressed { FanToggleMode(); }
      case Tick(reading) =>
        var oops := driver.TimerExpires(reading);
    }

    /** The daemon's event loop: its replies, its final state and whether the timer is pending are
        the simple machine's. A fan that runs stays running. */
    method Serve(evs: seq<Event>) returns (replies: seq<Reply>)
      requires Valid() && (forall i :: 0 <= i < |evs| ==> Sane(evs[i]))
      requires Running() || Timely(driver.armed, Abstract(), evs)
      modifies this, driver
      ensures Valid() && (old(Running()) ==> Running())
      ensures driver.armed == TimerAfter(old(driver.armed), old(Abstract()), evs)
      ensures Abstract() == After(old(Abstract()), evs)
      ensures replies == FanProtocol.Replies(old(Abstract()), evs)
    {
      if Running() { RunningStaysRunning(Abstract(), evs); }
      replies := [];
      assert evs[..0] == [];
      for i := 0 to |evs|
        invariant Valid() && driver.armed == TimerAfter(old(driver.armed), old(Abstract()), evs[..i])
        invariant Abstract() == After(old(Abstract()), evs[..i])
        invariant replies == FanProtocol.Replies(old(Abstract()), evs[..i])
      {
        var reply := ProcessEvent(evs[i]);
        replies := replies + [reply];
        assert evs[..i + 1][..i] == evs[..i];
      }
      assert evs[..|evs|] == evs;
      if old(Running()) { StaysInRange(old(Abstract()), evs); }
    }
  }

  /** Module loaded, then daemon started. */
  method StartUp(reading: Reading) returns (daemon: FanDaemon)
    ensures fresh(daemon) && fresh(daemon.driver) && !daemon.fanManualMode
    ensures daemon.Valid() && (daemon.Running() <==> reading.Temp?) && (daemon.driver.armed <==> reading.Temp?)
    ensures daemon.Abstract() == Simple(false, if reading.Temp? then TempToFreq(reading.mc) else 0)
  {
    var driver := new FanCtrl.Probe(reading);
    daemon := new FanDaemon.FanInit(driver);
  }
}
