/** The countdown timer that the junction controller drives. */
module Timers {
  import opened Integers

  datatype TimerState = TimerState(timeLeft: uint16, expired: bool, frozen: bool, expiredAt: int)

  function AfterDecrease(t: TimerState, sec: uint16): TimerState {
    t.(timeLeft := if t.timeLeft < sec then 0 else t.timeLeft - sec)
  }

  function AfterReset(t: TimerState, sec: uint16): TimerState {
    t.(timeLeft := sec, expired := false)
  }

  /**
   Whatever the timer's own thread did since the last look: it may have counted to any value and may
   have expired, but only a reset takes an expiry back and only the controller freezes.
   */
  function AfterRunning(t: TimerState, timeLeft: uint16, expires: bool, now: int): TimerState {
    t.(timeLeft := timeLeft, expired := t.expired || expires, expiredAt := if expires then now else t.expiredAt)
  }

  class Timer {
    var timeLeft: uint16
    var expired: bool
    var frozen: bool
    var expirationTime: int

    ghost function View(): TimerState
      reads this
    {
      TimerState(timeLeft, expired, frozen, expirationTime)
    }

    constructor (sec: uint16, uninitialised: int)
      ensures View() == TimerState(sec, false, sec == 0, uninitialised)
    {
      timeLeft, expired, frozen, expirationTime := sec, false, true, uninitialised;
      new;
      if timeLeft != 0 {
        expired := false;
        frozen := false;
      }
    }

    constructor Default(uninitialised: int)
      ensures View() == TimerState(2, false, true, uninitialised)
    {
      timeLeft, expired, frozen, expirationTime := 2, false, true, uninitialised;
    }

    method DecreaseTimer(sec: uint16)
      modifies this
      ensures View() == AfterDecrease(old(View()), sec)
    {
      if timeLeft < sec {
        timeLeft := 0;
      } else {
        timeLeft := timeLeft - sec;
      }
    }

    method ResetTimer(sec: uint16)
      modifies this
      ensures View() == AfterReset(old(View()), sec)
    {
      timeLeft := sec;
      expired := false;
    }

    method FreezeTimer()
      modifies this
      ensures View() == old(View()).(frozen := true)
    {
      frozen := true;
    }

    method UnfreezeTimer()
      modifies this
      ensures View() == old(View()).(frozen := false)
    {
      frozen := false;
    }
  }
}
