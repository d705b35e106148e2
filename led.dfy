/**
 * The LED state table of led.c.  The board has MAX_LEDS = 4 LEDs, while the
 * LED number type allows LED0 .. LED9; every operation rejects numbers from
 * 4 up and LEDs that were never initialised.  The calls into led_hal.c are
 * recorded, in order, in the log `hal`.
 */
module Led {
  import opened Stdint

  const MAX_LEDS: nat := 4

  /** LED_Number_TypeDef: LED0 .. LED9. */
  type LedNumber = x: nat | x < 10

  /** LED_State_TypeDef; LED_UNUSED (0) is the zero-initialised state. */
  datatype LedState = Unused | Off | On

  /** A call into the LED hardware layer. */
  datatype HalCall = HalInit(led: LedNumber) | HalChangeState(led: LedNumber, level: uint8) | HalToggle(led: LedNumber)

  /** The state an initialised LED has after LED_Toggle. */
  function Toggled(s: LedState): (t: LedState)
    requires s != Unused
    ensures t != Unused && t != s
  {
    if s == Off then On else Off
  }

  /** Toggling twice restores the state. */
  lemma ToggleTwice(s: LedState)
    requires s != Unused
    ensures Toggled(Toggled(s)) == s
  {
  }

  /** The HAL calls LED_ChangeState makes for an initialised LED: level 0 for
      off, level 1 for on, none when the LED is being de-initialised. */
  function ChangeStateCalls(led: LedNumber, state: LedState): (calls: seq<HalCall>)
    ensures |calls| <= 1
    ensures calls == [] <==> state == Unused
    ensures calls != [] ==> calls[0] == HalChangeState(led, if state == On then 1 else 0)
  {
    match state
    case Off => [HalChangeState(led, 0)]
    case On => [HalChangeState(led, 1)]
    case Unused => []
  }

  class LedTable {
    /** ledState[MAX_LEDS]. */
    const ledState: array<LedState>
    /** The calls made into led_hal.c, oldest first. */
    var hal: seq<HalCall>

    ghost predicate Valid()
      reads this
    {
      ledState.Length == MAX_LEDS
    }

    /** The zero-initialised table: every LED unused, no HAL call made. */
    constructor ()
      ensures Valid() && fresh(ledState) && hal == []
      ensures forall i :: 0 <= i < MAX_LEDS ==> ledState[i] == Unused
    {
      ledState := new LedState[MAX_LEDS](_ => Unused);
      hal := [];
    }

    /** LED_Init: an LED on the board is set up in the HAL and starts off;
        any other number changes nothing. */
    method Init(led: LedNumber)
      requires Valid()
      modifies this, ledState
      ensures Valid()
      ensures led >= MAX_LEDS ==> ledState[..] == old(ledState[..]) && hal == old(hal)
      ensures led < MAX_LEDS ==> ledState[..] == old(ledState[..])[led := Off] && hal == old(hal) + [HalInit(led)]
    {
      if led >= MAX_LEDS {
        return;
      }
      hal := hal + [HalInit(led)];
      ledState[led] := Off;
    }

    /** LED_ChangeState: on an initialised LED, drives the HAL for the new
        state and stores it (`Unused` de-initialises the LED); an LED that is
        off the board or uninitialised is left alone. */
    method ChangeState(led: LedNumber, state: LedState)
      requires Valid()
      modifies this, ledState
      ensures Valid()
      ensures led >= MAX_LEDS || old(ledState[led]) == Unused ==>
        ledState[..] == old(ledState[..]) && hal == old(hal)
      ensures led < MAX_LEDS && old(ledState[led]) != Unused ==>
        ledState[..] == old(ledState[..])[led := state] && hal == old(hal) + ChangeStateCalls(led, state)
    {
      if led >= MAX_LEDS {
        return;
      }
      if ledState[led] == Unused {
        return;
      } else {
        if state == Off {
          hal := hal + [HalChangeState(led, 0)];
        } else if state == On {
          hal := hal + [HalChangeState(led, 1)];
        }
      }
      ledState[led] := state;
    }

    /** LED_Toggle: an initialised LED flips between off and on with one HAL
        toggle; an LED that is off the board or uninitialised is left alone. */
    method Toggle(led: LedNumber)
      requires Valid()
      modifies this, ledState
      ensures Valid()
      ensures led >= MAX_LEDS || old(ledState[led]) == Unused ==>
        ledState[..] == old(ledState[..]) && hal == old(hal)
      ensures led < MAX_LEDS && old(ledState[led]) != Unused ==>
        ledState[..] == old(ledState[..])[led := Toggled(old(ledState[led]))] && hal == old(hal) + [HalToggle(led)]
    {
      if led >= MAX_LEDS {
        return;
      }
      if ledState[led] == Unused {
        return;
      } else {
        if ledState[led] == Off {
          ledState[led] := On;
        } else if ledState[led] == On {
          ledState[led] := Off;
        }
        hal := hal + [HalToggle(led)];
      }
    }
  }
}
