// buttons_and_lights.cpp: the user button, debounced in software,
// and the three GPIO channels of a plain RGB LED. The file-level statics
// become the fields of two objects; digitalRead and millis() become
// parameters of the call that reads them.

module Buttons {
  import opened Text
  import Led

  /** The pin levels: the button is wired active low. */
  const HIGH: bool := true
  const LOW: bool := false

  const DEBOUNCE_DELAY: nat := 50

  /** lastButtonState, buttonState and lastDebounceTime. */
  datatype Debouncer = Debouncer(lastReading: bool, state: bool, lastChange: nat)

  /** The state buttonInit sets (and the statics start in). */
  const RELEASED: Debouncer := Debouncer(HIGH, HIGH, 0)

  /** The new state and whether the call reports a press. */
  datatype Sample = Sample(next: Debouncer, pressed: bool)

  /**
   * buttonPressed: a reading different from the last one restarts the
   * debounce timer at changeTime (the first millis()); once more than
   * DEBOUNCE_DELAY ms have passed at checkTime (the second millis(),
   * unsigned 32-bit difference) the reading becomes the debounced state,
   * and a change to LOW is a press. The reading is remembered every time.
   */
  function Debounce(d: Debouncer, reading: bool, changeTime: nat, checkTime: nat): (r: Sample)
    ensures r.next.lastReading == reading
    ensures r.next.lastChange == if reading != d.lastReading then changeTime else d.lastChange
    ensures r.next.state != d.state <==> U32(checkTime - r.next.lastChange) > DEBOUNCE_DELAY && reading != d.state
    ensures r.next.state == d.state || r.next.state == reading
    ensures r.pressed <==> r.next.state != d.state && r.next.state == LOW
  {
    var lastChange := if reading != d.lastReading then changeTime else d.lastChange;
    if U32(checkTime - lastChange) > DEBOUNCE_DELAY && reading != d.state then
      Sample(Debouncer(reading, reading, lastChange), reading == LOW)
    else
      Sample(Debouncer(reading, d.state, lastChange), false)
  }

  /** A reading that has been steady for longer than the debounce delay is taken. */
  lemma SteadyReadingTaken(d: Debouncer, reading: bool, changeTime: nat, checkTime: nat)
    requires reading == d.lastReading && U32(checkTime - d.lastChange) > DEBOUNCE_DELAY
    ensures Debounce(d, reading, changeTime, checkTime).next.state == reading
    ensures Debounce(d, reading, changeTime, checkTime).pressed <==> d.state == HIGH && reading == LOW
  {
  }

  /** A bounce (a changed reading checked within the delay) changes nothing but the timer and the last reading. */
  lemma BounceIgnored(d: Debouncer, reading: bool, changeTime: nat, checkTime: nat)
    requires reading != d.lastReading && U32(checkTime - changeTime) <= DEBOUNCE_DELAY
    ensures Debounce(d, reading, changeTime, checkTime) == Sample(Debouncer(reading, d.state, changeTime), false)
  {
  }

  /** Holding the button down reports one press, however long it is held. */
  lemma HoldPressesOnce(d: Debouncer, t1: nat, t2: nat, t3: nat, t4: nat)
    requires Debounce(d, LOW, t1, t2).pressed
    ensures !Debounce(Debounce(d, LOW, t1, t2).next, LOW, t3, t4).pressed
  {
  }

  /** The user button's debouncer. */
  class Button {
    var lastButtonState: bool
    var buttonState: bool
    var lastDebounceTime: nat

    function State(): Debouncer
      reads this
    {
      Debouncer(lastButtonState, buttonState, lastDebounceTime)
    }

    /** The statics' initial values. */
    constructor ()
      ensures State() == RELEASED
    {
      lastButtonState := HIGH;
      buttonState := HIGH;
      lastDebounceTime := 0;
    }

    /** buttonInit: back to released, timer at 0. */
    method Init()
      modifies this
      ensures State() == RELEASED
    {
      lastButtonState := HIGH;
      buttonState := HIGH;
      lastDebounceTime := 0;
    }

    /** buttonPressed, given the pin reading and the two clock readings. */
    method Pressed(reading: bool, changeTime: nat, checkTime: nat) returns (pressed: bool)
      modifies this
      ensures Sample(State(), pressed) == Debounce(old(State()), reading, changeTime, checkTime)
    {
      if reading != lastButtonState {
        lastDebounceTime := changeTime;
      }
      pressed := false;
      if U32(checkTime - lastDebounceTime) > DEBOUNCE_DELAY {
        if reading != buttonState {
          buttonState := reading;
          if buttonState == LOW {
            pressed := true;
          }
        }
      }
      lastButtonState := reading;
    }
  }

  /** The three channel pins: on or off. */
  datatype Lamps = Lamps(red: bool, green: bool, blue: bool)

  /** ledSetColor's switch: the channels each enum value drives; no case for other values. */
  function LampsOf(color: int): (r: Option<Lamps>)
    ensures r.Some? <==> Led.LED_OFF <= color <= Led.LED_WHITE
    ensures r.Some? ==> (r.value.red <==> Led.R in Led.Mix(color))
    ensures r.Some? ==> (r.value.green <==> Led.G in Led.Mix(color))
    ensures r.Some? ==> (r.value.blue <==> Led.B in Led.Mix(color))
  {
    if color == Led.LED_OFF then Some(Lamps(false, false, false))
    else if color == Led.LED_RED then Some(Lamps(true, false, false))
    else if color == Led.LED_GREEN then Some(Lamps(false, true, false))
    else if color == Led.LED_BLUE then Some(Lamps(false, false, true))
    else if color == Led.LED_YELLOW then Some(Lamps(true, true, false))
    else if color == Led.LED_CYAN then Some(Lamps(false, true, true))
    else if color == Led.LED_MAGENTA then Some(Lamps(true, false, true))
    else if color == Led.LED_WHITE then Some(Lamps(true, true, true))
    else None
  }

  /** The RGB LED's pins. */
  class RgbLed {
    var red: bool
    var green: bool
    var blue: bool

    function Lit(): Lamps
      reads this
    {
      Lamps(red, green, blue)
    }

    /** ledInit: the pins start off. */
    constructor ()
      ensures Lit() == Lamps(false, false, false)
    {
      red, green, blue := false, false, false;
    }

    /** ledSetRGB. */
    method SetRgb(r: bool, g: bool, b: bool)
      modifies this
      ensures Lit() == Lamps(r, g, b)
    {
      red, green, blue := r, g, b;
    }

    /** ledOff. */
    method Off()
      modifies this
      ensures Lit() == Lamps(false, false, false)
    {
      SetRgb(false, false, false);
    }

    /** ledSetColor: the colour's channels; a value outside the enum leaves the pins as they were. */
    method SetColor(color: int)
      modifies this
      ensures Lit() == if LampsOf(color).Some? then LampsOf(color).value else old(Lit())
    {
      var lamps := LampsOf(color);
      if lamps.Some? {
        SetRgb(lamps.value.red, lamps.value.green, lamps.value.blue);
      }
    }
  }
}
