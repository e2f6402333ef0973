// The NeoPixel helpers of shared/led.h: colour names, the colour to channel
// mapping and the blink sequence. The pixel itself is modelled by the
// value written to it (Show) and the waits between writes (Delay).

module Led {
  import opened Text
  import opened Memory

  // LEDColor, as the C enum numbers it.
  const LED_OFF: int := 0
  const LED_RED: int := 1
  const LED_GREEN: int := 2
  const LED_BLUE: int := 3
  const LED_YELLOW: int := 4
  const LED_CYAN: int := 5
  const LED_MAGENTA: int := 6
  const LED_WHITE: int := 7

  /** The default brightness of ledSetColor and ledBlink. */
  const LED_BRIGHTNESS: byte := 128

  datatype Channel = R | G | B

  /**
   * The channels a colour lights, as the enum's comments define the mixed
   * ones (yellow is red and green, cyan green and blue, magenta red and
   * blue, white all three); off and any other value light none.
   */
  function Mix(color: int): set<Channel>
  {
    if color == LED_RED then {R}
    else if color == LED_GREEN then {G}
    else if color == LED_BLUE then {B}
    else if color == LED_YELLOW then {R, G}
    else if color == LED_CYAN then {G, B}
    else if color == LED_MAGENTA then {R, B}
    else if color == LED_WHITE then {R, G, B}
    else {}
  }

  /** One pixel value. */
  datatype Rgb = Rgb(r: byte, g: byte, b: byte)

  const DARK: Rgb := Rgb(0, 0, 0)

  function Level(c: Rgb, ch: Channel): byte
  {
    match ch
    case R => c.r
    case G => c.g
    case B => c.b
  }

  /**
   * ledSetColorBrightness: every channel of the colour at the brightness,
   * the others dark; LED_OFF and values outside the enum turn the pixel off.
   */
  function ColorBrightness(color: int, brightness: byte): (c: Rgb)
    ensures forall ch :: Level(c, ch) == if ch in Mix(color) then brightness else 0
  {
    if color == LED_OFF then DARK
    else if color == LED_RED then Rgb(brightness, 0, 0)
    else if color == LED_GREEN then Rgb(0, brightness, 0)
    else if color == LED_BLUE then Rgb(0, 0, brightness)
    else if color == LED_YELLOW then Rgb(brightness, brightness, 0)
    else if color == LED_CYAN then Rgb(0, brightness, brightness)
    else if color == LED_MAGENTA then Rgb(brightness, 0, brightness)
    else if color == LED_WHITE then Rgb(brightness, brightness, brightness)
    else DARK
  }

  /** ledSetColor: the colour at LED_BRIGHTNESS. */
  function SetColor(color: int): (c: Rgb)
    ensures forall ch :: Level(c, ch) == if ch in Mix(color) then 128 else 0
  {
    ColorBrightness(color, LED_BRIGHTNESS)
  }

  // ---------------------------------------------------------------------
  // parseColor
  // ---------------------------------------------------------------------

  /** A colour with its full name and its one-letter shortcut. */
  datatype ColorName = ColorName(full: string, letter: string, color: int)

  /** The names parseColor accepts, in the order it tries them. */
  const COLOR_NAMES: seq<ColorName> := [
    ColorName("red", "r", LED_RED),
    ColorName("green", "g", LED_GREEN),
    ColorName("blue", "b", LED_BLUE),
    ColorName("yellow", "y", LED_YELLOW),
    ColorName("cyan", "c", LED_CYAN),
    ColorName("magenta", "m", LED_MAGENTA),
    ColorName("white", "w", LED_WHITE),
    ColorName("off", "o", LED_OFF)
  ]

  /** s is the name or the shortcut, ignoring case. */
  predicate Names(s: string, n: ColorName)
  {
    EqualsIgnoreCase(s, n.full) || EqualsIgnoreCase(s, n.letter)
  }

  /** parseColor: the colour named, LED_OFF for "off", "o" and anything unrecognised. */
  function ParseColor(s: string): (c: int)
    ensures LED_OFF <= c <= LED_WHITE
  {
    if EqualsIgnoreCase(s, "red") || EqualsIgnoreCase(s, "r") then LED_RED
    else if EqualsIgnoreCase(s, "green") || EqualsIgnoreCase(s, "g") then LED_GREEN
    else if EqualsIgnoreCase(s, "blue") || EqualsIgnoreCase(s, "b") then LED_BLUE
    else if EqualsIgnoreCase(s, "yellow") || EqualsIgnoreCase(s, "y") then LED_YELLOW
    else if EqualsIgnoreCase(s, "cyan") || EqualsIgnoreCase(s, "c") then LED_CYAN
    else if EqualsIgnoreCase(s, "magenta") || EqualsIgnoreCase(s, "m") then LED_MAGENTA
    else if EqualsIgnoreCase(s, "white") || EqualsIgnoreCase(s, "w") then LED_WHITE
    else if EqualsIgnoreCase(s, "off") || EqualsIgnoreCase(s, "o") then LED_OFF
    else LED_OFF
  }

  predicate LowerCase(a: string)
  {
    forall i :: 0 <= i < |a| ==> !('A' <= a[i] <= 'Z')
  }

  /** Two lower-case texts a string equals ignoring case are the same text. */
  lemma IgnoreCaseUnique(s: string, a: string, b: string)
    requires LowerCase(a) && LowerCase(b)
    requires EqualsIgnoreCase(s, a) && EqualsIgnoreCase(s, b)
    ensures a == b
  {
    forall i | 0 <= i < |a|
      ensures a[i] == b[i]
    {
      assert ToLower(a[i]) == ToLower(s[i]) == ToLower(b[i]);
    }
  }

  /** Every name in the table is lower case. */
  lemma NamesLowerCase(k: nat)
    requires k < |COLOR_NAMES|
    ensures LowerCase(COLOR_NAMES[k].full) && LowerCase(COLOR_NAMES[k].letter)
  {
  }

  /** No two rows share a name or a letter, and no name is another row's letter. */
  lemma NamesDistinct(k: nat, l: nat)
    requires k < l < |COLOR_NAMES|
    ensures var x, y := COLOR_NAMES[k], COLOR_NAMES[l];
      x.full != y.full && x.full != y.letter && x.letter != y.full && x.letter != y.letter
  {
  }

  /** No string names two different rows. */
  lemma NamesExclusive(s: string, k: nat, l: nat)
    requires k < l < |COLOR_NAMES|
    ensures !(Names(s, COLOR_NAMES[k]) && Names(s, COLOR_NAMES[l]))
  {
    var x, y := COLOR_NAMES[k], COLOR_NAMES[l];
    NamesLowerCase(k);
    NamesLowerCase(l);
    NamesDistinct(k, l);
    if Names(s, x) && Names(s, y) {
      var a := if EqualsIgnoreCase(s, x.full) then x.full else x.letter;
      var b := if EqualsIgnoreCase(s, y.full) then y.full else y.letter;
      IgnoreCaseUnique(s, a, b);
      assert false;
    }
  }

  /**
   * parseColor answers a colour exactly when the string names it, ignoring
   * case, by its full name or its letter; it answers LED_OFF exactly when
   * the string names none of the seven colours.
   */
  lemma ParseColorIff(s: string, k: nat)
    requires k < 7
    ensures ParseColor(s) == COLOR_NAMES[k].color <==> Names(s, COLOR_NAMES[k])
    ensures ParseColor(s) == LED_OFF <==> forall j :: 0 <= j < 7 ==> !Names(s, COLOR_NAMES[j])
  {
    assert COLOR_NAMES[0] == ColorName("red", "r", LED_RED);
    assert COLOR_NAMES[1] == ColorName("green", "g", LED_GREEN);
    assert COLOR_NAMES[2] == ColorName("blue", "b", LED_BLUE);
    assert COLOR_NAMES[3] == ColorName("yellow", "y", LED_YELLOW);
    assert COLOR_NAMES[4] == ColorName("cyan", "c", LED_CYAN);
    assert COLOR_NAMES[5] == ColorName("magenta", "m", LED_MAGENTA);
    assert COLOR_NAMES[6] == ColorName("white", "w", LED_WHITE);
    forall j, l | 0 <= j < l < |COLOR_NAMES|
      ensures !(Names(s, COLOR_NAMES[j]) && Names(s, COLOR_NAMES[l]))
    {
      NamesExclusive(s, j, l);
    }
  }

  /** Every colour's name and letter parse back to it, in any case. */
  lemma ParseColorNames(k: nat)
    requires k < |COLOR_NAMES|
    ensures ParseColor(COLOR_NAMES[k].full) == COLOR_NAMES[k].color
    ensures ParseColor(COLOR_NAMES[k].letter) == COLOR_NAMES[k].color
    ensures ParseColor(Upper(COLOR_NAMES[k].full)) == COLOR_NAMES[k].color
  {
    var n := COLOR_NAMES[k];
    assert EqualsIgnoreCase(n.full, n.full);
    assert EqualsIgnoreCase(n.letter, n.letter);
    assert EqualsIgnoreCase(Upper(n.full), n.full);
    NamedParses(n.full, k);
    NamedParses(n.letter, k);
    NamedParses(Upper(n.full), k);
  }

  /** A string that names a row of the table parses to that row's colour. */
  lemma NamedParses(s: string, k: nat)
    requires k < |COLOR_NAMES| && Names(s, COLOR_NAMES[k])
    ensures ParseColor(s) == COLOR_NAMES[k].color
  {
    if k < 7 {
      ParseColorIff(s, k);
    } else {
      forall j | 0 <= j < 7
        ensures !Names(s, COLOR_NAMES[j])
      {
        NamesExclusive(s, j, k);
      }
      ParseColorIff(s, 0);
    }
  }

  /** ASCII upper case of a lower-case text. */
  function Upper(a: string): (u: string)
    ensures |u| == |a| && forall i :: 0 <= i < |a| ==> ToLower(u[i]) == ToLower(a[i])
  {
    if |a| == 0 then []
    else [if 'a' <= a[0] <= 'z' then (a[0] as int - 32) as char else a[0]] + Upper(a[1..])
  }

  // ---------------------------------------------------------------------
  // ledBlink
  // ---------------------------------------------------------------------

  /** What the pixel sees: a value written to it, or a wait of some milliseconds. */
  datatype Event = Show(c: Rgb) | Delay(ms: nat)

  /** One blink: on, wait, off. */
  function Flash(on: Rgb, periodMs: nat): seq<Event>
  {
    [Show(on), Delay(periodMs), Show(DARK)]
  }

  /** count blinks separated by an off wait of the same period; none for count <= 0. */
  function Blinks(on: Rgb, count: int, periodMs: nat): (r: seq<Event>)
    decreases count
  {
    if count <= 0 then []
    else if count == 1 then Flash(on, periodMs)
    else Blinks(on, count - 1, periodMs) + [Delay(periodMs)] + Flash(on, periodMs)
  }

  /** The number of waits. */
  function Delays(es: seq<Event>): nat
  {
    if |es| == 0 then 0 else Delays(es[..|es| - 1]) + (if es[|es| - 1].Delay? then 1 else 0)
  }

  lemma {:induction false} DelaysAppend(a: seq<Event>, b: seq<Event>)
    ensures Delays(a + b) == Delays(a) + Delays(b)
    decreases |b|
  {
    if |b| == 0 {
      assert a + b == a;
    } else {
      assert (a + b)[..|a + b| - 1] == a + b[..|b| - 1];
      DelaysAppend(a, b[..|b| - 1]);
    }
  }

  /**
   * The blink sequence, position by position: blink i is the on value at
   * 4i, a wait at 4i+1 and the pixel off at 4i+2; a wait separates it from
   * the next one. So there are count on phases, and count - 1 off waits
   * in between (2 count - 1 waits in all).
   */
  lemma {:induction false} BlinksShape(on: Rgb, count: int, periodMs: nat)
    requires count > 0
    ensures var es := Blinks(on, count, periodMs);
      |es| == 4 * count - 1 && Delays(es) == 2 * count - 1 &&
      (forall i :: 0 <= i < count ==> es[4 * i] == Show(on) && es[4 * i + 1] == Delay(periodMs) && es[4 * i + 2] == Show(DARK)) &&
      (forall i :: 0 <= i < count - 1 ==> es[4 * i + 3] == Delay(periodMs))
    decreases count
  {
    var f := Flash(on, periodMs);
    assert Delays(f) == 1 by {
      assert f[..2] == [Show(on), Delay(periodMs)];
      assert f[..2][..1] == [Show(on)];
      assert [Show(on)][..0] == [];
      assert Delays([Show(on)]) == 0;
      assert Delays(f[..2]) == 1;
    }
    if count > 1 {
      var prev := Blinks(on, count - 1, periodMs);
      BlinksShape(on, count - 1, periodMs);
      DelaysAppend(prev, [Delay(periodMs)]);
      DelaysAppend(prev + [Delay(periodMs)], f);
      assert Delays([Delay(periodMs)]) == 1 by {
        assert [Delay(periodMs)][..0] == [];
      }
    }
  }

  /** ledBlink: count blinks of the colour at the brightness, each phase periodMs long. */
  method Blink(color: int, count: int, periodMs: nat, brightness: byte) returns (events: seq<Event>)
    ensures events == Blinks(ColorBrightness(color, brightness), count, periodMs)
  {
    var on := ColorBrightness(color, brightness);
    events := [];
    var i := 0;
    while i < count
      invariant 0 <= i && (count > 0 ==> i <= count) && (count <= 0 ==> i == 0)
      invariant events == if i == 0 then [] else Blinks(on, i, periodMs) + (if i < count then [Delay(periodMs)] else [])
    {
      ghost var before := events;
      events := events + [Show(on), Delay(periodMs), Show(DARK)];
      if i > 0 {
        assert events == Blinks(on, i, periodMs) + [Delay(periodMs)] + Flash(on, periodMs);
      }
      assert events == Blinks(on, i + 1, periodMs);
      if i < count - 1 {
        events := events + [Delay(periodMs)];
      }
      i := i + 1;
    }
    if count > 0 {
      assert events == Blinks(on, count, periodMs) + [];
    }
  }
}
