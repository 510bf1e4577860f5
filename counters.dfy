/** `animateNumbers` of js/main.js for one `.stat-number` element: the
    target is read from its text, then a 30 ms interval adds a sixtieth of
    the target per tick, showing the floor of the running value until it
    reaches the target, when the exact target is shown and the interval is
    cleared. Numbers are exact reals (no floating-point rounding), and the
    text is the number with its optional '+' rather than a string. */
module MainCounters {
  import opened Wrappers
  import opened JsText

  /** The number of ticks a positive target takes. */
  const Frames := 60

  /** The counter's text: a number, followed by '+' when `plus`. */
  datatype CounterText = CounterText(number: int, plus: bool)

  /** `target + (target > 100 ? '+' : '')`: the text left when the
      interval stops. */
  function FinalText(target: int): (t: CounterText)
    ensures t.number == target
    ensures t.plus <==> target > 100
  {
    CounterText(target, target > 100)
  }

  /** The value after `n` ticks. */
  function After(n: nat, increment: real): real
  {
    n as real * increment
  }

  /** With a positive target the interval reaches it on tick 60 and not
      before. */
  lemma {:induction false} PositiveTargetReachedAtSixty(target: int, n: nat)
    requires target > 0
    ensures After(n, target as real / Frames as real) >= target as real <==> n >= Frames
  {
    var inc := target as real / Frames as real;
    assert inc > 0.0;
    assert Frames as real * inc == target as real;
    if n >= Frames {
      assert (n - Frames) as real * inc >= 0.0;
      assert n as real * inc == Frames as real * inc + (n - Frames) as real * inc;
    } else {
      assert (Frames - n) as real * inc > 0.0;
      assert Frames as real * inc == n as real * inc + (Frames - n) as real * inc;
    }
  }

  /** A target of 0 or below (an unparsable or negative text) is reached
      on the first tick. */
  lemma NonPositiveTargetReachedAtOnce(target: int)
    requires target <= 0
    ensures After(1, target as real / Frames as real) >= target as real
  {
  }

  class Counter {
    /** `parseInt(counter.textContent) || 0`. */
    const target: int
    /** `target / 60`. */
    const increment: real
    var current: real
    /** How many times the interval has fired. */
    ghost var ticks: nat
    /** Whether the interval is still set. */
    var running: bool
    /** The text the interval last wrote (`None`: the original text). */
    var text: Option<CounterText>

    ghost predicate Valid()
      reads this
    {
      && increment == target as real / Frames as real
      && current == After(ticks, increment)
      && (ticks == 0 ==> running && text == None)
      && (ticks > 0 && running ==>
            current < target as real && text == Some(CounterText(current.Floor, target > 100)))
      && (!running ==> ticks > 0 && current >= target as real && text == Some(FinalText(target)))
    }

    /** The counter with the parsed text `parsed` (`None` for `NaN`); the
        interval has just been set. */
    constructor (parsed: Option<int>)
      ensures Valid()
      ensures target == OrInt(parsed, 0) && running && ticks == 0 && text == None
    {
      target := OrInt(parsed, 0);
      increment := OrInt(parsed, 0) as real / Frames as real;
      current := 0.0;
      ticks := 0;
      running := true;
      text := None;
    }

    /** One firing of the interval. While the target is not reached, the
        shown number is the floor of the running value and stays below the
        target; the suffix is '+' exactly for targets above 100. */
    method Tick()
      requires Valid() && running
      modifies this
      ensures Valid()
      ensures ticks == old(ticks) + 1 && current == old(current) + increment
      ensures text.Some? && (text.value.plus <==> target > 100)
      ensures running ==> text.value.number < target && text.value.number as real <= current
      ensures !running <==> current >= target as real
    {
      current := current + increment;
      ticks := ticks + 1;
      assert current == After(ticks, increment) by {
        assert ticks as real * increment == (ticks - 1) as real * increment + increment;
      }
      if current >= target as real {
        text := Some(CounterText(target, target > 100));
        running := false;
      } else {
        text := Some(CounterText(current.Floor, target > 100));
      }
    }
  }

  /** A counter with a positive target runs for exactly 60 ticks and ends
      showing its target. */
  method RunPositive(c: Counter)
    requires c.Valid() && c.ticks == 0 && c.target > 0
    modifies c
    ensures c.Valid() && !c.running && c.ticks == Frames
    ensures c.text == Some(FinalText(c.target))
  {
    while c.running
      invariant c.Valid() && c.ticks <= Frames
      invariant c.running <==> c.ticks < Frames
      decreases Frames - c.ticks
    {
      c.Tick();
      PositiveTargetReachedAtSixty(c.target, c.ticks);
    }
  }
}
