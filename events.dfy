/** Spectrum events and the three loading models that produce them: random
    vibration, logarithmic sine sweep and thermal cycling. */
module Events {
  import opened Outcomes
  import opened Numeric
  import opened Interpolation

  /** One spectrum entry: `neq` damage-equivalent cycles between the stresses
      `sMin` and `sMax` (MPa), with a free-text label. Nothing checks that
      sMin <= sMax. */
  datatype Event = Event(neq: real, sMin: real, sMax: real, desc: string)

  /** Paris'-law exponent n to the coefficient of the equivalent cycle count
      of a stationary random vibration. */
  function ParisExponentTable(): map<real, real> {
    map[2.0 := 0.222, 3.0 := 0.139, 4.0 := 0.099, 5.0 := 0.077, 6.0 := 0.066]
  }

  /** The lower and upper end of the swept band of a sine test [Hz]. */
  const SweepStart: real := 20.0
  const SweepEnd: real := 100.0

  /** ln 2 as the shortest decimal that reads back as the double closest
      to ln 2, which a floating-point logarithm returns. */
  const Ln2: real := 0.6931471805599453

  lemma ParisTableKeys()
    ensures ParisExponentTable().Keys == {2.0, 3.0, 4.0, 5.0, 6.0}
    ensures |ParisExponentTable()| == 5
    ensures forall k :: k in ParisExponentTable() ==> k == 2.0 || k == 3.0 || k == 4.0 || k == 5.0 || k == 6.0
    ensures forall k :: k in ParisExponentTable() ==> 0.066 <= ParisExponentTable()[k] <= 0.222
  {
    forall k | k in ParisExponentTable()
      ensures k == 2.0 || k == 3.0 || k == 4.0 || k == 5.0 || k == 6.0
    {
      assert k in {2.0, 3.0, 4.0, 5.0, 6.0};
    }
  }

  /** The listed exponents span exactly [2, 6]. */
  lemma ParisTableSpan(n: real)
    ensures 2 <= |ParisExponentTable()|
    ensures (forall k :: k in ParisExponentTable() ==> n < k) <==> n < 2.0
    ensures (forall k :: k in ParisExponentTable() ==> k < n) <==> 6.0 < n
  {
    ParisTableKeys();
    assert 2.0 in ParisExponentTable() && 6.0 in ParisExponentTable();
  }

  /** The coefficient for exponent n: the table entry at a listed exponent,
      the interpolated one between them, an error outside [2, 6]. */
  function ParisCoefficient(n: real): (r: Result<real>)
    ensures r.Ok? <==> 2.0 <= n <= 6.0
    ensures n < 2.0 ==> r == Err(BelowRange)
    ensures 6.0 < n ==> r == Err(AboveRange)
    ensures n in ParisExponentTable() ==> r == Ok(ParisExponentTable()[n])
    ensures r.Ok? ==> 0.066 <= r.value <= 0.222
  {
    ParisTableSpan(n);
    ParisCoefficientRange(n);
    LinearInterpolation(ParisExponentTable(), n)
  }

  /** Within [2, 6] the interpolated coefficient stays within the extreme
      table values. */
  lemma ParisCoefficientRange(n: real)
    ensures LinearInterpolation(ParisExponentTable(), n).Ok? ==>
              0.066 <= LinearInterpolation(ParisExponentTable(), n).value <= 0.222
  {
    if n < 2.0 || 6.0 < n {
      ParisTableSpan(n);
    } else if n <= 3.0 {
      ParisSegmentRange(2.0, n);
    } else if n <= 4.0 {
      ParisSegmentRange(3.0, n);
    } else if n <= 5.0 {
      ParisSegmentRange(4.0, n);
    } else {
      ParisSegmentRange(5.0, n);
    }
  }

  lemma ParisSegmentRange(lo: real, n: real)
    requires lo == 2.0 || lo == 3.0 || lo == 4.0 || lo == 5.0
    requires lo <= n <= lo + 1.0
    ensures LinearInterpolation(ParisExponentTable(), n).Ok?
    ensures 0.066 <= LinearInterpolation(ParisExponentTable(), n).value <= 0.222
  {
    ParisTableKeys();
    LinearInterpolationBetweenKeys(ParisExponentTable(), lo, lo + 1.0, n);
  }

  /** The equivalent cycle count of a random vibration: the number of cycles
      at the natural frequency `fn` [Hz] during `duration` seconds, times
      the coefficient, rounded up. */
  function RandomCycles(fn: real, duration: real, coefficient: real): (c: int)
    ensures IsCeiling(c, fn * duration * coefficient)
  {
    Ceil(fn * duration * coefficient)
  }

  /** Random vibration of `duration` seconds at natural frequency `fn` Hz and
      stress level `stress`: a fully reversed event whose cycle count is the
      number of vibration cycles times the coefficient for exponent n,
      rounded up. An exponent outside [2, 6] is an interpolation error. */
  function RandomEvent(stress: real, fn: real, duration: real, n: real := 2.0, desc: string := ""): (r: Result<Event>)
    ensures r.Ok? <==> 2.0 <= n <= 6.0
    ensures n < 2.0 ==> r == Err(BelowRange)
    ensures 6.0 < n ==> r == Err(AboveRange)
    ensures r.Ok? ==> r.value.sMax == stress && r.value.sMin == -stress && r.value.desc == desc
    ensures r.Ok? ==> r.value.neq == RandomCycles(fn, duration, ParisCoefficient(n).value) as real
  {
    match ParisCoefficient(n)
    case Err(e) => Err(e)
    case Ok(coefficient) => Ok(Event(RandomCycles(fn, duration, coefficient) as real, -stress, stress, desc))
  }

  /** At a listed exponent the cycle count uses that exponent's table entry. */
  lemma RandomEventAtListedExponent(stress: real, fn: real, duration: real, n: real, desc: string)
    requires n in ParisExponentTable()
    ensures RandomEvent(stress, fn, duration, n, desc).Ok?
    ensures RandomEvent(stress, fn, duration, n, desc).value.neq
              == RandomCycles(fn, duration, ParisExponentTable()[n]) as real
  {
  }

  /** With a non-negative number of vibration cycles the cycle count lies
      between those of the two extreme exponents, 6 and 2. */
  lemma RandomEventCycleBounds(stress: real, fn: real, duration: real, n: real, desc: string)
    requires 2.0 <= n <= 6.0 && 0.0 <= fn * duration
    ensures RandomCycles(fn, duration, 0.066) as real
              <= RandomEvent(stress, fn, duration, n, desc).value.neq
              <= RandomCycles(fn, duration, 0.222) as real
  {
    var c := ParisCoefficient(n).value;
    RandomCyclesMonotone(fn, duration, 0.066, c);
    RandomCyclesMonotone(fn, duration, c, 0.222);
  }

  lemma RandomCyclesMonotone(fn: real, duration: real, c: real, c': real)
    requires 0.0 <= fn * duration && c <= c'
    ensures RandomCycles(fn, duration, c) <= RandomCycles(fn, duration, c')
  {
    var k := fn * duration;
    ScaleOrder(k, c, c');
    assert k * c <= k * c';
    CeilMonotone(fn * duration * c, fn * duration * c');
  }

  /** 345 MPa (300 MPa with a factor 1.15) for 120 s at 200 Hz with the
      default exponent 2: by RandomEventAtListedExponent the event has
      stresses -345 and 345 and this many cycles, 200 * 120 * 0.222. */
  lemma RandomEventExampleCycles()
    ensures 300.0 * 1.15 == 345.0
    ensures RandomCycles(200.0, 120.0, ParisExponentTable()[2.0]) == 5328
  {
    var c := RandomCycles(200.0, 120.0, 0.222);
    assert 200.0 * 120.0 * 0.222 == 5328.0;
    CeilingUnique(c, 5328, 5328.0);
  }

  /** The script's random load, as appended: 5328 cycles between -345 and
      345 MPa, with its description. */
  lemma RandomEventExample()
    ensures RandomEvent(300.0 * 1.15, 200.0, 120.0, 2.0, "Random X") == Ok(Event(5328.0, -345.0, 345.0, "Random X"))
  {
    RandomEventAtListedExponent(300.0 * 1.15, 200.0, 120.0, 2.0, "Random X");
    RandomEventExampleCycles();
  }

  /** Logarithmic sweep over the fixed 20-100 Hz band at `sweepRate` octaves
      per minute, with amplitude load * stress1g: a fully reversed event
      whose cycle count is 60 / (sweepRate * ln 2) * 80, rounded up. A zero
      sweep rate is a division by zero. */
  function SineEvent(stress1g: real, load: real, sweepRate: real, desc: string := ""): (r: Result<Event>)
    ensures r.Err? <==> sweepRate == 0.0
    ensures r.Err? ==> r.error == DivisionByZero
    ensures r.Ok? ==> r.value.sMax == load * stress1g && r.value.sMin == -r.value.sMax
    ensures r.Ok? ==> r.value.desc == desc
    ensures r.Ok? ==> r.value.neq == Ceil(60.0 * (SweepEnd - SweepStart) / (sweepRate * Ln2)) as real
  {
    if sweepRate * Ln2 == 0.0 then Err(DivisionByZero)
    else
      var band := SweepEnd - SweepStart;
      var neq := Ceil(60.0 / (sweepRate * Ln2) * band);
      var stress := load * stress1g;
      SlopeForm(60.0, band, sweepRate * Ln2);
      Ok(Event(neq as real, -stress, stress, desc))
  }

  /** The sine-sweep cycle count depends on the sweep rate only. For a
      positive rate a faster sweep never gives more cycles and there is at
      least one cycle; a negative rate, which the program accepts, gives a
      count that is not positive. */
  lemma SineEventCycles(stress1g: real, load: real, stress1g': real, load': real, rate: real, rate': real)
    requires rate != 0.0
    ensures SineEvent(stress1g, load, rate).value.neq == SineEvent(stress1g', load', rate).value.neq
    ensures 0.0 < rate <= rate' ==> SineEvent(stress1g, load, rate').value.neq <= SineEvent(stress1g, load, rate).value.neq
    ensures 0.0 < rate ==> 1.0 <= SineEvent(stress1g, load, rate).value.neq
    ensures rate < 0.0 ==> SineEvent(stress1g, load, rate).value.neq <= 0.0
  {
    var slow := 4800.0 / (rate * Ln2);
    SlopeForm(60.0, 80.0, rate * Ln2);
    var c := Ceil(slow);
    assert SineEvent(stress1g, load, rate).value.neq == c as real;
    if 0.0 < rate {
      ProductSign(rate, Ln2);
      assert 0.0 < slow;
      assert 1 <= c;
      if rate <= rate' {
        var fast := 4800.0 / (rate' * Ln2);
        SlopeForm(60.0, 80.0, rate' * Ln2);
        ScaleOrder(Ln2, rate, rate');
        assert rate * Ln2 <= rate' * Ln2;
        DivisionAntitone(4800.0, rate * Ln2, rate' * Ln2);
        CeilMonotone(fast, slow);
        assert SineEvent(stress1g, load, rate').value.neq == Ceil(fast) as real;
      }
    } else {
      ProductSign(rate, Ln2);
      assert rate * Ln2 < 0.0;
      assert slow < 0.0;
      assert c <= 0;
    }
  }

  lemma DivisionAntitone(a: real, d: real, e: real)
    requires 0.0 <= a && 0.0 < d <= e
    ensures 0.0 <= a / e <= a / d
  {
    var p := a / d;
    var q := a / e;
    assert p * d == a && q * e == a;
    assert q * d <= q * e;
  }

  /** Thermal cycling between tMin and tMax, relative to the reference
      temperature tRef, at stress1K MPa per kelvin; the cycle count is passed
      through as given. */
  function ThermalEvent(stress1K: real, tMax: real, tMin: real, neq: real := 1.0, tRef: real := 20.0, desc: string := ""): (r: Event)
    ensures r.neq == neq && r.desc == desc
    ensures r.sMin == stress1K * (tMin - tRef) && r.sMax == stress1K * (tMax - tRef)
    ensures r.sMax - r.sMin == stress1K * (tMax - tMin)
    ensures tMin == tRef ==> r.sMin == 0.0
    ensures tMax == tRef ==> r.sMax == 0.0
  {
    Event(neq, stress1K * (tMin - tRef), stress1K * (tMax - tRef), desc)
  }

  /** The thermal event is well ordered (sMax >= sMin) when the stress per
      kelvin is non-negative and tMax >= tMin; with a negative stress per
      kelvin and tMax > tMin the two stresses come out the other way round. */
  lemma ThermalEventOrdered(stress1K: real, tMax: real, tMin: real, neq: real, tRef: real, desc: string)
    ensures 0.0 <= stress1K && tMin <= tMax ==>
              ThermalEvent(stress1K, tMax, tMin, neq, tRef, desc).sMin
                <= ThermalEvent(stress1K, tMax, tMin, neq, tRef, desc).sMax
    ensures stress1K < 0.0 && tMin < tMax ==>
              ThermalEvent(stress1K, tMax, tMin, neq, tRef, desc).sMax
                < ThermalEvent(stress1K, tMax, tMin, neq, tRef, desc).sMin
  {
    var e := ThermalEvent(stress1K, tMax, tMin, neq, tRef, desc);
    var low, high := tMin - tRef, tMax - tRef;
    assert e.sMin == stress1K * low && e.sMax == stress1K * high;
    if 0.0 <= stress1K && tMin <= tMax {
      ScaleOrder(stress1K, low, high);
    }
    if stress1K < 0.0 && tMin < tMax {
      ScaleOrder(stress1K, low, high);
    }
  }

  /** 10 MPa/K between 0 and 50 degrees around 20 degrees, 365 times. */
  lemma ThermalEventExample()
    ensures ThermalEvent(10.0, 50.0, 0.0, 365.0, 20.0, "Thermoelastic") == Event(365.0, -200.0, 300.0, "Thermoelastic")
  {
  }
}
