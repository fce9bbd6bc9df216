# Stress spectrum generator, modelled in Dafny

`stress-spectrum.py` builds fatigue stress spectra for a single stress
component. A spectrum is an append-only collection of load events. Each
event carries an equivalent number of cycles, a minimum and a maximum stress,
and a free-text description. When the spectrum reports statistics and when
it is saved in NASFORM "max min cycle" format, three factors apply:

- a prestress, added to every stress and never scaled;
- a factor on the alternating stress;
- a factor on the cycle counts.

Three factory functions turn physical load cases into events:

- random vibration uses the Paris-exponent table of NASGRO appendix G, read
  by linear interpolation;
- a sine sweep from 20 Hz to 100 Hz uses NASGRO appendix H;
- a thermal cycle is taken relative to a reference temperature.

The model has five modules:

- `Outcomes`: the error kinds. Each place where the program raises becomes an
  `Err`: an argument below or above the table, a zero sweep rate, statistics
  of an empty spectrum. The model also returns `Err(TooFewPoints)` for a table
  of fewer than two entries.
- `Numeric`: the ceiling of a real (`math.ceil`) and small facts of real
  arithmetic.
- `Interpolation`: `linear_interpolation`. The table is a `map<real, real>`.
  Its keys are sorted. The result behaves like a linear, bounds-checked
  `interp1d`. The model computes it this way:
  - a left-sided search for the argument;
  - the index clipped to an inner segment;
  - `slope * (x - x_lo) + y_lo`;
  - an error outside the range of the keys.

  In exact arithmetic the choice of segment does not change the value:
  `InterpolateOnSegment` proves that every segment bracketing the argument
  gives the same result. The model treats a table of fewer than two entries
  as an error.
- `Events`: the `Event` record, the Paris-exponent table, and `RandomEvent`,
  `SineEvent` and `ThermalEvent`.
- `Spectrum`: the `StressSpectrum` class.
  - Its events are a `seq<Event>` field, which `Append` extends.
  - `Save` is a loop that produces the file's header and one record per event.
    In verbose mode it also produces the echoed lines.
  - The statistics are a pure function of the factors and the events.

Saving an empty spectrum writes the header line and no records. Statistics
of an empty spectrum fail, because `max` of an empty list raises, and the
model returns `Err(EmptySpectrum)` for them.

## Model

| member | source | states |
|---|---|---|
| Numeric.Ceil | stress-spectrum.py:120 | The result is the least integer not below its argument, as `math.ceil` promises. |
| Numeric.CeilMonotone | stress-spectrum.py:145 | Rounding up keeps order: a larger count never gets a smaller ceiling. |
| Interpolation.SortedKeys | stress-spectrum.py:179 | The sorted keys hold exactly the table's keys, once each, in strictly increasing order. |
| Interpolation.ValuesAt | stress-spectrum.py:181 | The value array has one entry per sorted key, and entry `i` is the table's value at key `i`. |
| Interpolation.SearchLeft | stress-spectrum.py:182-183 | The insertion point splits the sorted keys: every key before it is below the argument, and every key from it on is at or above it. |
| Interpolation.UpperIndex | stress-spectrum.py:182-183 | The chosen segment is an inner one. For an argument in range, the segment brackets it. At the first key, the first segment is chosen. |
| Interpolation.Interpolate | stress-spectrum.py:182-183 | The result is an error exactly when there are fewer than two points or the argument lies outside `[first key, last key]`. The error is TooFewPoints, BelowRange or AboveRange, in that order of precedence. |
| Interpolation.LerpTwoPointForm | stress-spectrum.py:182-183 | The slope form that the interpolant evaluates equals the two-point formula y0 + (y1 − y0)(x − x0)/(x1 − x0). |
| Interpolation.LerpBetween | stress-spectrum.py:182-183 | The straight line through two points passes through both ends. Between the ends it stays between the two values, strictly inside when they differ. |
| Interpolation.InterpolateOnSegment | stress-spectrum.py:182-183 | On any segment that brackets the argument, the result is the straight line through that segment's end points. A key shared by two segments gives the same value from either side. |
| Interpolation.InterpolateWithinValues | stress-spectrum.py:182-183 | A successful interpolation lies between two of the interpolated values, so it never leaves their range. |
| Interpolation.InterpolateAtKey | stress-spectrum.py:182-183 | At a key, the interpolation returns exactly that key's value. |
| Interpolation.LinearInterpolation | stress-spectrum.py:172-183 | Fails exactly when the table has fewer than two entries or the argument is below every key or above every key. Fewer than two entries is TooFewPoints. At a key with two or more entries, the result is that key's value. |
| Interpolation.LinearInterpolationBetweenKeys | stress-spectrum.py:172-183 | Between two neighbouring keys, the result is the straight line through their entries and lies between their two values. |
| Events.ParisTableKeys | stress-spectrum.py:112-118 | The Paris table has exactly the exponents 2, 3, 4, 5 and 6, and every coefficient lies in [0.066, 0.222]. |
| Events.ParisCoefficient | stress-spectrum.py:112-119 | The coefficient exists exactly for exponents in [2, 6]. Below 2 it is BelowRange, above 6 AboveRange. At a listed exponent it is the table's entry, and it always lies within [0.066, 0.222]. |
| Events.RandomCycles | stress-spectrum.py:119-120 | The cycle count is the least integer not below frequency × duration × coefficient. |
| Events.RandomEvent | stress-spectrum.py:92-121 | Succeeds exactly for exponents in [2, 6] and names the error otherwise. The event is symmetric (`sMin = -stress`, `sMax = stress`) and keeps its description. Its count is the rounded-up product with the interpolated Paris coefficient. |
| Events.RandomEventAtListedExponent | stress-spectrum.py:112-121 | At a listed exponent, the event uses that table entry unchanged. |
| Events.RandomEventCycleBounds | stress-spectrum.py:112-120 | For a non-negative frequency × duration, the count lies between the counts for the smallest and the largest coefficient of the table. |
| Events.RandomCyclesMonotone | stress-spectrum.py:119-120 | For a non-negative frequency × duration, a larger coefficient never gives fewer cycles. |
| Events.RandomEventExampleCycles | stress-spectrum.py:189-194 | For the example random load of 300 × 1.15 MPa at 200 Hz for 120 s with n = 2, the count is 5328. |
| Events.RandomEventExample | stress-spectrum.py:188-195 | The script's random load (300 × 1.15 MPa at 200 Hz for 120 s, default exponent 2, "Random X") is the event of 5328 cycles between −345 and 345 MPa with that description. |
| Events.SineEvent | stress-spectrum.py:124-147 | Fails exactly for a zero sweep rate. The event is symmetric at load × unit-load stress and keeps its description. Its count is the ceiling of 60 × (100 − 20) / (rate × ln 2). |
| Events.SineEventCycles | stress-spectrum.py:142-147 | For every non-zero sweep rate, the count depends on the rate alone and not on the stress. For a positive rate, a faster sweep never gives more cycles and there is at least one cycle. A negative rate, which the program accepts, gives a count that is not positive. |
| Events.ThermalEvent | stress-spectrum.py:150-169 | The count and the description pass through. Each stress is the stress per kelvin times that bound's offset from the reference temperature. The stress range is the stress per kelvin times the temperature range. A bound at the reference temperature gives zero stress. |
| Events.ThermalEventOrdered | stress-spectrum.py:167-169 | A non-negative stress per kelvin keeps `sMin <= sMax` for `tMin <= tMax`. A negative one with `tMin < tMax` puts `sMax` strictly below `sMin`. |
| Events.ThermalEventExample | stress-spectrum.py:197-204 | The example thermal cycle (10 MPa/K between 0 and 50 °C, reference 20 °C, 365 cycles, "Thermoelastic") is the event with stresses −200 and 300 MPa and that description. |
| Spectrum.ScaleEvent | stress-spectrum.py:82-84 | The written count is the least integer not below cycle factor × event count. |
| Spectrum.ScaleEventRange | stress-spectrum.py:82-83 | The prestress is added after the stress factor and is not scaled. So each written stress minus the prestress is the factor times the event's stress, and the written range is the factor times the event's range. |
| Spectrum.ScaleEventOrdered | stress-spectrum.py:82-83 | Under a non-negative stress factor, a well-ordered event gives a well-ordered record. |
| Spectrum.ScaledMonotone | stress-spectrum.py:82-83 | Scaling a stress keeps order under a non-negative factor and reverses it under a non-positive one. |
| Spectrum.RecordsOf | stress-spectrum.py:80-86 | The file has exactly one record per event, in the order the events were appended. Record `i` is event `i` scaled. |
| Spectrum.RecordsAppend | stress-spectrum.py:49-50 | Appending an event adds its record at the end of the file and leaves the earlier records unchanged. |
| Spectrum.PeakMax | stress-spectrum.py:54 | The peak is the maximum stress of one of the events, and no event's maximum exceeds it. |
| Spectrum.PeakMin | stress-spectrum.py:58 | The trough is the minimum stress of one of the events, and no event's minimum is below it. |
| Spectrum.StatsOf | stress-spectrum.py:52-67 | An empty spectrum is EmptySpectrum. Otherwise both factors are reported unchanged. Each peak equals the stress of one written record. Under a non-negative stress factor the peaks bound every record, and under a non-positive one they bound it the other way round. The total is the least integer not below cycle factor × sum of counts. |
| Spectrum.PeaksBound | stress-spectrum.py:54-59 | The scaled peaks bound the scaled stresses of every event, in the direction the sign of the stress factor gives. |
| Spectrum.TotalNeqPermutation | stress-spectrum.py:62 | The summed cycle count does not depend on the order of the events. |
| Spectrum.PeaksPermutation | stress-spectrum.py:54-59 | The peak and the trough do not depend on the order of the events. |
| Spectrum.StatsPermutation | stress-spectrum.py:52-67 | Two spectra with the same events in any order report the same statistics. |
| Spectrum.FileCyclesBracket | stress-spectrum.py:84 | The file's cycle column sums to at least the scaled total, and, for a non-empty spectrum, to less than the scaled total plus one cycle per event. |
| Spectrum.StatsTotalAgainstFile | stress-spectrum.py:62-63 | The total that `stats` reports is at most the sum of the saved cycle column, and exceeds that sum minus the number of events. |
| Spectrum.ScaleEventExample | stress-spectrum.py:82-84 | With stress factor 2, cycle factor 1 and prestress 5, an event of 10 cycles between −10 and 10 MPa is written as 25, −15, 10. |
| Spectrum.StressSpectrum.constructor | stress-spectrum.py:25-47 | The new spectrum keeps the path and the three factors and has no events. The defaults are prestress 0, stress factor 1 and cycle factor 4. |
| Spectrum.StressSpectrum.Append | stress-spectrum.py:49-50 | The event is added at the end, and nothing else changes. |
| Spectrum.StressSpectrum.Stats | stress-spectrum.py:52-67 | The statistics are those of the events appended so far under the spectrum's own factors. |
| Spectrum.StressSpectrum.Save | stress-spectrum.py:69-89 | The file goes to the spectrum's path. It holds the header and then one scaled record per event in append order, and an empty spectrum gives the header alone. In verbose mode each record is echoed with its event's description, and otherwise nothing is echoed. Saving leaves the spectrum unchanged. |
| Spectrum.SaveTwice | stress-spectrum.py:69-89 | Saving twice with no append in between writes the same file, with one record per event. |

## Left out

- The file is not written. `Save` returns the file's content: path, header and records. Opening, writing and the failure to open are not modelled.
- The text rendering is not modelled:
  - the `4.2f` formatting of stresses;
  - the two-space separators;
  - the `ljust(26)` padding and the " | " before the description;
  - the "==============" line printed before a verbose save;
  - the wording of the lines `stats` prints.
  
  `Stats` returns the values that are printed, and the echoed lines carry the record and its description.
- Floating point is not modelled. All stress and cycle arithmetic is exact real arithmetic. `math.log(2)` is the fixed constant 0.6931471805599453, the shortest decimal that reads back as the double closest to ln 2. A product that lands within rounding error of an integer can round up differently in the program.
- scipy's `interp1d` is not part of this model. Only its linear, bounds-checked behaviour on a dictionary with distinct keys is modelled, as described above. numpy arrays become sequences.
- Exceptions become `Err` values: `ValueError` from `interp1d` for an argument outside the table or from `max` of an empty list, and `ZeroDivisionError` from a zero sweep rate. The model treats a table of fewer than two entries as an error as well. The exception's message text is not modelled.
- Event counts are reals. `ThermalEvent` passes its count through unchanged, whatever its type in the program.
- The `__main__` script is not modelled as a run. Its two events are stated as example lemmas.
