/** The spectrum collector: an append-only sequence of events with the
    scaling applied when statistics are reported and when the spectrum is
    saved in max-min-cycle format. */
module Spectrum {
  import opened Outcomes
  import opened Numeric
  import opened Events

  /** The scaling in effect: a prestress added to every stress, a factor on
      the alternating stress (not on the prestress) and a factor on the
      cycle counts. */
  datatype Scaling = Scaling(prestress: real, sfStress: real, sfCycles: real)

  /** One data line of a saved spectrum: max stress, min stress, cycles. */
  datatype Record = Record(sMax: real, sMin: real, neq: int)

  /** The first line of every spectrum file. */
  const Header: string := "max min cycle format"

  /** A saved spectrum: the target path, the header line and one record per
      event. The decimal rendering of the numbers is not modelled. */
  datatype SpectrumFile = SpectrumFile(path: string, header: string, records: seq<Record>)

  /** A line reported to the operator in verbose mode: the written record
      and the description of its event. */
  datatype EchoLine = EchoLine(record: Record, desc: string)

  /** What `stats` reports: the peak scaled stresses, the total cycle count
      and the two safety factors. */
  datatype Statistics = Statistics(peakMax: real, peakMin: real, totalCycles: int, sfCycles: real, sfStress: real)

  /** A stress after scaling: the stress factor applies to the event's
      stress and the prestress is added unscaled. */
  function Scaled(f: Scaling, stress: real): real {
    f.sfStress * stress + f.prestress
  }

  /** Scaling keeps the order of stresses under a non-negative stress
      factor and reverses it under a non-positive one. */
  lemma ScaledMonotone(f: Scaling, a: real, b: real)
    requires a <= b
    ensures 0.0 <= f.sfStress ==> Scaled(f, a) <= Scaled(f, b)
    ensures f.sfStress <= 0.0 ==> Scaled(f, b) <= Scaled(f, a)
  {
    var k := f.sfStress;
    if 0.0 <= k {
      ScaleOrder(k, a, b);
      assert k * a <= k * b;
    } else {
      ScaleOrder(-k, a, b);
      assert (-k) * a <= (-k) * b;
      assert k * b <= k * a;
    }
  }

  /** A cycle count after scaling. */
  function ScaledCycles(f: Scaling, neq: real): real {
    f.sfCycles * neq
  }

  /** The record written for one event: both stresses scaled, and the
      least integer not below the scaled cycle count. */
  function ScaleEvent(f: Scaling, e: Event): (r: Record)
    ensures IsCeiling(r.neq, ScaledCycles(f, e.neq))
  {
    Record(Scaled(f, e.sMax), Scaled(f, e.sMin), Ceil(ScaledCycles(f, e.neq)))
  }

  /** The prestress is added after the stress factor and is never scaled
      itself, so the stress range of a record is the event's range times
      the stress factor alone. */
  lemma ScaleEventRange(f: Scaling, e: Event)
    ensures ScaleEvent(f, e).sMax - f.prestress == f.sfStress * e.sMax
    ensures ScaleEvent(f, e).sMin - f.prestress == f.sfStress * e.sMin
    ensures ScaleEvent(f, e).sMax - ScaleEvent(f, e).sMin == f.sfStress * (e.sMax - e.sMin)
  {
    SubtractProducts(f.sfStress, e.sMax, e.sMin);
  }

  /** A well-ordered event stays well ordered under a non-negative stress
      factor. */
  lemma ScaleEventOrdered(f: Scaling, e: Event)
    requires 0.0 <= f.sfStress && e.sMin <= e.sMax
    ensures ScaleEvent(f, e).sMin <= ScaleEvent(f, e).sMax
  {
    ProductSign(f.sfStress, e.sMax - e.sMin);
  }

  /** The data lines of the file: exactly one record per event, in the
      order the events were appended. */
  function RecordsOf(f: Scaling, events: seq<Event>): (rs: seq<Record>)
    ensures |rs| == |events|
    ensures forall i :: 0 <= i < |events| ==> rs[i] == ScaleEvent(f, events[i])
  {
    if events == [] then []
    else [ScaleEvent(f, events[0])] + RecordsOf(f, events[1..])
  }

  /** Appending an event adds its record at the end and leaves the earlier
      records as they were. */
  lemma RecordsAppend(f: Scaling, events: seq<Event>, e: Event)
    ensures RecordsOf(f, events + [e]) == RecordsOf(f, events) + [ScaleEvent(f, e)]
  {
    var after := events + [e];
    assert forall i :: 0 <= i < |events| ==> after[i] == events[i];
  }

  /** The largest max stress of a non-empty event list. */
  function PeakMax(events: seq<Event>): (m: real)
    requires events != []
    ensures forall i :: 0 <= i < |events| ==> events[i].sMax <= m
    ensures exists i :: 0 <= i < |events| && events[i].sMax == m
  {
    if |events| == 1 then events[0].sMax
    else
      var rest := PeakMax(events[1..]);
      assert forall i :: 1 <= i < |events| ==> events[i] == events[1..][i - 1];
      if rest <= events[0].sMax then events[0].sMax else rest
  }

  /** The smallest min stress of a non-empty event list. */
  function PeakMin(events: seq<Event>): (m: real)
    requires events != []
    ensures forall i :: 0 <= i < |events| ==> m <= events[i].sMin
    ensures exists i :: 0 <= i < |events| && events[i].sMin == m
  {
    if |events| == 1 then events[0].sMin
    else
      var rest := PeakMin(events[1..]);
      assert forall i :: 1 <= i < |events| ==> events[i] == events[1..][i - 1];
      if events[0].sMin <= rest then events[0].sMin else rest
  }

  /** The sum of the unscaled cycle counts. */
  function TotalNeq(events: seq<Event>): real {
    if events == [] then 0.0 else events[0].neq + TotalNeq(events[1..])
  }

  /** The statistics of a spectrum. An empty spectrum has no peak stresses
      and is an error. The peaks are the scaled extreme stresses: each is
      the stress of one of the written records, and under a non-negative
      stress factor they bound every record (under a negative one the
      roles swap). The total is the least integer not below the scaled sum
      of the cycle counts. */
  function StatsOf(f: Scaling, events: seq<Event>): (r: Result<Statistics>)
    ensures r.Err? <==> events == []
    ensures r.Err? ==> r.error == EmptySpectrum
    ensures r.Ok? ==> r.value.sfCycles == f.sfCycles && r.value.sfStress == f.sfStress
    ensures r.Ok? ==> exists i :: 0 <= i < |events| && r.value.peakMax == ScaleEvent(f, events[i]).sMax
    ensures r.Ok? ==> exists i :: 0 <= i < |events| && r.value.peakMin == ScaleEvent(f, events[i]).sMin
    ensures r.Ok? && 0.0 <= f.sfStress ==>
              forall i :: 0 <= i < |events| ==>
                ScaleEvent(f, events[i]).sMax <= r.value.peakMax && r.value.peakMin <= ScaleEvent(f, events[i]).sMin
    ensures r.Ok? && f.sfStress <= 0.0 ==>
              forall i :: 0 <= i < |events| ==>
                r.value.peakMax <= ScaleEvent(f, events[i]).sMax && ScaleEvent(f, events[i]).sMin <= r.value.peakMin
    ensures r.Ok? ==> IsCeiling(r.value.totalCycles, ScaledCycles(f, TotalNeq(events)))
  {
    if events == [] then Err(EmptySpectrum)
    else
      PeaksBound(f, events);
      Ok(Summary(f, PeakMax(events), PeakMin(events), TotalNeq(events)))
  }

  /** The statistics for given unscaled peaks and unscaled total. */
  function Summary(f: Scaling, peakMax: real, peakMin: real, total: real): Statistics {
    Statistics(Scaled(f, peakMax), Scaled(f, peakMin), Ceil(ScaledCycles(f, total)), f.sfCycles, f.sfStress)
  }

  lemma PeaksBound(f: Scaling, events: seq<Event>)
    requires events != []
    ensures 0.0 <= f.sfStress ==>
              forall i :: 0 <= i < |events| ==>
                Scaled(f, events[i].sMax) <= Scaled(f, PeakMax(events))
                && Scaled(f, PeakMin(events)) <= Scaled(f, events[i].sMin)
    ensures f.sfStress <= 0.0 ==>
              forall i :: 0 <= i < |events| ==>
                Scaled(f, PeakMax(events)) <= Scaled(f, events[i].sMax)
                && Scaled(f, events[i].sMin) <= Scaled(f, PeakMin(events))
  {
    forall i | 0 <= i < |events|
      ensures 0.0 <= f.sfStress ==>
                Scaled(f, events[i].sMax) <= Scaled(f, PeakMax(events))
                && Scaled(f, PeakMin(events)) <= Scaled(f, events[i].sMin)
      ensures f.sfStress <= 0.0 ==>
                Scaled(f, PeakMax(events)) <= Scaled(f, events[i].sMax)
                && Scaled(f, events[i].sMin) <= Scaled(f, PeakMin(events))
    {
      ScaledMonotone(f, events[i].sMax, PeakMax(events));
      ScaledMonotone(f, PeakMin(events), events[i].sMin);
    }
  }

  lemma {:induction false} TotalNeqConcat(a: seq<Event>, b: seq<Event>)
    ensures TotalNeq(a + b) == TotalNeq(a) + TotalNeq(b)
  {
    if a != [] {
      assert (a + b)[1..] == a[1..] + b;
      TotalNeqConcat(a[1..], b);
    } else {
      assert a + b == b;
    }
  }

  /** Taking one event out of the middle of a list removes its count from
      the total. */
  lemma {:induction false} RemoveAt(b: seq<Event>, j: nat)
    requires j < |b|
    ensures TotalNeq(b) == b[j].neq + TotalNeq(b[..j] + b[j + 1..])
  {
    var x := b[j];
    assert b == (b[..j] + [x]) + b[j + 1..];
    TotalNeqConcat(b[..j] + [x], b[j + 1..]);
    TotalNeqConcat(b[..j], [x]);
    TotalNeqConcat(b[..j], b[j + 1..]);
    assert TotalNeq([x]) == x.neq;
  }

  /** Matching the first event of `a` with an equal event at position j of
      a permutation `b` leaves permutations of each other behind. */
  lemma PermutationTail(a: seq<Event>, b: seq<Event>, j: nat)
    requires multiset(a) == multiset(b) && a != [] && j < |b| && b[j] == a[0]
    ensures multiset(a[1..]) == multiset(b[..j] + b[j + 1..])
  {
    assert a == [a[0]] + a[1..];
    assert multiset(a) == multiset{a[0]} + multiset(a[1..]);
    assert b == b[..j] + [b[j]] + b[j + 1..];
    assert multiset(b) == multiset(b[..j]) + multiset{b[j]} + multiset(b[j + 1..]);
    assert multiset(b[..j] + b[j + 1..]) == multiset(b[..j]) + multiset(b[j + 1..]);
    assert multiset(a[1..]) == multiset(a) - multiset{a[0]};
    assert multiset(b[..j] + b[j + 1..]) == multiset(b) - multiset{b[j]};
  }

  /** The total does not depend on the order of the events. */
  lemma {:induction false} TotalNeqPermutation(a: seq<Event>, b: seq<Event>)
    requires multiset(a) == multiset(b)
    ensures TotalNeq(a) == TotalNeq(b)
    decreases |a|
  {
    if a == [] {
      assert |b| == |multiset(b)| == 0;
    } else {
      assert a[0] in multiset(b);
      var j :| 0 <= j < |b| && b[j] == a[0];
      PermutationTail(a, b, j);
      RemoveAt(b, j);
      TotalNeqPermutation(a[1..], b[..j] + b[j + 1..]);
    }
  }

  /** The peaks do not depend on the order of the events either. */
  lemma PeaksPermutation(a: seq<Event>, b: seq<Event>)
    requires a != [] && multiset(a) == multiset(b)
    ensures b != []
    ensures PeakMax(a) == PeakMax(b) && PeakMin(a) == PeakMin(b)
  {
    assert a[0] in multiset(b);
    PeakBelow(a, b);
    PeakBelow(b, a);
  }

  lemma PeakBelow(a: seq<Event>, b: seq<Event>)
    requires a != [] && b != [] && multiset(a) == multiset(b)
    ensures PeakMax(a) <= PeakMax(b) && PeakMin(b) <= PeakMin(a)
  {
    var i :| 0 <= i < |a| && a[i].sMax == PeakMax(a);
    assert a[i] in multiset(b);
    var j :| 0 <= j < |b| && b[j] == a[i];
    var k :| 0 <= k < |a| && a[k].sMin == PeakMin(a);
    assert a[k] in multiset(b);
    var l :| 0 <= l < |b| && b[l] == a[k];
  }

  /** The statistics are the same for any order in which the same events
      were appended. */
  lemma StatsPermutation(f: Scaling, a: seq<Event>, b: seq<Event>)
    requires multiset(a) == multiset(b)
    ensures StatsOf(f, a) == StatsOf(f, b)
  {
    if a == [] {
      assert |b| == |multiset(b)| == 0;
    } else {
      PeaksPermutation(a, b);
      TotalNeqPermutation(a, b);
    }
  }

  /** The sum of the cycle column of a saved spectrum. */
  function FileCycles(records: seq<Record>): int {
    if records == [] then 0 else records[0].neq + FileCycles(records[1..])
  }

  lemma Distribute(k: real, a: real, b: real)
    ensures k * (a + b) == k * a + k * b
  {
  }

  /** Each record's count is rounded up separately, so the cycle column sums
      to at least the scaled total and exceeds it by less than one cycle
      per record. */
  lemma {:induction false} FileCyclesBracket(f: Scaling, events: seq<Event>)
    ensures ScaledCycles(f, TotalNeq(events)) <= FileCycles(RecordsOf(f, events)) as real
    ensures FileCycles(RecordsOf(f, events)) as real <= ScaledCycles(f, TotalNeq(events)) + |events| as real
    ensures events != [] ==> FileCycles(RecordsOf(f, events)) as real < ScaledCycles(f, TotalNeq(events)) + |events| as real
  {
    if events != [] {
      var rs := RecordsOf(f, events);
      assert rs[1..] == RecordsOf(f, events[1..]);
      FileCyclesBracket(f, events[1..]);
      Distribute(f.sfCycles, events[0].neq, TotalNeq(events[1..]));
    }
  }

  /** The total reported by `stats` and the cycle column written by `save`
      agree up to the rounding of each record: the total never exceeds the
      column's sum and falls short of it by less than the number of
      events. */
  lemma StatsTotalAgainstFile(f: Scaling, events: seq<Event>)
    requires events != []
    ensures StatsOf(f, events).value.totalCycles <= FileCycles(RecordsOf(f, events))
    ensures FileCycles(RecordsOf(f, events)) - |events| < StatsOf(f, events).value.totalCycles
  {
    var total := ScaledCycles(f, TotalNeq(events));
    FileCyclesBracket(f, events);
    CeilingWithin(Ceil(total), total, FileCycles(RecordsOf(f, events)), |events|);
  }

  /** The record of the worked example: factor 2 on stress, 1 on cycles,
      prestress 5, one event of 10 cycles between -10 and 10 MPa. */
  lemma ScaleEventExample()
    ensures ScaleEvent(Scaling(5.0, 2.0, 1.0), Event(10.0, -10.0, 10.0, "")) == Record(25.0, -15.0, 10)
  {
    CeilOfInteger(10);
  }

  /** A spectrum under construction. The factors are fixed at construction;
      events are only ever appended. */
  class StressSpectrum {
    const filename: string
    const prestress: real
    const sfStress: real
    const sfCycles: real
    var events: seq<Event>

    constructor (filename: string, prestress: real := 0.0, sfStress: real := 1.0, sfCycles: real := 4.0)
      ensures this.filename == filename && this.prestress == prestress
      ensures this.sfStress == sfStress && this.sfCycles == sfCycles
      ensures events == []
    {
      this.filename := filename;
      this.prestress := prestress;
      this.sfStress := sfStress;
      this.sfCycles := sfCycles;
      events := [];
    }

    function Factors(): Scaling {
      Scaling(prestress, sfStress, sfCycles)
    }

    /** Adds the event at the end; nothing else changes. */
    method Append(event: Event)
      modifies this
      ensures events == old(events) + [event]
    {
      events := events + [event];
    }

    /** The statistics of the events appended so far. */
    function Stats(): (r: Result<Statistics>)
      reads this
      ensures r == StatsOf(Factors(), events)
    {
      StatsOf(Factors(), events)
    }

    /** Writes the header and then one record per event, in append order;
        in verbose mode also reports each record with its description. */
    method Save(verbose: bool := true) returns (file: SpectrumFile, echo: seq<EchoLine>)
      ensures file == SpectrumFile(filename, Header, RecordsOf(Factors(), events))
      ensures verbose ==> |echo| == |events|
      ensures verbose ==> forall i :: 0 <= i < |events| ==> echo[i] == EchoLine(file.records[i], events[i].desc)
      ensures !verbose ==> echo == []
    {
      var records: seq<Record> := [];
      echo := [];
      for i := 0 to |events|
        invariant |records| == i
        invariant forall j :: 0 <= j < i ==> records[j] == ScaleEvent(Factors(), events[j])
        invariant verbose ==> |echo| == i
        invariant verbose ==> forall j :: 0 <= j < i ==> echo[j] == EchoLine(records[j], events[j].desc)
        invariant !verbose ==> echo == []
      {
        var e := events[i];
        var line := ScaleEvent(Factors(), e);
        records := records + [line];
        if verbose {
          echo := echo + [EchoLine(line, e.desc)];
        }
      }
      file := SpectrumFile(filename, Header, records);
    }
  }

  /** Saving twice with no append in between writes the same file. */
  method SaveTwice(spectrum: StressSpectrum, verbose: bool) returns (first: SpectrumFile, second: SpectrumFile)
    ensures first == second
    ensures first.header == Header && |first.records| == |spectrum.events|
  {
    var echo1, echo2;
    first, echo1 := spectrum.Save(verbose);
    second, echo2 := spectrum.Save(verbose);
  }
}
