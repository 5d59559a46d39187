/**
 The resident monitoring protocol: what a sample and a request must look like.
 A sample is checked for its content first and for its capture time last, so the
 "outside the accepted window" verdict is only given to a well-formed sample.
 */
module Wire {
  import opened Durations

  const MAX_BATCH: nat := 32
  const MAX_AGE: int := 24 * HOUR
  const MAX_QUEUE_BYTES: int := 64 * 1024 * 1024
  const MAX_SAMPLE_BYTES: int := 32 * 1024

  /** How far before and after the hub's clock a capture time may lie. */
  datatype Window = Window(past: int, future: int)
  const TALUS_WINDOW := Window(MAX_AGE + HOUR, 5 * MINUTE)

  /**
   What a sample measured. Only whether the readings pass their range checks
   matters to delivery; those checks do not depend on the clock.
   */
  datatype Readings = Readings(inRange: bool)

  datatype Sample = Sample(id: string, bootId: string, time: int, readings: Readings)

  datatype Verdict = Accepted | Malformed | OutsideWindow

  predicate HexDigit(c: char) { '0' <= c <= '9' || 'a' <= c <= 'f' || 'A' <= c <= 'F' }

  predicate ValidId(id: string) {
    |id| == 32 && forall i | 0 <= i < |id| :: HexDigit(id[i])
  }

  predicate ValidContent(s: Sample) {
    ValidId(s.id) && 0 < |s.bootId| <= 128 && s.readings.inRange
  }

  predicate InWindow(time: int, now: int, w: Window) {
    now - w.past <= time <= now + w.future
  }

  function Check(s: Sample, now: int, w: Window): Verdict {
    if !ValidContent(s) then Malformed
    else if !InWindow(s.time, now, w) then OutsideWindow
    else Accepted
  }

  function Validate(s: Sample, now: int): Verdict { Check(s, now, TALUS_WINDOW) }

  /** Exactly which samples are accepted, and which are refused for their capture time alone. */
  lemma AcceptedIff(s: Sample, now: int)
    ensures Validate(s, now).Malformed? <==>
      !(|s.id| == 32 && (forall i | 0 <= i < 32 :: s.id[i] in "0123456789abcdefABCDEF") && 1 <= |s.bootId| <= 128 && s.readings.inRange)
    ensures Validate(s, now).Accepted? <==>
      !Validate(s, now).Malformed? && now - 25 * HOUR <= s.time <= now + 5 * MINUTE
  {
    forall c: char
      ensures HexDigit(c) <==> c in "0123456789abcdefABCDEF"
    {
      HexDigitIn(c);
    }
  }

  lemma HexDigitIn(c: char)
    ensures HexDigit(c) <==> c in "0123456789abcdefABCDEF"
  {
    var digits := "0123456789abcdefABCDEF";
    if HexDigit(c) {
      var k := if c <= '9' then c as int - '0' as int else if c <= 'F' then c as int - 'A' as int + 16 else c as int - 'a' as int + 10;
      assert digits[k] == c;
    }
  }

  function SampleIds(samples: seq<Sample>): set<string> { set i | 0 <= i < |samples| :: samples[i].id }

  ghost predicate DistinctIds(samples: seq<Sample>) {
    samples != [] ==>
      samples[|samples| - 1].id !in SampleIds(samples[..|samples| - 1]) && DistinctIds(samples[..|samples| - 1])
  }

  lemma OneMoreId(samples: seq<Sample>, s: Sample)
    ensures SampleIds(samples + [s]) == SampleIds(samples) + {s.id}
    ensures DistinctIds(samples + [s]) <==> DistinctIds(samples) && s.id !in SampleIds(samples)
  {
    var longer := samples + [s];
    assert longer[..|samples|] == samples;
    assert forall i | 0 <= i < |samples| :: longer[i] == samples[i];
    assert longer[|samples|] == s;
  }

  lemma {:induction false} PairwiseDistinct(samples: seq<Sample>)
    requires forall i, j | 0 <= i < j < |samples| :: samples[i].id != samples[j].id
    ensures DistinctIds(samples)
  {
    if samples != [] {
      PairwiseDistinct(samples[..|samples| - 1]);
    }
  }

  lemma {:induction false} IdsSize(samples: seq<Sample>)
    requires DistinctIds(samples)
    ensures |SampleIds(samples)| == |samples|
  {
    if samples != [] {
      var n := |samples| - 1;
      IdsSize(samples[..n]);
      OneMoreId(samples[..n], samples[n]);
      assert samples == samples[..n] + [samples[n]];
    }
  }

  /** The reply to a request: what was committed and what can never be accepted. */
  datatype Response = Response(ack: seq<string>, rejected: seq<string>, retry: bool)
}
