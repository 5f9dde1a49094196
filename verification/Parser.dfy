/**
 * Extracting one RTCP measurement from an AMI event. Numbers are reals with the special
 * values of floating point; reading a number from text is a parameter, so the results hold
 * for every such reader.
 */
module Parser {
  import opened Text
  import opened Messages

  datatype Float = Finite(r: real) | PosInf | NegInf | NaN {
    /** Comparisons with NaN are false. */
    predicate Above(c: real) { PosInf? || (Finite? && r > c) }

    predicate Below(c: real) { NegInf? || (Finite? && r < c) }

    /** The product with a positive factor. */
    function Times(k: real): Float
      requires k > 0.0
    {
      if Finite? then Finite(r * k) else this
    }
  }

  type FloatReader = string -> Option<Float>

  datatype Direction = Sent | Received

  /** An absent measurement is `None`. */
  datatype Sample = Sample(
    direction: Direction, channelType: string, channel: string,
    jitterMS: Option<Float>, packetLoss: Option<Float>, rttMS: Option<Float>,
    sentPackets: Option<nat>, recvPackets: Option<nat>)

  const JITTER_KEYS := ["IAJitter", "ReportBlockIAJitter0", "ReportBlock0IAJitter", "Jitter"]
  const LOSS_KEYS := ["FractionLost", "ReportBlockFractionLost0", "ReportBlock0FractionLost"]
  const RTT_KEYS := ["RTT", "RoundTripTime"]

  // ---------------------------------------------------------------- units and ranges

  function JitterOf(f: Float): Option<Float> {
    Some(if f.Above(1.0) then f else f.Times(1000.0))
  }

  function LossOf(f: Float): Option<Float> {
    var scaled := if f.Above(1.0) then f.Times(1.0 / 256.0) else f;
    var raised := if scaled.Below(0.0) then Finite(0.0) else scaled;
    Some(if raised.Above(1.0) then Finite(1.0) else raised)
  }

  function RttOf(f: Float): Option<Float> {
    var scaled := if f.Above(0.0) && f.Below(10.0) then f.Times(1000.0) else f;
    if scaled.Above(0.0) then Some(scaled) else None
  }

  /** The loss ratio lies in [0, 1] for every number; only NaN stays NaN. */
  lemma LossInRange(f: Float)
    ensures LossOf(f).Some?
    ensures f != NaN ==> LossOf(f).value.Finite? && 0.0 <= LossOf(f).value.r <= 1.0
    ensures f == NaN ==> LossOf(f).value == NaN
  {
    if f.Finite? && f.r > 1.0 {
      assert f.r * (1.0 / 256.0) > 0.0;
    }
  }

  /**
   * The raw fraction-lost byte of an RTCP report block is read as b/256 for every byte but 1,
   * which is taken for the ratio 1.
   */
  lemma LegacyByteExact(b: nat)
    requires b < 256
    ensures LossOf(Finite(b as real)) == Some(Finite(b as real / 256.0)) <==> b != 1
    ensures b == 1 ==> LossOf(Finite(b as real)) == Some(Finite(1.0))
  {
    var r := b as real;
    if b >= 2 {
      assert r > 1.0;
      assert r * (1.0 / 256.0) == r / 256.0;
    }
  }

  /** A ratio is passed through unchanged. */
  lemma ModernRatioKept(r: real)
    requires 0.0 <= r <= 1.0
    ensures LossOf(Finite(r)) == Some(Finite(r))
  {
  }

  /** A round-trip time is reported exactly when it is positive, and is then in milliseconds above zero. */
  lemma RttPositive(f: Float)
    ensures RttOf(f).Some? <==> f.Above(0.0)
    ensures RttOf(f).Some? ==> RttOf(f).value.Above(0.0)
    ensures f.Finite? && 0.0 < f.r < 10.0 ==> RttOf(f) == Some(Finite(f.r * 1000.0))
    ensures f.Above(0.0) && !f.Below(10.0) ==> RttOf(f) == Some(f)
  {
    if f.Finite? && 0.0 < f.r {
      assert f.r * 1000.0 > 0.0;
    }
  }

  /** Up to 1 a jitter is in seconds and is multiplied out; above it is in milliseconds and kept. */
  lemma JitterExactly(f: Float)
    ensures f.Finite? ==> JitterOf(f) == Some(Finite(if f.r <= 1.0 then f.r * 1000.0 else f.r))
    ensures !f.Finite? ==> JitterOf(f) == Some(f)
  {
  }

  /** A loss is kept up to 1, above it is a byte out of 256, and the ratio is cut off at 0 and 1. */
  lemma LossExactly(r: real)
    ensures LossOf(Finite(r)) ==
            Some(Finite(if r < 0.0 then 0.0 else if r <= 1.0 then r else if r <= 256.0 then r / 256.0 else 1.0))
    ensures LossOf(PosInf) == Some(Finite(1.0)) && LossOf(NegInf) == Some(Finite(0.0)) && LossOf(NaN) == Some(NaN)
  {
    assert r * (1.0 / 256.0) == r / 256.0;
  }

  /** A jitter of `j` ms is read as such from milliseconds and from seconds alike, exactly for 0 and 1 < j <= 1000. */
  lemma JitterUnitsAgree(j: real)
    ensures JitterOf(Finite(j)) == Some(Finite(j)) == JitterOf(Finite(j / 1000.0)) <==> j == 0.0 || 1.0 < j <= 1000.0
  {
    assert j / 1000.0 * 1000.0 == j;
  }

  /** A round trip of `j` ms is read as such from milliseconds and from seconds alike, exactly for 10 <= j < 10000. */
  lemma RttUnitsAgree(j: real)
    ensures RttOf(Finite(j)) == Some(Finite(j)) == RttOf(Finite(j / 1000.0)) <==> 10.0 <= j < 10000.0
  {
    assert j / 1000.0 * 1000.0 == j;
  }

  // ---------------------------------------------------------------- choosing a field

  /** What the field under `key` is worth: nothing when absent, malformed or refused by `convert`. */
  function Reading(m: Fields, key: string, read: FloatReader, convert: Float -> Option<Float>): Option<Float> {
    var v := Lookup(m, key);
    if v == "" then None
    else
      match read(TrimSpace(v))
      case None => None
      case Some(f) => convert(f)
  }

  function FirstReading(m: Fields, keys: seq<string>, read: FloatReader, convert: Float -> Option<Float>): Option<Float> {
    if keys == [] then None
    else
      var own := Reading(m, keys[0], read, convert);
      if own.Some? then own else FirstReading(m, keys[1..], read, convert)
  }

  /** The measurement is that of the first key in priority order that yields one. */
  lemma {:induction false} FirstReadingIs(m: Fields, keys: seq<string>, read: FloatReader, convert: Float -> Option<Float>, k: nat)
    requires k <= |keys|
    requires forall j :: 0 <= j < k ==> Reading(m, keys[j], read, convert).None?
    requires k < |keys| ==> Reading(m, keys[k], read, convert).Some?
    ensures FirstReading(m, keys, read, convert) == if k < |keys| then Reading(m, keys[k], read, convert) else None
  {
    if k > 0 {
      assert Reading(m, keys[0], read, convert).None?;
      FirstReadingIs(m, keys[1..], read, convert, k - 1);
    }
  }

  function Counter(m: Fields, key: string): Option<nat> {
    var v := Lookup(m, key);
    if v == "" then None else ParseUint(TrimSpace(v))
  }

  function DirectionOf(m: Fields): Option<Direction> {
    var event := Lower(Lookup(m, "Event"));
    if event == "rtcpsent" then Some(Sent) else if event == "rtcpreceived" then Some(Received) else None
  }

  function ChannelOf(m: Fields): string {
    FirstNonEmpty([Lookup(m, "Channel"), Lookup(m, "ChannelObjectName")])
  }

  function SampleOf(m: Fields, read: FloatReader): Option<Sample> {
    match DirectionOf(m)
    case None => None
    case Some(direction) => Some(Sample(
      direction, Lookup(m, "ChannelType"), ChannelOf(m),
      FirstReading(m, JITTER_KEYS, read, JitterOf),
      FirstReading(m, LOSS_KEYS, read, LossOf),
      FirstReading(m, RTT_KEYS, read, RttOf),
      Counter(m, "SentPackets"), Counter(m, "ReceivedPackets")))
  }

  /** An event is a report sent or received exactly when it says so, in any case. */
  lemma DirectionExactly(m: Fields)
    ensures DirectionOf(m) == Some(Sent) <==> EqualFold(Lookup(m, "Event"), "RTCPSent")
    ensures DirectionOf(m) == Some(Received) <==> EqualFold(Lookup(m, "Event"), "RTCPReceived")
  {
    var event := Lookup(m, "Event");
    LowerIs(event, "rtcpsent");
    LowerIs(event, "rtcpreceived");
    EqualFoldExactly("rtcpsent", "RTCPSent");
    EqualFoldExactly("rtcpreceived", "RTCPReceived");
    assert |Lower("RTCPSent")| == 8 && |Lower("RTCPReceived")| == 12;
  }

  /** Which field each part of a sample is taken from, and in which order of preference. */
  lemma SampleExactly(m: Fields, read: FloatReader)
    requires SampleOf(m, read).Some?
    ensures var s := SampleOf(m, read).value;
            && s.channelType == Lookup(m, "ChannelType")
            && s.channel == (if Lookup(m, "Channel") != "" then Lookup(m, "Channel") else Lookup(m, "ChannelObjectName"))
    ensures SampleOf(m, read).value.jitterMS ==
            FirstReading(m, ["IAJitter", "ReportBlockIAJitter0", "ReportBlock0IAJitter", "Jitter"], read, JitterOf)
    ensures SampleOf(m, read).value.packetLoss ==
            FirstReading(m, ["FractionLost", "ReportBlockFractionLost0", "ReportBlock0FractionLost"], read, LossOf)
    ensures SampleOf(m, read).value.rttMS == FirstReading(m, ["RTT", "RoundTripTime"], read, RttOf)
    ensures SampleOf(m, read).value.sentPackets ==
            if Lookup(m, "SentPackets") == "" then None else ParseUint(TrimSpace(Lookup(m, "SentPackets")))
    ensures SampleOf(m, read).value.recvPackets ==
            if Lookup(m, "ReceivedPackets") == "" then None else ParseUint(TrimSpace(Lookup(m, "ReceivedPackets")))
  {
    ChannelExactly(m);
  }

  lemma ChannelExactly(m: Fields)
    ensures ChannelOf(m) == if Lookup(m, "Channel") != "" then Lookup(m, "Channel") else Lookup(m, "ChannelObjectName")
  {
    var a, b := Lookup(m, "Channel"), Lookup(m, "ChannelObjectName");
    FirstNonEmptySpec([a, b], if a != "" then 0 else if b != "" then 1 else 2);
  }

  // ---------------------------------------------------------------- properties of the sample

  /** What holds of every converted number holds of a reading. */
  lemma {:induction false} ReadingConverted(m: Fields, keys: seq<string>, read: FloatReader,
                                            convert: Float -> Option<Float>, ok: Float -> bool)
    requires forall f :: convert(f).Some? ==> ok(convert(f).value)
    ensures FirstReading(m, keys, read, convert).Some? ==> ok(FirstReading(m, keys, read, convert).value)
  {
    if keys != [] {
      ReadingConverted(m, keys[1..], read, convert, ok);
    }
  }

  predicate LossOk(f: Float) { f == NaN || (f.Finite? && 0.0 <= f.r <= 1.0) }

  predicate RttOk(f: Float) { f.Above(0.0) }

  /** Every reported measurement is in range, whatever the number reader. */
  lemma SampleInRange(m: Fields, read: FloatReader)
    requires SampleOf(m, read).Some?
    ensures var s := SampleOf(m, read).value;
            && (s.packetLoss.Some? ==> LossOk(s.packetLoss.value))
            && (s.rttMS.Some? ==> RttOk(s.rttMS.value))
            && (s.sentPackets.Some? ==> s.sentPackets.value < UINT64_LIMIT)
            && (s.recvPackets.Some? ==> s.recvPackets.value < UINT64_LIMIT)
  {
    forall f ensures LossOf(f).Some? ==> LossOk(LossOf(f).value) { LossInRange(f); }
    forall f ensures RttOf(f).Some? ==> RttOk(RttOf(f).value) { RttPositive(f); }
    ReadingConverted(m, LOSS_KEYS, read, LossOf, LossOk);
    ReadingConverted(m, RTT_KEYS, read, RttOf, RttOk);
  }

  /** The keys that say what an event is about rather than what was measured. */
  predicate IsIdentityKey(key: string) {
    EqualFold(key, "Event") || EqualFold(key, "ChannelType") || EqualFold(key, "Channel") || EqualFold(key, "ChannelObjectName")
  }

  predicate Malformed(value: string, read: FloatReader) {
    value == "" || (read(TrimSpace(value)).None? && ParseUint(TrimSpace(value)).None?)
  }

  lemma {:induction false} MalformedReading(m: Fields, key: string, value: string, keys: seq<string>,
                                            read: FloatReader, convert: Float -> Option<Float>)
    requires !Present(m, key) && Malformed(value, read)
    ensures FirstReading(Updated(m, key, value), keys, read, convert) == FirstReading(m, keys, read, convert)
  {
    if keys != [] {
      LookupUpdated(m, key, value, keys[0]);
      if EqualFold(key, keys[0]) {
        LookupOfFoldedKey(m, key, keys[0]);
      }
      MalformedReading(m, key, value, keys[1..], read, convert);
    }
  }

  lemma LookupOfFoldedKey(m: Fields, a: string, b: string)
    requires EqualFold(a, b)
    ensures Find(m, a) == Find(m, b) && Lookup(m, a) == Lookup(m, b)
  {
    FindIs(m, b, Find(m, a));
  }

  /**
   * A malformed field under a key the event did not have changes nothing: it neither hides a
   * readable field of lower priority nor adds a measurement.
   */
  lemma MalformedFieldIgnored(m: Fields, key: string, value: string, read: FloatReader)
    requires !Present(m, key) && Malformed(value, read) && !IsIdentityKey(key)
    ensures SampleOf(Updated(m, key, value), read) == SampleOf(m, read)
  {
    MalformedReading(m, key, value, JITTER_KEYS, read, JitterOf);
    MalformedReading(m, key, value, LOSS_KEYS, read, LossOf);
    MalformedReading(m, key, value, RTT_KEYS, read, RttOf);
    LookupUpdated(m, key, value, "Event");
    LookupUpdated(m, key, value, "ChannelType");
    LookupUpdated(m, key, value, "Channel");
    LookupUpdated(m, key, value, "ChannelObjectName");
    MalformedCounter(m, key, value, "SentPackets", read);
    MalformedCounter(m, key, value, "ReceivedPackets", read);
  }

  lemma MalformedCounter(m: Fields, key: string, value: string, counter: string, read: FloatReader)
    requires !Present(m, key) && Malformed(value, read)
    ensures Counter(Updated(m, key, value), counter) == Counter(m, counter)
  {
    LookupUpdated(m, key, value, counter);
    if EqualFold(key, counter) {
      LookupOfFoldedKey(m, key, counter);
    }
  }

  // ---------------------------------------------------------------- the parser

  method SelectReading(m: Fields, keys: seq<string>, read: FloatReader, convert: Float -> Option<Float>)
    returns (result: Option<Float>)
    ensures result == FirstReading(m, keys, read, convert)
  {
    result := None;
    for i := 0 to |keys|
      invariant result == None
      invariant forall j :: 0 <= j < i ==> Reading(m, keys[j], read, convert).None?
    {
      var v := Lookup(m, keys[i]);
      if v != "" {
        var f := read(TrimSpace(v));
        if f.Some? {
          result := convert(f.value);
          if result.Some? {
            FirstReadingIs(m, keys, read, convert, i);
            return;
          }
        }
      }
    }
    FirstReadingIs(m, keys, read, convert, |keys|);
  }

  method Parse(m: Fields, read: FloatReader) returns (result: Option<Sample>)
    ensures result == SampleOf(m, read)
    ensures EqualFold(Lookup(m, "Event"), "RTCPSent") ==> result.Some? && result.value.direction == Sent
    ensures EqualFold(Lookup(m, "Event"), "RTCPReceived") ==> result.Some? && result.value.direction == Received
    ensures !EqualFold(Lookup(m, "Event"), "RTCPSent") && !EqualFold(Lookup(m, "Event"), "RTCPReceived") ==> result == None
  {
    DirectionExactly(m);
    var direction: Direction;
    var event := Lower(Lookup(m, "Event"));
    if event == "rtcpsent" {
      direction := Sent;
    } else if event == "rtcpreceived" {
      direction := Received;
    } else {
      return None;
    }
    var channel := FirstNonEmpty([Lookup(m, "Channel"), Lookup(m, "ChannelObjectName")]);
    var jitter := SelectReading(m, JITTER_KEYS, read, JitterOf);
    var loss := SelectReading(m, LOSS_KEYS, read, LossOf);
    var rtt := SelectReading(m, RTT_KEYS, read, RttOf);
    var sent, recv: Option<nat> := None, None;
    var v := Lookup(m, "SentPackets");
    if v != "" {
      sent := ParseUint(TrimSpace(v));
    }
    v := Lookup(m, "ReceivedPackets");
    if v != "" {
      recv := ParseUint(TrimSpace(v));
    }
    return Some(Sample(direction, Lookup(m, "ChannelType"), channel, jitter, loss, rtt, sent, recv));
  }
}
