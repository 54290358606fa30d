// The text protocol spoken with caracal: the request line written to its stdin, the
// record read back from its stdout, and how a record becomes a correlation key.
module CaracalRecords {
  import opened Wrappers
  import opened GoNumbers
  import opened Directives

  // ----- CSV cells -----

  /**
   * A CSV field. `Literal(ip)` is a text net.ParseIP accepts, standing for the bytes it denotes
   * (4 of them for dotted decimal, 16 for colon notation); `Plain(s)` is any other text.
   */
  datatype Cell = Literal(ip: IP) | Plain(text: string)

  type Record = seq<Cell>

  /** An address literal contains a dot or a colon, so it never parses as a number. */
  function CellUint(c: Cell, max: nat): (r: Option<nat>)
    ensures r.Some? ==> r.value <= max
  {
    if c.Plain? then ParseUint(c.text, max) else None
  }

  function CellInt64(c: Cell): (r: Option<int>)
    ensures r.Some? ==> IsInt64(r.value)
  {
    if c.Plain? then ParseInt64(c.text) else None
  }

  function CellIP(c: Cell): Option<IP> {
    if c.Literal? then Some(c.ip) else None
  }

  function NormalizeIPAddress(c: Cell): (h: HostText)
    ensures h.Address? <==> c.Literal?
    ensures c.Plain? ==> h == Unparsed(c.text)
  {
    match c
    case Literal(ip) => Address(Canonical(ip))
    case Plain(text) => Unparsed(text)
  }

  // ----- requests -----

  function ProtocolToString(p: Protocol): string {
    match p
    case Unspecified => "unspecified"
    case Icmp => "icmp"
    case Icmpv6 => "icmp6"
    case Udp => "udp"
    case Other(number) => Itoa(number)
  }

  /** encodeAndSendProbe: destination, half words, TTL and protocol name. */
  function EncodeRequest(pd: Directive, ttl: uint8): (r: Record)
    ensures |r| == 5
  {
    var (first, second) := ExtractHalfWords(pd);
    [Literal(Canonical(pd.destination)), Plain(Itoa(first)), Plain(Itoa(second)), Plain(Itoa(ttl)),
     Plain(ProtocolToString(pd.protocol))]
  }

  // ----- timestamps -----

  const SECOND: int := 1_000_000_000        // nanoseconds
  const RTT_UNIT: int := 100_000            // caracal counts RTT in tenths of a millisecond
  const ZERO_TIME: int := -62_135_596_800 * SECOND   // Go's zero time.Time, in nanoseconds from the Unix epoch

  /** time.Time.Unix: the second containing an instant, also before the epoch. */
  function Unix(t: int): (second: int)
    ensures second * SECOND <= t < second * SECOND + SECOND
  {
    t / SECOND
  }

  /** time.Unix(sec, nsec): nsec outside [0, 10^9) is carried into the seconds. */
  function GoUnix(sec: int, nsec: int): (t: int)
    ensures t == sec * SECOND + nsec
  {
    var carried := sec + TruncDiv(nsec, SECOND);
    var rest := TruncMod(nsec, SECOND);
    if rest < 0 then (carried - 1) * SECOND + (rest + SECOND) else carried * SECOND + rest
  }

  function CaptureTime(micros: int): (t: int)
  {
    GoUnix(TruncDiv(micros, 1_000_000), TruncMod(micros, 1_000_000) * 1_000)
  }

  /** Received minus -time.Duration(rtt) * caracalRTTUnit; both Duration operations wrap. */
  function SentTime(received: int, rtt: int): (t: int) {
    received + Wrap64(Wrap64(-rtt) * RTT_UNIT)
  }

  datatype ProbeResult = ProbeResult(
    sourceAddress: Option<IP>, replyAddress: Option<IP>, sentTime: int, receivedTime: int, timedOut: bool)

  /** parseProbeResult: None when a timestamp is missing, unreadable or Go's zero time. */
  function ParseProbeResult(record: Record): (r: Option<ProbeResult>)
    requires |record| >= 17
    ensures r.Some? ==> !r.value.timedOut
  {
    var received := match CellInt64(record[0])
      case Some(micros) => CaptureTime(micros)
      case None => ZERO_TIME;
    var sent := match CellInt64(record[15])
      case Some(rtt) => SentTime(received, rtt)
      case None => ZERO_TIME;
    if received == ZERO_TIME || sent == ZERO_TIME then None
    else Some(ProbeResult(CellIP(record[2]), CellIP(record[8]), sent, received, false))
  }

  // ----- keys -----

  datatype KeyError = InvalidProtocol | InvalidTTL | InvalidFirstHalfWord | InvalidSecondHalfWord | UnsupportedProtocol

  function BuildProbeKey(record: Record, sentTime: int): (r: Result<ProbeKey, KeyError>)
    requires |record| >= 17
    ensures r.Ok? ==> r.value.correlationSecond == Unix(sentTime)
  {
    var protocol := CellUint(record[1], 255);
    var ttl := CellUint(record[6], 255);
    var first := CellUint(record[4], TWO_TO_16 - 1);
    var second := CellUint(record[5], TWO_TO_16 - 1);
    if protocol.None? then Err(InvalidProtocol)
    else if ttl.None? then Err(InvalidTTL)
    else if first.None? then Err(InvalidFirstHalfWord)
    else if second.None? then Err(InvalidSecondHalfWord)
    else if protocol.value !in {1, 17, 58} then Err(KeyError.UnsupportedProtocol)
    else
      var p := if protocol.value == 1 then Icmp else if protocol.value == 17 then Udp else Icmpv6;
      Ok(ProbeKey(FiveTuple(NormalizeIPAddress(record[3]), first.value, second.value, ttl.value, p), Unix(sentTime)))
  }

  /** What handleResult does with a record before the in-flight table is searched. */
  datatype Verdict = Rejected | Skipped | Accepted(key: ProbeKey, result: ProbeResult)

  function Classify(record: Record): (v: Verdict)
    ensures v.Accepted? ==> v.key.correlationSecond == Unix(v.result.sentTime) && !v.result.timedOut
  {
    if |record| < 17 then Rejected
    else match ParseProbeResult(record)
      case None => Skipped
      case Some(result) =>
        match BuildProbeKey(record, result.sentTime)
        case Err(_) => Rejected
        case Ok(key) => Accepted(key, result)
  }

  // ----- caracal's side -----

  /** The IP protocol number caracal reports for a protocol name it was given. */
  function IPProtocolNumber(name: string): Option<nat> {
    if name == "icmp" then Some(1)
    else if name == "udp" then Some(17)
    else if name == "icmp6" then Some(58)
    else None
  }

  /**
   * `record` reports a reply to `request`: caracal repeats the header fields and the TTL it was given,
   * the destination in the same or in IPv4-mapped form, and the protocol as its number. Every other
   * field is whatever caracal likes.
   */
  predicate Echoes(record: Record, request: Record)
    requires |request| == 5
  {
    && |record| >= 17
    && request[4].Plain?
    && IPProtocolNumber(request[4].text).Some?
    && record[1] == Plain(Itoa(IPProtocolNumber(request[4].text).value))
    && request[0].Literal?
    && record[3] in {request[0], Literal(Mapped(request[0].ip))}
    && record[4] == request[1] && record[5] == request[2] && record[6] == request[3]
  }

  // ----- properties -----

  /** Only the three supported protocols have a name caracal answers to. */
  lemma EchoedProtocol(p: Protocol)
    ensures IPProtocolNumber(ProtocolToString(p)) ==
      match p
      case Icmp => Some(1)
      case Udp => Some(17)
      case Icmpv6 => Some(58)
      case _ => None
  {
    if p.Other? {
      assert ProtocolToString(p)[0] != 'i' && ProtocolToString(p)[0] != 'u';
    }
  }

  /**
   * Print, echo, parse: the key rebuilt from any record echoing a request is the key the probe was
   * registered under, at the second of the reconstructed send time. Header values of 17 to 32 bits
   * have been cut to 16 on both sides, so they round-trip too.
   */
  lemma KeyRoundTrip(pd: Directive, ttl: uint8, record: Record, sentTime: int)
    requires Echoes(record, EncodeRequest(pd, ttl))
    ensures BuildProbeKey(record, sentTime) == Ok(BuildProbeKeyFromDirective(pd, ttl, Unix(sentTime)))
  {
    var (first, second) := ExtractHalfWords(pd);
    ItoaParseUint(first, TWO_TO_16 - 1);
    ItoaParseUint(second, TWO_TO_16 - 1);
    ItoaParseUint(ttl, 255);
    EchoedProtocol(pd.protocol);
    ItoaParseUint(IPProtocolNumber(ProtocolToString(pd.protocol)).value, 255);
  }

  /** The second and third field are the header's own values, cut to 16 bits, in the header's order. */
  predicate WritesHeader(request: Record, pd: Directive)
    requires |request| == 5
  {
    var (first, second) := (CellUint(request[1], 65_535), CellUint(request[2], 65_535));
    match (pd.protocol, pd.nextHeader)
    case (Icmp, IcmpHeader(firstHalfWord, secondHalfWord)) =>
      first == Some(firstHalfWord % 65_536) && second == Some(secondHalfWord % 65_536)
    case (Icmpv6, Icmpv6Header(firstHalfWord, secondHalfWord)) =>
      first == Some(firstHalfWord % 65_536) && second == Some(secondHalfWord % 65_536)
    case (Udp, UdpHeader(sourcePort, destinationPort)) =>
      first == Some(sourcePort % 65_536) && second == Some(destinationPort % 65_536)
    case _ => first == Some(0) && second == Some(0)
  }

  /** A request is the destination in canonical form, the header's values, the TTL and the protocol's name. */
  lemma RequestsCarryTheProbe(pd: Directive, ttl: uint8)
    ensures var request := EncodeRequest(pd, ttl);
      && request[0] == Literal(Canonical(pd.destination))
      && WritesHeader(request, pd)
      && CellUint(request[3], 255) == Some(ttl)
      && (Valid(pd) ==> request[4] == Plain(
           match pd.protocol case Icmp => "icmp" case Icmpv6 => "icmp6" case Udp => "udp" case _ => ""))
  {
    var (first, second) := ExtractHalfWords(pd);
    ItoaParseUint(first, 65_535);
    ItoaParseUint(second, 65_535);
    ItoaParseUint(ttl, 255);
  }

  /** Every valid directive can be echoed, so the round trip is about all of them. */
  lemma ValidDirectivesAreEchoed(pd: Directive, ttl: uint8, rest: Record)
    requires Valid(pd) && |rest| >= 17
    ensures exists record :: (
      && |record| == |rest| && record[0] == rest[0] && record[15] == rest[15]
      && Echoes(record, EncodeRequest(pd, ttl)))
  {
    EchoedProtocol(pd.protocol);
    var request := EncodeRequest(pd, ttl);
    var record := rest[1 := Plain(Itoa(IPProtocolNumber(request[4].text).value))]
                      [3 := Literal(Mapped(request[0].ip))][4 := request[1]][5 := request[2]][6 := request[3]];
    assert Echoes(record, request);
  }

  /** Two probes of valid directives are written as the same line exactly when they have the same 5-tuple. */
  lemma RequestIdentifiesTuple(pd: Directive, ttl: uint8, pd': Directive, ttl': uint8)
    requires Valid(pd) && Valid(pd')
    ensures EncodeRequest(pd, ttl) == EncodeRequest(pd', ttl') <==> TupleOf(pd, ttl) == TupleOf(pd', ttl')
  {
    var (first, second) := ExtractHalfWords(pd);
    var (first', second') := ExtractHalfWords(pd');
    var request, request' := EncodeRequest(pd, ttl), EncodeRequest(pd', ttl');
    if request == request' {
      ItoaParseUint(first, TWO_TO_16 - 1);
      ItoaParseUint(first', TWO_TO_16 - 1);
      ItoaParseUint(second, TWO_TO_16 - 1);
      ItoaParseUint(second', TWO_TO_16 - 1);
      ItoaParseUint(ttl, 255);
      ItoaParseUint(ttl', 255);
      EchoedProtocol(pd.protocol);
      EchoedProtocol(pd'.protocol);
      assert request[0].ip == request'[0].ip && request[1].text == request'[1].text;
      assert request[2].text == request'[2].text && request[3].text == request'[3].text;
      assert request[4].text == request'[4].text;
    }
  }

  /** Reading a capture time is exact, before the epoch as after it. */
  lemma CaptureTimeIsExact(micros: int)
    ensures CaptureTime(micros) == micros * 1_000
  {
  }

  /** No Duration wraps as long as the RTT stays below 2^63 ns; a 16-bit RTT is far below. */
  predicate RttFits(rtt: int) {
    IsInt64(-rtt * RTT_UNIT)
  }

  /**
   * The send time is the capture time less rtt tenths of a millisecond, and the correlation second is the
   * floor of it, exactly when the RTT does not overflow a Duration.
   */
  lemma TimestampArithmetic(micros: int, rtt: int)
    requires IsInt64(micros) && IsInt64(rtt)
    ensures CaptureTime(micros) - SentTime(CaptureTime(micros), rtt) == rtt * RTT_UNIT <==> RttFits(rtt)
    ensures RttFits(rtt) ==> Unix(SentTime(CaptureTime(micros), rtt)) == (micros - 100 * rtt) / 1_000_000
    ensures 0 <= rtt < TWO_TO_16 ==> RttFits(rtt)
  {
    CaptureTimeIsExact(micros);
  }

  function Micros(record: Record): int
    requires |record| >= 17 && CellInt64(record[0]).Some?
  {
    CellInt64(record[0]).value
  }

  function Rtt(record: Record): int
    requires |record| >= 17 && CellInt64(record[15]).Some?
  {
    CellInt64(record[15]).value
  }

  predicate HasTimes(record: Record) {
    |record| >= 17 && CellInt64(record[0]).Some? && CellInt64(record[15]).Some?
  }

  /**
   * What a result says of its record, column by column: captured at column 0, in microseconds; sent column 15 tenths of
   * a millisecond earlier, in the arithmetic of a Duration; from the address in column 2, answered by that in column 8.
   */
  predicate ReadsAs(record: Record, result: ProbeResult) {
    && HasTimes(record) && !result.timedOut
    && result.receivedTime == 1_000 * Micros(record)
    && result.sentTime - result.receivedTime == Wrap64(-100_000 * Rtt(record))
    && result.sourceAddress == (if record[2].Literal? then Some(record[2].ip) else None)
    && result.replyAddress == (if record[8].Literal? then Some(record[8].ip) else None)
  }

  lemma WrapOffset(x: int) returns (k: int)
    ensures Wrap64(x) == x + k * TWO_TO_64
  {
    k := (Wrap64(x) - x) / TWO_TO_64;
  }

  lemma SameInt64(a: int, b: int, n: int)
    requires IsInt64(a) && IsInt64(b) && a - b == n * TWO_TO_64
    ensures a == b
  {
  }

  lemma OffsetsAdd(a: int, b: int, x: int, i: int, j: int)
    requires a == x + i * TWO_TO_64 && b == 100_000 * a + j * TWO_TO_64
    ensures b == 100_000 * x + (100_000 * i + j) * TWO_TO_64
  {
  }

  lemma WrapsAgree(b: int, x: int, n: int)
    requires IsInt64(b) && b == x + n * TWO_TO_64
    ensures b == Wrap64(x)
  {
    var k := WrapOffset(x);
    SameInt64(b, Wrap64(x), n - k);
  }

  /** The two Duration operations wrap like one. */
  lemma SentTimeWraps(received: int, rtt: int)
    ensures SentTime(received, rtt) == received + Wrap64(-100_000 * rtt)
  {
    var i := WrapOffset(-rtt);
    var j := WrapOffset(Wrap64(-rtt) * RTT_UNIT);
    OffsetsAdd(Wrap64(-rtt), Wrap64(Wrap64(-rtt) * RTT_UNIT), -rtt, i, j);
    WrapsAgree(Wrap64(Wrap64(-rtt) * RTT_UNIT), -100_000 * rtt, 100_000 * i + j);
  }

  lemma ParsedResults(record: Record)
    requires |record| >= 17 && ParseProbeResult(record).Some?
    ensures ReadsAs(record, ParseProbeResult(record).value)
    ensures ParseProbeResult(record).value.sentTime == SentTime(CaptureTime(Micros(record)), Rtt(record))
  {
    CaptureTimeIsExact(Micros(record));
    SentTimeWraps(1_000 * Micros(record), Rtt(record));
  }

  /** The result of an accepted record is what its columns say, and is searched for in the second it was sent in. */
  lemma AcceptedResults(record: Record)
    requires Classify(record).Accepted?
    ensures var v := Classify(record);
      && ReadsAs(record, v.result)
      && (RttFits(Rtt(record)) ==>
           && v.result.receivedTime - v.result.sentTime == 100_000 * Rtt(record)
           && v.key.correlationSecond == (Micros(record) - 100 * Rtt(record)) / 1_000_000)
  {
    ParsedResults(record);
    TimestampArithmetic(Micros(record), Rtt(record));
    CaptureTimeIsExact(Micros(record));
  }

  /** A record is searched for exactly when it is long enough, both its instants are real ones, and its key parses. */
  lemma AcceptedRecords(record: Record)
    ensures Classify(record).Accepted? <==>
      && |record| >= 17
      && CellInt64(record[0]).Some? && CellInt64(record[15]).Some?
      && (var received := CaptureTime(CellInt64(record[0]).value);
          && received != ZERO_TIME
          && SentTime(received, CellInt64(record[15]).value) != ZERO_TIME)
      && CellUint(record[1], 255) in {Some(1), Some(17), Some(58)}
      && CellUint(record[4], TWO_TO_16 - 1).Some? && CellUint(record[5], TWO_TO_16 - 1).Some?
      && CellUint(record[6], 255).Some?
  {
  }

  /** A record that is too short is rejected, and exactly one without usable times is skipped. */
  lemma UnacceptedRecords(record: Record)
    ensures |record| < 17 ==> Classify(record).Rejected?
    ensures Classify(record).Skipped? <==>
      && |record| >= 17
      && (HasTimes(record) ==>
           var received := 1_000 * Micros(record);
           received == ZERO_TIME || SentTime(received, Rtt(record)) == ZERO_TIME)
  {
    if |record| >= 17 && CellInt64(record[0]).Some? {
      CaptureTimeIsExact(Micros(record));
    }
  }

  /** Go's zero time is midnight of 1 January of year 1: 1969 years of 365 days and 477 leap days before the epoch. */
  lemma ZeroTimeIsYearOne()
    ensures ZERO_TIME == -(1969 * 365 + 1969 / 4 - 1969 / 100 + 1969 / 400) * 86_400 * 1_000_000_000
  {
  }

  /** A record echoing a request is skipped for its timestamps or searched for under the request's 5-tuple. */
  lemma EchoedRecordsCarryTheTuple(pd: Directive, ttl: uint8, record: Record)
    requires Echoes(record, EncodeRequest(pd, ttl))
    ensures !Classify(record).Rejected?
    ensures Classify(record).Accepted? ==> Classify(record).key.tuple == TupleOf(pd, ttl)
  {
    var parsed := ParseProbeResult(record);
    if parsed.Some? {
      KeyRoundTrip(pd, ttl, record, parsed.value.sentTime);
    }
  }
}
