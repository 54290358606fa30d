// A request as the line of text caracal reads: fields separated by commas, without quotes (section 2 of RFC 4180).
module CsvLines {
  import opened Wrappers
  import opened GoNumbers
  import opened Directives
  import opened CaracalRecords

  // ----- joining and splitting -----

  function Join(fields: seq<string>, separator: char): string
    requires fields != []
  {
    if |fields| == 1 then fields[0] else fields[0] + [separator] + Join(fields[1..], separator)
  }

  function Split(line: string, separator: char): (fields: seq<string>)
    ensures fields != []
  {
    if line == "" then [""]
    else
      var rest := Split(line[1..], separator);
      if line[0] == separator then [""] + rest else [[line[0]] + rest[0]] + rest[1..]
  }

  lemma {:induction false} SplitFirst(field: string, rest: string, separator: char)
    requires separator !in field
    ensures Split(field, separator) == [field]
    ensures Split(field + [separator] + rest, separator) == [field] + Split(rest, separator)
  {
    var line := field + [separator] + rest;
    if field == "" {
      assert line[1..] == rest;
    } else {
      SplitFirst(field[1..], rest, separator);
      assert line[1..] == field[1..] + [separator] + rest;
      assert [field[0]] + field[1..] == field;
    }
  }

  /** Splitting undoes joining, whatever the fields are, as long as none contains the separator. */
  lemma {:induction false} SplitJoin(fields: seq<string>, separator: char)
    requires fields != [] && forall i :: 0 <= i < |fields| ==> separator !in fields[i]
    ensures Split(Join(fields, separator), separator) == fields
  {
    if |fields| == 1 {
      SplitFirst(fields[0], "", separator);
    } else {
      SplitFirst(fields[0], Join(fields[1..], separator), separator);
      SplitJoin(fields[1..], separator);
    }
  }

  // ----- requests -----

  /** unicode.IsSpace on Latin-1. */
  predicate IsSpace(c: char) {
    c == ' ' || '\t' <= c <= '\r' || c == '\U{85}' || c == '\U{A0}'
  }

  /** A field that package encoding/csv writes without quotes. */
  predicate Bare(field: string) {
    && (forall c :: c in field ==> c !in {',', '"', '\r', '\n'})
    && field != "\\."
    && (field != "" ==> !IsSpace(field[0]))
  }

  /** Text of the kind net.IP.String prints. */
  predicate AddressText(text: string) {
    text != "" && forall c :: c in text ==> IsDigit(c) || 'a' <= c <= 'f' || c == '.' || c == ':'
  }

  /** The record encodeAndSendProbe gives the csv writer. */
  function RequestFields(address: string, pd: Directive, ttl: uint8): (fields: seq<string>)
    ensures |fields| == 5
  {
    var request := EncodeRequest(pd, ttl);
    [address, request[1].text, request[2].text, request[3].text, request[4].text]
  }

  function RequestLine(address: string, pd: Directive, ttl: uint8): string {
    Join(RequestFields(address, pd, ttl), ',')
  }

  lemma DigitsAreBare(n: int)
    ensures Bare(Itoa(n))
    ensures n >= 0 ==> AllDigits(Itoa(n))
  {
  }

  lemma RequestFieldsAreBare(address: string, pd: Directive, ttl: uint8)
    requires AddressText(address)
    ensures forall i :: 0 <= i < 5 ==> Bare(RequestFields(address, pd, ttl)[i])
  {
    var (first, second) := ExtractHalfWords(pd);
    DigitsAreBare(first);
    DigitsAreBare(second);
    DigitsAreBare(ttl);
    ProtocolIsBare(pd.protocol);
    AddressIsBare(address);
  }

  lemma ProtocolIsBare(p: Protocol)
    ensures Bare(ProtocolToString(p))
  {
    match p
    case Unspecified => assert ProtocolToString(p)[0] == 'u';
    case Icmp => assert ProtocolToString(p)[0] == 'i';
    case Icmpv6 => assert ProtocolToString(p)[0] == 'i';
    case Udp => assert ProtocolToString(p)[0] == 'u';
    case Other(number) => DigitsAreBare(number);
  }

  lemma AddressIsBare(address: string)
    requires AddressText(address)
    ensures Bare(address)
  {
    assert address[0] in address;
  }

  /**
   * Whatever the directive, no field of its request needs quotes, and a reader that splits the line at its commas
   * finds the address, the header's own values in their order, the TTL and the protocol's name.
   */
  lemma RequestLineRoundTrip(address: string, pd: Directive, ttl: uint8)
    requires AddressText(address)
    ensures forall i :: 0 <= i < 5 ==> Bare(RequestFields(address, pd, ttl)[i])
    ensures var fields := Split(RequestLine(address, pd, ttl), ',');
      && fields == RequestFields(address, pd, ttl) && |fields| == 5
      && fields[0] == address
      && WritesHeader([Plain(fields[0]), Plain(fields[1]), Plain(fields[2]), Plain(fields[3]), Plain(fields[4])], pd)
      && ParseUint(fields[3], 255) == Some(ttl)
      && (Valid(pd) ==>
           fields[4] == match pd.protocol case Icmp => "icmp" case Icmpv6 => "icmp6" case Udp => "udp" case _ => "")
  {
    RequestFieldsAreBare(address, pd, ttl);
    SplitJoin(RequestFields(address, pd, ttl), ',');
    RequestsCarryTheProbe(pd, ttl);
  }

  // ----- IPv4 addresses -----

  /** net.IP.String on four bytes. */
  function DottedDecimal(ip: IP): (text: string)
    requires |ip| == 4
  {
    Join([Itoa(ip[0]), Itoa(ip[1]), Itoa(ip[2]), Itoa(ip[3])], '.')
  }

  lemma ByteText(b: uint8)
    ensures '.' !in Itoa(b) && ParseUint(Itoa(b), 255) == Some(b)
  {
    DigitsAreBare(b);
    ItoaParseUint(b, 255);
  }

  /** The printed address splits at its dots into the four bytes. */
  lemma DottedDecimalRoundTrip(ip: IP)
    requires |ip| == 4
    ensures var parts := Split(DottedDecimal(ip), '.');
      |parts| == 4 && forall i :: 0 <= i < 4 ==> ParseUint(parts[i], 255) == Some(ip[i])
  {
    ByteText(ip[0]);
    ByteText(ip[1]);
    ByteText(ip[2]);
    ByteText(ip[3]);
    SplitJoin([Itoa(ip[0]), Itoa(ip[1]), Itoa(ip[2]), Itoa(ip[3])], '.');
  }

  lemma DottedDecimalIsAddressText(ip: IP)
    requires |ip| == 4
    ensures AddressText(DottedDecimal(ip))
  {
    DigitsAreBare(ip[0]);
    DigitsAreBare(ip[1]);
    DigitsAreBare(ip[2]);
    DigitsAreBare(ip[3]);
    JoinIsAddressText([Itoa(ip[0]), Itoa(ip[1]), Itoa(ip[2]), Itoa(ip[3])]);
  }

  lemma {:induction false} JoinIsAddressText(parts: seq<string>)
    requires parts != [] && forall i :: 0 <= i < |parts| ==> AddressText(parts[i])
    ensures AddressText(Join(parts, '.'))
  {
    if |parts| > 1 {
      JoinIsAddressText(parts[1..]);
    }
  }

  /** Two probes of valid directives to IPv4 addresses are the same line of text exactly when their 5-tuples agree. */
  lemma IPv4LinesIdentifyTuples(pd: Directive, ttl: uint8, pd': Directive, ttl': uint8)
    requires Valid(pd) && Valid(pd') && IsIPv4(pd.destination) && IsIPv4(pd'.destination)
    ensures
      RequestLine(DottedDecimal(Canonical(pd.destination)), pd, ttl)
      == RequestLine(DottedDecimal(Canonical(pd'.destination)), pd', ttl')
      <==> TupleOf(pd, ttl) == TupleOf(pd', ttl')
  {
    var ip, ip' := Canonical(pd.destination), Canonical(pd'.destination);
    DottedDecimalIsAddressText(ip);
    DottedDecimalIsAddressText(ip');
    RequestLineRoundTrip(DottedDecimal(ip), pd, ttl);
    RequestLineRoundTrip(DottedDecimal(ip'), pd', ttl');
    DottedDecimalRoundTrip(ip);
    DottedDecimalRoundTrip(ip');
    RequestIdentifiesTuple(pd, ttl, pd', ttl');
    if DottedDecimal(ip) == DottedDecimal(ip') {
      SameBytes(ip, ip');
    }
  }

  lemma SameBytes(ip: IP, ip': IP)
    requires |ip| == |ip'| == 4 && DottedDecimal(ip) == DottedDecimal(ip')
    ensures ip == ip'
  {
    DottedDecimalRoundTrip(ip);
    DottedDecimalRoundTrip(ip');
    var parts := Split(DottedDecimal(ip), '.');
    forall i | 0 <= i < 4
      ensures ip[i] == ip'[i]
    {
      assert Some(ip[i]) == ParseUint(parts[i], 255) == Some(ip'[i]);
    }
  }
}
