/**
 * The flow-log record parser: one raw line becomes a (destination port,
 * protocol) record, or is rejected.
 */
module RecordParser {
  import opened Wrappers
  import opened Text
  import opened Numbers
  import opened LookupPolicy

  /** Field count of a version-2 record. */
  const MinFields: nat := 14
  /** The one schema version processed. */
  const SupportedVersion: int := 2
  /** Positions of the fields the engine reads. */
  const VersionField: nat := 0
  const DstPortField: nat := 6
  const ProtocolField: nat := 7

  /** Why a line yields no record; every reason is skipped alike. */
  datatype Rejection = TooFewFields | VersionNotInteger | UnsupportedVersion(version: int)

  datatype Parsed = Rejected(reason: Rejection) | Record(dstport: string, protocol: string)

  /** `line.strip().split()`: the same words as `line.split()`. */
  function Fields(line: string): (fs: seq<string>)
    ensures IsWords(fs) && fs == Split(line)
  {
    StripBeforeSplit(line);
    SplitWords(line);
    Split(Trim(line))
  }

  /** The protocol name for a protocol field: a known protocol number becomes
      its name, any other integer its decimal form, anything else stays. */
  function CanonicalProtocol(field: string): (r: string)
    ensures |field| > 0 && NoSpace(field) ==> |r| > 0 && NoSpace(r)
  {
    match ParseInt(field)
    case Some(n) => if n in ProtoMap then ProtoMap[n] else Show(n)
    case None => field
  }

  /** `parse_flow_log_line`. */
  function ParseFlowLogLine(line: string): (r: Parsed)
    ensures r.Record? ==> |r.dstport| > 0 && NoSpace(r.dstport)
    ensures r.Record? ==> |r.protocol| > 0 && NoSpace(r.protocol)
  {
    var parts := Fields(line);
    if |parts| < MinFields then Rejected(TooFewFields)
    else
      match ParseInt(parts[VersionField])
      case None => Rejected(VersionNotInteger)
      case Some(version) =>
        if version != SupportedVersion then Rejected(UnsupportedVersion(version))
        else Record(parts[DstPortField], CanonicalProtocol(parts[ProtocolField]))
  }

  /** Parsing any line, by the words `split()` finds in it (whatever
      whitespace separates, precedes or follows them): too few words is
      rejected, a version word that is not an integer or not 2 is rejected,
      and otherwise the record is word 6 verbatim and word 7 translated. */
  lemma ParseSplitFields(line: string)
    ensures var ws, r := Split(line), ParseFlowLogLine(line);
      && (|ws| < MinFields ==> r == Rejected(TooFewFields))
      && (|ws| >= MinFields && ParseInt(ws[0]).None? ==> r == Rejected(VersionNotInteger))
      && (|ws| >= MinFields && ParseInt(ws[0]).Some? && ParseInt(ws[0]).value != SupportedVersion ==>
            r == Rejected(UnsupportedVersion(ParseInt(ws[0]).value)))
      && (|ws| >= MinFields && ParseInt(ws[0]) == Some(SupportedVersion) ==>
            r == Record(ws[DstPortField], CanonicalProtocol(ws[ProtocolField])))
  {
    assert Fields(line) == Split(line);
  }

  /** Protocol translation: 6, 17 and 1 (in any spelling `int()` accepts)
      become "tcp", "udp" and "icmp"; any other integer becomes the decimal
      form of its value, which reads back as the same value; a field that is
      not an integer is kept verbatim. */
  lemma ProtocolTranslation(field: string)
    ensures ParseInt(field) == Some(6) ==> CanonicalProtocol(field) == "tcp"
    ensures ParseInt(field) == Some(17) ==> CanonicalProtocol(field) == "udp"
    ensures ParseInt(field) == Some(1) ==> CanonicalProtocol(field) == "icmp"
    ensures ParseInt(field).Some? && ParseInt(field).value !in {1, 6, 17} ==>
      var n := ParseInt(field).value;
      CanonicalProtocol(field) == Show(n) && ParseInt(CanonicalProtocol(field)) == Some(n)
    ensures ParseInt(field).None? ==> CanonicalProtocol(field) == field
  {
    if ParseInt(field).Some? {
      ShowRoundTrip(ParseInt(field).value);
    }
  }

  /** Translating a translated protocol changes nothing. */
  lemma CanonicalIdempotent(field: string)
    ensures CanonicalProtocol(CanonicalProtocol(field)) == CanonicalProtocol(field)
  {
    match ParseInt(field)
    case None =>
    case Some(n) =>
      if n in ProtoMap {
        NotAnInteger(ProtoMap[n]);
      } else {
        ShowRoundTrip(n);
      }
  }

  /** The protocol field "6" is "tcp". */
  lemma SixIsTcp()
    ensures CanonicalProtocol("6") == "tcp"
  {
    ParseDigits("6");
    assert DigitsValue("6") == 6;
  }

  /** A leading zero is dropped before translation: "06" is "tcp". */
  lemma LeadingZeroProtocol()
    ensures CanonicalProtocol("06") == "tcp"
  {
    LeadingZeroIgnored("6");
    assert "0" + "6" == "06";
    SixIsTcp();
  }

  /** A plus sign is dropped before translation: "+6" is "tcp". */
  lemma PlusSignProtocol()
    ensures CanonicalProtocol("+6") == "tcp"
  {
    PlusSignIgnored("6");
    assert "+" + "6" == "+6";
    SixIsTcp();
  }

  /** An unknown protocol number is rendered without its leading zero:
      "047" is "47". */
  lemma UnknownNumberProtocol()
    ensures CanonicalProtocol("047") == "47"
  {
    LeadingZeroIgnored("47");
    assert "0" + "47" == "047";
    ParseDigits("47");
    assert DigitsValue("47") == 47 by {
      assert "47"[..1] == "4";
    }
    assert Show(47) == "47";
  }

  /** Protocol names pass through as written: "TCP" stays "TCP" here and is
      lower-cased only by the aggregation step. */
  lemma NameProtocol()
    ensures CanonicalProtocol("TCP") == "TCP"
  {
    NotAnInteger("TCP");
  }
}
