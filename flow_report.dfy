/**
 * The whole program: load the lookup table, count the flow log, print the
 * report.
 */
module FlowReport {
  import opened Wrappers
  import opened Text
  import opened Numbers
  import opened LookupPolicy
  import opened LookupTable
  import opened RecordParser
  import opened Aggregation
  import opened Report

  /** What `main` prints for a lookup file and a flow log, or the error that
      stops it while loading the lookup file. */
  function ReportOf(lookupRows: seq<Row>, flowLines: seq<string>): (r: Result<seq<string>, LoadError>)
    ensures r.Failure? ==> r.error.row < |lookupRows| && |lookupRows[r.error.row]| > 3
    ensures r.Success? ==> |r.value| >= 5 && r.value[0] == TagTitle && r.value[1] == TagHeader
  {
    match LookupTableOf(lookupRows)
    case Failure(e) =>
      LoadFailsOnLongRow(lookupRows);
      Failure(e)
    case Success(table) => Success(Render(TagCountsOf(table, flowLines), PortProtoCountsOf(table, flowLines)))
  }

  /** `main`. */
  method RunFlowReport(lookupRows: seq<Row>, flowLines: seq<string>) returns (r: Result<seq<string>, LoadError>)
    ensures r == ReportOf(lookupRows, flowLines)
  {
    var loaded := LoadLookupTable(lookupRows);
    if loaded.Failure? {
      return Failure(loaded.error);
    }
    var tagCounts, portProtoCounts := CountFlows(loaded.value, flowLines);
    return Success(Render(tagCounts, portProtoCounts));
  }

  /** The program stops before reading the flow log exactly when some lookup
      row has more than three fields; otherwise it prints a report. */
  lemma ReportFailsOnLongRow(lookupRows: seq<Row>, flowLines: seq<string>)
    ensures ReportOf(lookupRows, flowLines).Failure? <==> exists i :: 0 <= i < |lookupRows| && |lookupRows[i]| > 3
  {
    LoadFailsOnLongRow(lookupRows);
  }

  /** The report does not depend on the order of the flow log's lines. */
  lemma ReportIgnoresLineOrder(lookupRows: seq<Row>, flowLines: seq<string>, shuffled: seq<string>)
    requires multiset(flowLines) == multiset(shuffled)
    ensures ReportOf(lookupRows, flowLines) == ReportOf(lookupRows, shuffled)
  {
    if LookupTableOf(lookupRows).Success? {
      LineOrderIrrelevant(LookupTableOf(lookupRows).value, flowLines, shuffled);
    }
  }

  /** A line whose words, however they are separated, are at least fourteen
      with version 2 in front counts under word 6 and the lower-cased
      translation of word 7. */
  lemma LineCounted(table: Table, line: string)
    requires |Split(line)| >= MinFields && ParseInt(Split(line)[0]) == Some(SupportedVersion)
    ensures var ws := Split(line);
      var key := PortProto(ws[DstPortField], Lower(CanonicalProtocol(ws[ProtocolField])));
      Contribution(table, line) == Some(Hit(key, ResolveTag(table, key)))
  {
    ParseSplitFields(line);
    AcceptedLineKey(table, line);
  }

  /** The words of a version-2 record to port 80 over protocol 6, with
      any values in the words the engine does not read. */
  predicate Port80Tcp(ws: seq<string>) {
    |ws| == MinFields && ws[VersionField] == "2"
    && ws[DstPortField] == "80" && ws[ProtocolField] == "6"
  }

  /** A lookup file with one row, in upper case and padded with blanks. */
  const SampleLookup: seq<Row> := [[" 80", "TCP ", " web "]]

  /** Stripping the sample row's fields. */
  lemma SamplePortField()
    ensures Trim(SampleLookup[0][0]) == "80"
  {
    assert LeadingSpace(" 80") == 1 && TextEnd(" 80") == 3;
  }

  lemma SampleProtocolField()
    ensures Trim(SampleLookup[0][1]) == "TCP"
  {
    assert LeadingSpace("TCP ") == 0 && TextEnd("TCP ") == 3;
  }

  lemma SampleTagField()
    ensures Trim(SampleLookup[0][2]) == "web"
  {
    assert LeadingSpace(" web ") == 1 && TextEnd(" web ") == 4;
  }

  /** Lower-casing the sample row's key fields. */
  lemma SampleLower()
    ensures Lower("80") == "80" && Lower("TCP") == "tcp"
  {
    LowerOfLower("80");
    LowerSpec("TCP");
  }

  /** The padded upper-case row normalises to key ("80", "tcp") and tag "web". */
  lemma SampleRow()
    ensures RowKey(SampleLookup[0]) == PortProto("80", "tcp")
    ensures RowTag(SampleLookup[0]) == "web"
  {
    SamplePortField();
    SampleProtocolField();
    SampleTagField();
    SampleLower();
  }

  /** The padded upper-case row is stored under its normalised key, with its
      tag stripped. */
  lemma SampleTable()
    ensures LookupTableOf(SampleLookup) == Success(map[PortProto("80", "tcp") := "web"])
  {
    SampleRow();
    assert SampleLookup[..0] == [];
  }

  /** A line with such words, however they are spaced, parses to port "80"
      and protocol "tcp". */
  lemma Port80TcpParsed(line: string)
    requires Port80Tcp(Split(line))
    ensures ParseFlowLogLine(line) == Record("80", "tcp")
  {
    ParseDigits("2");
    assert DigitsValue("2") == 2;
    ParseSplitFields(line);
    SixIsTcp();
  }

  /** Such a record counts under ("80", "tcp") and, with the sample lookup
      file, under the tag "web". */
  lemma Port80TcpLine(line: string)
    requires Port80Tcp(Split(line))
    ensures var table := map[PortProto("80", "tcp") := "web"];
      Contribution(table, line) == Some(Hit(PortProto("80", "tcp"), "web"))
  {
    var table := map[PortProto("80", "tcp") := "web"];
    Port80TcpParsed(line);
    AcceptedLineKey(table, line);
    WebKey();
  }

  /** ("80", "tcp") is already in lookup form and is tagged "web". */
  lemma WebKey()
    ensures Lower("tcp") == "tcp"
    ensures ResolveTag(map[PortProto("80", "tcp") := "web"], PortProto("80", "tcp")) == "web"
  {
    LowerOfLower("tcp");
    LowerOfLower("80");
  }

  /** The report for one tag counted once and one key counted once. */
  lemma WebReport()
    ensures Render(map["web" := 1], map[PortProto("80", "tcp") := 1]) == [
      "Tag Counts:", "Tag,Count", "web,1", "",
      "Port/Protocol Combination Counts:", "Port,Protocol,Count", "80,tcp,1"]
  {
    WebTagRows();
    WebKeyRows();
    assert Render(map["web" := 1], map[PortProto("80", "tcp") := 1]) == Layout(["web,1"], ["80,tcp,1"]);
  }

  /** The tag section's one row. */
  lemma WebTagRows()
    ensures TagRows(map["web" := 1], SortedTags(map["web" := 1])) == ["web,1"]
  {
    var counts := map["web" := 1];
    var tags := SortedTags(counts);
    assert tags == ["web"] by {
      assert |tags| == 1 && "web" in tags;
    }
    assert Show(1) == "1";
    assert TagRow("web", 1) == "web,1";
  }

  /** The port/protocol section's one row. */
  lemma WebKeyRows()
    ensures PortProtoRows(map[PortProto("80", "tcp") := 1], SortedKeys(map[PortProto("80", "tcp") := 1])) == ["80,tcp,1"]
  {
    var key := PortProto("80", "tcp");
    var counts := map[key := 1];
    var keys := SortedKeys(counts);
    assert keys == [key] by {
      assert |keys| == 1 && key in keys;
    }
    assert Show(1) == "1";
    assert PortProtoRow(key, 1) == "80,tcp,1";
  }

  /** The whole report for the sample lookup file and a one-line flow log. */
  lemma Port80TcpReport(line: string)
    requires Port80Tcp(Split(line))
    ensures ReportOf(SampleLookup, [line]) == Success([
      "Tag Counts:", "Tag,Count", "web,1", "",
      "Port/Protocol Combination Counts:", "Port,Protocol,Count", "80,tcp,1"])
  {
    var table := map[PortProto("80", "tcp") := "web"];
    SampleTable();
    Port80TcpLine(line);
    OneLineCounts(table, line);
    WebReport();
  }

  /** The words of a version-2 record to port 9999 over protocol 47. */
  predicate Port9999Gre(ws: seq<string>) {
    |ws| == MinFields && ws[VersionField] == "2"
    && ws[DstPortField] == "9999" && ws[ProtocolField] == "47"
  }

  /** Protocol 47 has no name, so it is counted under its number, and with
      the sample lookup file the record is "Untagged". */
  lemma Port9999GreLine(line: string)
    requires Port9999Gre(Split(line))
    ensures var table := map[PortProto("80", "tcp") := "web"];
      Contribution(table, line) == Some(Hit(PortProto("9999", "47"), Untagged))
  {
    var table := map[PortProto("80", "tcp") := "web"];
    Port9999GreParsed(line);
    AcceptedLineKey(table, line);
    UnmatchedKey();
  }

  /** Such a record parses to port "9999" and protocol "47". */
  lemma Port9999GreParsed(line: string)
    requires Port9999Gre(Split(line))
    ensures ParseFlowLogLine(line) == Record("9999", "47")
  {
    ParseDigits("2");
    assert DigitsValue("2") == 2;
    ParseSplitFields(line);
    ProtocolFortySeven();
  }

  /** ("9999", "47") is already in lookup form and the sample table has no
      entry for it. */
  lemma UnmatchedKey()
    ensures Lower("47") == "47"
    ensures ResolveTag(map[PortProto("80", "tcp") := "web"], PortProto("9999", "47")) == Untagged
  {
    LowerOfLower("47");
    LowerOfLower("9999");
  }

  lemma ProtocolFortySeven()
    ensures CanonicalProtocol("47") == "47"
  {
    ParseDigits("47");
    assert DigitsValue("47") == 47;
    assert Show(47) == "47";
  }
}
