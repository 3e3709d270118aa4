/**
 * The aggregation pass: every non-blank line that parses adds one to its
 * (port, protocol) counter and one to its tag's counter.
 */
module Aggregation {
  import opened Wrappers
  import opened Text
  import opened LookupPolicy
  import opened LookupTable
  import opened RecordParser
  import opened Tally

  /** What one accepted line adds: its port/protocol key and its tag. */
  datatype Hit = Hit(key: PortProto, tag: string)

  /** The key a counter key is looked up under: both parts lower-cased. */
  function LookupKey(key: PortProto): PortProto {
    PortProto(Lower(key.port), Lower(key.protocol))
  }

  /** The tag of a counter key: the table's tag for its lower-cased form, or
      the sentinel when the table has no such key. */
  function ResolveTag(table: Table, key: PortProto): (tag: string)
    ensures LookupKey(key) in table ==> tag == table[LookupKey(key)]
    ensures LookupKey(key) !in table ==> tag == Untagged
  {
    if LookupKey(key) in table then table[LookupKey(key)] else Untagged
  }

  /** The effect of one line: nothing for a blank or rejected line, else the
      stripped port with the stripped, lower-cased protocol, and its tag. */
  function Contribution(table: Table, line: string): Option<Hit> {
    if Trim(line) == [] then None
    else
      match ParseFlowLogLine(line)
      case Rejected(_) => None
      case Record(dstport, protocol) =>
        var key := PortProto(Trim(dstport), Lower(Trim(protocol)));
        Some(Hit(key, ResolveTag(table, key)))
  }

  /** What an accepted line adds, spelled out as the loop computes it. */
  lemma RecordContribution(table: Table, line: string, key: PortProto, tag: string)
    requires Trim(line) != [] && ParseFlowLogLine(line).Record?
    requires var parsed := ParseFlowLogLine(line);
      key == PortProto(Trim(parsed.dstport), Lower(Trim(parsed.protocol)))
    requires tag == ResolveTag(table, key)
    ensures KeysOfLine(table, line) == [key] && TagsOfLine(table, line) == [tag]
    ensures Contribution(table, line) == Some(Hit(key, tag))
  {
    var parsed := ParseFlowLogLine(line);
    assert Trim(parsed.dstport) == parsed.dstport && Trim(parsed.protocol) == parsed.protocol;
    var r := Contribution(table, line);
    assert r.Some? && r.value.key == key && r.value.tag == tag;
  }

  /** A blank or rejected line adds nothing. */
  lemma SkippedContribution(table: Table, line: string)
    requires Trim(line) == [] || ParseFlowLogLine(line).Rejected?
    ensures KeysOfLine(table, line) == [] && TagsOfLine(table, line) == []
    ensures Contribution(table, line) == None
  {
  }

  function KeysOfLine(table: Table, line: string): seq<PortProto> {
    match Contribution(table, line)
    case None => []
    case Some(h) => [h.key]
  }

  function TagsOfLine(table: Table, line: string): seq<string> {
    match Contribution(table, line)
    case None => []
    case Some(h) => [h.tag]
  }

  function AcceptedOfLine(table: Table, line: string): seq<string> {
    if Contribution(table, line).Some? then [line] else []
  }

  /** The port/protocol keys of the accepted lines, in input order. */
  function KeyList(table: Table, lines: seq<string>): seq<PortProto> {
    FlatMap(lines, line => KeysOfLine(table, line))
  }

  /** The tags of the accepted lines, in input order. */
  function TagList(table: Table, lines: seq<string>): seq<string> {
    FlatMap(lines, line => TagsOfLine(table, line))
  }

  /** The lines that are neither blank nor rejected. */
  function AcceptedLines(table: Table, lines: seq<string>): seq<string> {
    FlatMap(lines, line => AcceptedOfLine(table, line))
  }

  /** The port/protocol counter after a pass over `lines`. */
  function PortProtoCountsOf(table: Table, lines: seq<string>): map<PortProto, nat> {
    Counts(multiset(KeyList(table, lines)))
  }

  /** The tag counter after a pass over `lines`. */
  function TagCountsOf(table: Table, lines: seq<string>): map<string, nat> {
    Counts(multiset(TagList(table, lines)))
  }

  /** One more line: a blank or rejected line leaves both counters as they
      were; an accepted line increments exactly its key and exactly its tag. */
  lemma CountersStep(table: Table, lines: seq<string>, line: string)
    ensures Contribution(table, line).None? ==>
      && PortProtoCountsOf(table, lines + [line]) == PortProtoCountsOf(table, lines)
      && TagCountsOf(table, lines + [line]) == TagCountsOf(table, lines)
    ensures Contribution(table, line).Some? ==>
      var h := Contribution(table, line).value;
      && PortProtoCountsOf(table, lines + [line]) == Increment(PortProtoCountsOf(table, lines), h.key)
      && TagCountsOf(table, lines + [line]) == Increment(TagCountsOf(table, lines), h.tag)
  {
    var all := lines + [line];
    assert all[..|all| - 1] == lines;
    var keys, tags := KeyList(table, lines), TagList(table, lines);
    assert KeyList(table, all) == keys + KeysOfLine(table, line);
    assert TagList(table, all) == tags + TagsOfLine(table, line);
    match Contribution(table, line)
    case None =>
      assert keys + [] == keys;
      assert tags + [] == tags;
    case Some(h) =>
      CountsAdd(multiset(keys), h.key);
      CountsAdd(multiset(tags), h.tag);
  }

  lemma ListsSnoc(table: Table, lines: seq<string>, line: string)
    ensures KeyList(table, lines + [line]) == KeyList(table, lines) + KeysOfLine(table, line)
    ensures TagList(table, lines + [line]) == TagList(table, lines) + TagsOfLine(table, line)
  {
    assert (lines + [line])[..|lines|] == lines;
  }

  /** The key log after one more line of `input`. */
  lemma KeyLogStep(table: Table, keyLog: seq<PortProto>, input: seq<string>, i: nat)
    requires i < |input|
    ensures keyLog + KeyList(table, input[..i]) + KeysOfLine(table, input[i])
      == keyLog + KeyList(table, input[..i + 1])
  {
    assert input[..i + 1][..i] == input[..i];
  }

  /** The tag log after one more line of `input`. */
  lemma TagLogStep(table: Table, tagLog: seq<string>, input: seq<string>, i: nat)
    requires i < |input|
    ensures tagLog + TagList(table, input[..i]) + TagsOfLine(table, input[i])
      == tagLog + TagList(table, input[..i + 1])
  {
    assert input[..i + 1][..i] == input[..i];
  }

  lemma {:induction false} ListLengths(table: Table, lines: seq<string>)
    ensures |KeyList(table, lines)| == |AcceptedLines(table, lines)| == |TagList(table, lines)|
    decreases |lines|
  {
    if lines != [] {
      ListLengths(table, lines[..|lines| - 1]);
    }
  }

  /** Both counters add up to the number of accepted lines. */
  lemma CountersBalance(table: Table, lines: seq<string>)
    ensures Total(PortProtoCountsOf(table, lines)) == |AcceptedLines(table, lines)|
    ensures Total(TagCountsOf(table, lines)) == |AcceptedLines(table, lines)|
  {
    ListLengths(table, lines);
    TotalCounts(multiset(KeyList(table, lines)));
    TotalCounts(multiset(TagList(table, lines)));
  }

  /** The tag counter counts the resolved tags of exactly the keys the
      port/protocol counter counts: entry by entry, the tag list is the key
      list with each key replaced by its tag. */
  lemma {:induction false} TagsFollowKeys(table: Table, lines: seq<string>)
    ensures var keys, tags := KeyList(table, lines), TagList(table, lines);
      && |tags| == |keys|
      && forall i :: 0 <= i < |keys| ==> tags[i] == ResolveTag(table, keys[i])
    decreases |lines|
  {
    if lines != [] {
      var init, last := lines[..|lines| - 1], lines[|lines| - 1];
      TagsFollowKeys(table, init);
      assert lines == init + [last];
      ListsSnoc(table, init, last);
    }
  }

  /** A line lists key `k` exactly when it is accepted with key `k`. */
  lemma KeyOfLine(table: Table, line: string, k: PortProto)
    ensures k in KeysOfLine(table, line) <==> Contribution(table, line) == Some(Hit(k, ResolveTag(table, k)))
  {
  }

  /** A key is in the port/protocol counter exactly when some line of the
      log is accepted with that key. */
  lemma CountedKeys(table: Table, lines: seq<string>, k: PortProto)
    ensures k in PortProtoCountsOf(table, lines) <==>
      exists i :: 0 <= i < |lines| && Contribution(table, lines[i]) == Some(Hit(k, ResolveTag(table, k)))
  {
    FlatMapMember(lines, line => KeysOfLine(table, line), k);
    forall i | 0 <= i < |lines|
      ensures k in KeysOfLine(table, lines[i]) <==> Contribution(table, lines[i]) == Some(Hit(k, ResolveTag(table, k)))
    {
      KeyOfLine(table, lines[i], k);
    }
  }

  /** A log of one accepted line counts its key once and its tag once. */
  lemma OneLineCounts(table: Table, line: string)
    requires Contribution(table, line).Some?
    ensures var h := Contribution(table, line).value;
      && PortProtoCountsOf(table, [line]) == map[h.key := 1]
      && TagCountsOf(table, [line]) == map[h.tag := 1]
  {
    CountersStep(table, [], line);
    assert [] + [line] == [line];
    assert PortProtoCountsOf(table, []) == map[] && TagCountsOf(table, []) == map[];
  }

  /** The counters do not depend on the order of the lines. */
  lemma LineOrderIrrelevant(table: Table, lines: seq<string>, shuffled: seq<string>)
    requires multiset(lines) == multiset(shuffled)
    ensures PortProtoCountsOf(table, lines) == PortProtoCountsOf(table, shuffled)
    ensures TagCountsOf(table, lines) == TagCountsOf(table, shuffled)
  {
    FlatMapPermutation(lines, shuffled, line => KeysOfLine(table, line));
    FlatMapPermutation(lines, shuffled, line => TagsOfLine(table, line));
  }

  /** The counter key of an accepted line is its port field exactly as
      written (not lower-cased) with its translated protocol lower-cased; its
      tag is looked up with the port lower-cased as well. */
  lemma AcceptedLineKey(table: Table, line: string)
    requires ParseFlowLogLine(line).Record?
    ensures var r := ParseFlowLogLine(line);
      var key := PortProto(r.dstport, Lower(r.protocol));
      Contribution(table, line) == Some(Hit(key, ResolveTag(table, key)))
  {
  }

  /** Unless some lookup row is itself tagged "Untagged", a key counts as
      "Untagged" exactly when its lower-cased form is not in the table. */
  lemma UntaggedIffUnmatched(table: Table, key: PortProto)
    requires Untagged !in table.Values
    ensures ResolveTag(table, key) == Untagged <==> LookupKey(key) !in table
  {
    if LookupKey(key) in table {
      assert table[LookupKey(key)] in table.Values;
    }
  }

  /** The aggregation engine: the lookup table and the two counters. The
      ghost logs list, in input order, the key and the tag of every line
      counted so far. */
  class Aggregator {
    const table: Table
    var tagCounts: map<string, nat>
    var portProtoCounts: map<PortProto, nat>
    ghost var keyLog: seq<PortProto>
    ghost var tagLog: seq<string>

    ghost predicate Valid()
      reads this
    {
      && tagCounts == Counts(multiset(tagLog))
      && portProtoCounts == Counts(multiset(keyLog))
    }

    constructor (table: Table)
      ensures Valid() && this.table == table && keyLog == [] && tagLog == []
      ensures tagCounts == map[] && portProtoCounts == map[]
    {
      this.table := table;
      tagCounts := map[];
      portProtoCounts := map[];
      keyLog := [];
      tagLog := [];
      new;
      assert Counts<string>(multiset{}) == map[];
      assert Counts<PortProto>(multiset{}) == map[];
    }

    /** One iteration of the loop over the flow log. */
    method ProcessLine(line: string)
      requires Valid()
      modifies this
      ensures Valid()
      ensures keyLog == old(keyLog) + KeysOfLine(table, line)
      ensures tagLog == old(tagLog) + TagsOfLine(table, line)
      ensures Contribution(table, line).None? ==>
        tagCounts == old(tagCounts) && portProtoCounts == old(portProtoCounts)
      ensures Contribution(table, line).Some? ==>
        var h := Contribution(table, line).value;
        && portProtoCounts == Increment(old(portProtoCounts), h.key)
        && tagCounts == Increment(old(tagCounts), h.tag)
    {
      if Trim(line) == [] {
        SkippedContribution(table, line);
        assert keyLog + [] == keyLog && tagLog + [] == tagLog;
        return;
      }
      var parsed := ParseFlowLogLine(line);
      if parsed.Rejected? {
        SkippedContribution(table, line);
        assert keyLog + [] == keyLog && tagLog + [] == tagLog;
        return;
      }
      var dstport := Trim(parsed.dstport);
      var protocol := Lower(Trim(parsed.protocol));
      var portProtoKey := PortProto(dstport, protocol);
      var lookupKey := PortProto(Lower(dstport), Lower(protocol));
      var tag := if lookupKey in table then table[lookupKey] else Untagged;
      RecordContribution(table, line, portProtoKey, tag);
      Count(portProtoKey, tag);
    }

    /** Counts one accepted flow under its port/protocol key and its tag. */
    method Count(portProtoKey: PortProto, tag: string)
      requires Valid()
      modifies this
      ensures Valid()
      ensures keyLog == old(keyLog) + [portProtoKey] && tagLog == old(tagLog) + [tag]
      ensures portProtoCounts == Increment(old(portProtoCounts), portProtoKey)
      ensures tagCounts == Increment(old(tagCounts), tag)
    {
      CountsSnoc(keyLog, portProtoKey);
      CountsSnoc(tagLog, tag);
      portProtoCounts := Increment(portProtoCounts, portProtoKey);
      tagCounts := Increment(tagCounts, tag);
      keyLog := keyLog + [portProtoKey];
      tagLog := tagLog + [tag];
    }

    /** The loop over the flow log. */
    method Run(input: seq<string>)
      requires Valid()
      modifies this
      ensures Valid()
      ensures keyLog == old(keyLog) + KeyList(table, input)
      ensures tagLog == old(tagLog) + TagList(table, input)
    {
      for i := 0 to |input|
        invariant Valid()
        invariant keyLog == old(keyLog) + KeyList(table, input[..i])
        invariant tagLog == old(tagLog) + TagList(table, input[..i])
      {
        KeyLogStep(table, old(keyLog), input, i);
        TagLogStep(table, old(tagLog), input, i);
        ProcessLine(input[i]);
      }
      assert input[..|input|] == input;
    }
  }

  /** The counting half of `main`: both counters after one pass over the
      flow log, each adding up to the number of accepted lines. */
  method CountFlows(table: Table, input: seq<string>)
    returns (tagCounts: map<string, nat>, portProtoCounts: map<PortProto, nat>)
    ensures tagCounts == TagCountsOf(table, input)
    ensures portProtoCounts == PortProtoCountsOf(table, input)
    ensures Total(tagCounts) == Total(portProtoCounts) == |AcceptedLines(table, input)|
  {
    var engine := new Aggregator(table);
    engine.Run(input);
    assert engine.keyLog == KeyList(table, input);
    assert engine.tagLog == TagList(table, input);
    tagCounts, portProtoCounts := engine.tagCounts, engine.portProtoCounts;
    CountersBalance(table, input);
  }
}
