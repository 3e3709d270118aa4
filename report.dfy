/**
 * The report printed after the pass: the tag counts, then the port/protocol
 * counts, each section in ascending key order.
 */
module Report {
  import opened Text
  import opened Numbers
  import opened LookupTable

  /** `less` is a strict total order on T. */
  ghost predicate StrictTotalOrder<T(!new)>(less: (T, T) -> bool) {
    && (forall a :: !less(a, a))
    && (forall a, b, c :: less(a, b) && less(b, c) ==> less(a, c))
    && (forall a, b :: a != b ==> less(a, b) || less(b, a))
  }

  /** Every element of `s` comes before every later one. */
  predicate StrictlySorted<T>(s: seq<T>, less: (T, T) -> bool) {
    forall i, j :: 0 <= i < j < |s| ==> less(s[i], s[j])
  }

  /** Python's order on `(port, protocol)` tuples: by port, then protocol. */
  predicate KeyLess(a: PortProto, b: PortProto) {
    Less(a.port, b.port) || (a.port == b.port && Less(a.protocol, b.protocol))
  }

  lemma StringOrder()
    ensures StrictTotalOrder(Less)
  {
    forall a: string
      ensures !Less(a, a)
    {
      LessIrreflexive(a);
    }
    forall a: string, b: string, c: string | Less(a, b) && Less(b, c)
      ensures Less(a, c)
    {
      LessTransitive(a, b, c);
    }
    forall a: string, b: string | a != b
      ensures Less(a, b) || Less(b, a)
    {
      LessTotal(a, b);
    }
  }

  lemma KeyOrder()
    ensures StrictTotalOrder(KeyLess)
  {
    StringOrder();
    forall a: PortProto, b: PortProto, c: PortProto | KeyLess(a, b) && KeyLess(b, c)
      ensures KeyLess(a, c)
    {
    }
    forall a: PortProto, b: PortProto | a != b
      ensures KeyLess(a, b) || KeyLess(b, a)
    {
      LessTotal(a.port, b.port);
      LessTotal(a.protocol, b.protocol);
    }
  }

  /** `m` comes before every other element of `s`. */
  predicate IsLeast<T(==)>(m: T, s: set<T>, less: (T, T) -> bool) {
    m in s && forall x :: x in s && x != m ==> less(m, x)
  }

  /** The least element of `s + {y}`, given the least element of `s`. */
  lemma LeastOfAdd<T(!new)>(s: set<T>, y: T, m: T, less: (T, T) -> bool) returns (least: T)
    requires StrictTotalOrder(less) && IsLeast(m, s, less)
    ensures IsLeast(least, s + {y}, less)
  {
    if y == m || less(m, y) {
      least := m;
    } else {
      least := y;
      forall x | x in s + {y} && x != y
        ensures less(y, x)
      {
        if x != m {
          assert less(m, x);
        }
      }
    }
  }

  /** A non-empty finite set has a least element. */
  lemma {:induction false} MinimumExists<T(!new)>(s: set<T>, less: (T, T) -> bool)
    requires s != {} && StrictTotalOrder(less)
    ensures exists m :: IsLeast(m, s, less)
    decreases |s|
  {
    var y :| y in s;
    var rest := s - {y};
    if rest == {} {
      forall x | x in s
        ensures x == y
      {
        assert x !in rest;
      }
      assert IsLeast(y, s, less);
    } else {
      MinimumExists(rest, less);
      var m :| IsLeast(m, rest, less);
      var least := LeastOfAdd(rest, y, m, less);
      assert rest + {y} == s;
    }
  }

  /** `sorted(s)`: the elements of `s`, each once, in ascending order. */
  function SortedElements<T(!new)>(s: set<T>, less: (T, T) -> bool): (r: seq<T>)
    requires StrictTotalOrder(less)
    ensures |r| == |s|
    ensures forall x :: x in r <==> x in s
    ensures StrictlySorted(r, less)
    decreases |s|
  {
    if s == {} then []
    else
      MinimumExists(s, less);
      var m :| IsLeast(m, s, less);
      [m] + SortedElements(s - {m}, less)
  }

  /** The head of a strictly sorted sequence comes before its other elements. */
  lemma HeadIsLeast<T>(a: seq<T>, x: T, less: (T, T) -> bool)
    requires StrictlySorted(a, less) && x in a && x != a[0]
    ensures less(a[0], x)
  {
    var k :| 0 <= k < |a| && a[k] == x;
  }

  /** Two strictly sorted listings of the same elements start alike. */
  lemma SameHead<T(!new)>(a: seq<T>, b: seq<T>, less: (T, T) -> bool)
    requires StrictTotalOrder(less)
    requires StrictlySorted(a, less) && StrictlySorted(b, less)
    requires forall x :: x in a <==> x in b
    requires a != [] && b != []
    ensures a[0] == b[0]
  {
    if a[0] != b[0] {
      assert a[0] in a && b[0] in b;
      HeadIsLeast(a, b[0], less);
      HeadIsLeast(b, a[0], less);
    }
  }

  /** Two strictly sorted listings of the same elements are the same listing,
      so the sorted order does not depend on how the set is enumerated. */
  lemma {:induction false} SortedUnique<T(!new)>(a: seq<T>, b: seq<T>, less: (T, T) -> bool)
    requires StrictTotalOrder(less)
    requires StrictlySorted(a, less) && StrictlySorted(b, less)
    requires forall x :: x in a <==> x in b
    ensures a == b
    decreases |a|
  {
    if a != [] {
      assert a[0] in b;
    }
    if b != [] {
      assert b[0] in a;
    }
    if a != [] && b != [] {
      SameHead(a, b, less);
      forall x
        ensures x in a[1..] <==> x in b[1..]
      {
        if x in a[1..] {
          var k :| 0 <= k < |a| - 1 && a[1..][k] == x;
          HeadIsLeast(a, x, less);
          var j :| 0 <= j < |b| && b[j] == x;
          assert b[1..][j - 1] == x;
        }
        if x in b[1..] {
          var k :| 0 <= k < |b| - 1 && b[1..][k] == x;
          HeadIsLeast(b, x, less);
          var j :| 0 <= j < |a| && a[j] == x;
          assert a[1..][j - 1] == x;
        }
      }
      SortedUnique(a[1..], b[1..], less);
      assert a == [a[0]] + a[1..] && b == [b[0]] + b[1..];
    }
  }

  const TagTitle: string := "Tag Counts:"
  const TagHeader: string := "Tag,Count"
  const PortProtoTitle: string := "Port/Protocol Combination Counts:"
  const PortProtoHeader: string := "Port,Protocol,Count"

  /** One line of the tag section. */
  function TagRow(tag: string, count: nat): string {
    tag + "," + Show(count)
  }

  /** One line of the port/protocol section. */
  function PortProtoRow(key: PortProto, count: nat): string {
    key.port + "," + key.protocol + "," + Show(count)
  }

  function TagRows(counts: map<string, nat>, tags: seq<string>): (rows: seq<string>)
    requires forall t :: t in tags ==> t in counts
    ensures |rows| == |tags|
    ensures forall i :: 0 <= i < |tags| ==> rows[i] == TagRow(tags[i], counts[tags[i]])
  {
    if tags == [] then [] else [TagRow(tags[0], counts[tags[0]])] + TagRows(counts, tags[1..])
  }

  function PortProtoRows(counts: map<PortProto, nat>, keys: seq<PortProto>): (rows: seq<string>)
    requires forall k :: k in keys ==> k in counts
    ensures |rows| == |keys|
    ensures forall i :: 0 <= i < |keys| ==> rows[i] == PortProtoRow(keys[i], counts[keys[i]])
  {
    if keys == [] then [] else [PortProtoRow(keys[0], counts[keys[0]])] + PortProtoRows(counts, keys[1..])
  }

  /** The tags of a tag counter, ascending. */
  function SortedTags(counts: map<string, nat>): (tags: seq<string>)
    ensures |tags| == |counts|
    ensures forall t :: t in tags <==> t in counts
    ensures StrictlySorted(tags, Less)
  {
    StringOrder();
    SortedElements(counts.Keys, Less)
  }

  /** The keys of a port/protocol counter, ascending. */
  function SortedKeys(counts: map<PortProto, nat>): (keys: seq<PortProto>)
    ensures |keys| == |counts|
    ensures forall k :: k in keys <==> k in counts
    ensures StrictlySorted(keys, KeyLess)
  {
    KeyOrder();
    SortedElements(counts.Keys, KeyLess)
  }

  /** The report's frame around its two blocks of rows. */
  function Layout(tagRows: seq<string>, keyRows: seq<string>): (out: seq<string>)
    ensures var n := |tagRows|;
      && |out| == n + |keyRows| + 5
      && out[0] == TagTitle && out[1] == TagHeader
      && out[2..n + 2] == tagRows
      && out[n + 2] == ""
      && out[n + 3] == PortProtoTitle && out[n + 4] == PortProtoHeader
      && out[n + 5..] == keyRows
  {
    [TagTitle, TagHeader] + tagRows + [""] + [PortProtoTitle, PortProtoHeader] + keyRows
  }

  /** The printed report, one string per line: the tag section, a blank
      line, the port/protocol section; the i-th row of each section shows
      the i-th smallest key of its counter and that key's count. */
  function Render(tagCounts: map<string, nat>, portProtoCounts: map<PortProto, nat>): (out: seq<string>)
    ensures var n, m := |tagCounts|, |portProtoCounts|;
      && |out| == n + m + 5
      && out[0] == TagTitle && out[1] == TagHeader
      && out[n + 2] == ""
      && out[n + 3] == PortProtoTitle && out[n + 4] == PortProtoHeader
    ensures out[2..|tagCounts| + 2] == TagRows(tagCounts, SortedTags(tagCounts))
    ensures out[|tagCounts| + 5..] == PortProtoRows(portProtoCounts, SortedKeys(portProtoCounts))
  {
    var tags, keys := SortedTags(tagCounts), SortedKeys(portProtoCounts);
    var tagRows, keyRows := TagRows(tagCounts, tags), PortProtoRows(portProtoCounts, keys);
    var out := Layout(tagRows, keyRows);
    out
  }

  /** A block of tag rows placed at `lo` in `out`. */
  lemma TagBlock(out: seq<string>, counts: map<string, nat>, tags: seq<string>, lo: nat)
    requires forall t :: t in tags ==> t in counts
    requires lo + |tags| <= |out| && out[lo..lo + |tags|] == TagRows(counts, tags)
    ensures forall i :: 0 <= i < |tags| ==> out[lo + i] == TagRow(tags[i], counts[tags[i]])
  {
    var rows := TagRows(counts, tags);
    forall i | 0 <= i < |tags|
      ensures out[lo + i] == TagRow(tags[i], counts[tags[i]])
    {
      assert rows[i] == out[lo..lo + |tags|][i];
    }
  }

  /** A block of port/protocol rows that ends `out`, from `lo` on. */
  lemma PortProtoBlock(out: seq<string>, counts: map<PortProto, nat>, keys: seq<PortProto>, lo: nat)
    requires forall k :: k in keys ==> k in counts
    requires lo <= |out| && out[lo..] == PortProtoRows(counts, keys)
    ensures forall i :: 0 <= i < |keys| ==> out[lo + i] == PortProtoRow(keys[i], counts[keys[i]])
  {
    var rows := PortProtoRows(counts, keys);
    forall i | 0 <= i < |keys|
      ensures out[lo + i] == PortProtoRow(keys[i], counts[keys[i]])
    {
      assert rows[i] == out[lo..][i];
    }
  }

  /** The i-th row of the tag section shows the i-th smallest tag and its
      count. */
  lemma TagSectionRows(tagCounts: map<string, nat>, portProtoCounts: map<PortProto, nat>)
    ensures var out, tags := Render(tagCounts, portProtoCounts), SortedTags(tagCounts);
      forall i :: 0 <= i < |tags| ==> out[2 + i] == TagRow(tags[i], tagCounts[tags[i]])
  {
    TagBlock(Render(tagCounts, portProtoCounts), tagCounts, SortedTags(tagCounts), 2);
  }

  /** The i-th row of the port/protocol section shows the i-th smallest
      (port, protocol) key and its count. */
  lemma PortProtoSectionRows(tagCounts: map<string, nat>, portProtoCounts: map<PortProto, nat>)
    ensures var out, n, keys := Render(tagCounts, portProtoCounts), |tagCounts|, SortedKeys(portProtoCounts);
      forall i :: 0 <= i < |keys| ==> out[n + 5 + i] == PortProtoRow(keys[i], portProtoCounts[keys[i]])
  {
    PortProtoBlock(Render(tagCounts, portProtoCounts), portProtoCounts, SortedKeys(portProtoCounts), |tagCounts| + 5);
  }
}
