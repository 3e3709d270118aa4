/**
 * The lookup-table loader: CSV rows `destport,protocol,tag` become a map from
 * the normalised (port, protocol) pair to the tag.
 */
module LookupTable {
  import opened Wrappers
  import opened Text

  /** A (port, protocol) pair; the key of the lookup table and of the
      port/protocol counter. */
  datatype PortProto = PortProto(port: string, protocol: string)

  type Table = map<PortProto, string>

  /** Unpacking a row into exactly three names fails for a longer row; the
      error names the row's position. */
  datatype LoadError = TooManyFields(row: nat)

  type Row = seq<string>

  /** The key a row is stored under: port and protocol stripped and
      lower-cased. */
  function RowKey(row: Row): PortProto
    requires |row| >= 2
  {
    PortProto(Lower(Trim(row[0])), Lower(Trim(row[1])))
  }

  /** The tag a row stores: stripped, case kept. */
  function RowTag(row: Row): string
    requires |row| >= 3
  {
    Trim(row[2])
  }

  /** The table after reading `rows` in order, or the error of the first row
      with more than three fields. */
  function LookupTableOf(rows: seq<Row>): (r: Result<Table, LoadError>)
    decreases |rows|
  {
    if rows == [] then Success(map[])
    else
      var last := rows[|rows| - 1];
      match LookupTableOf(rows[..|rows| - 1])
      case Failure(e) => Failure(e)
      case Success(table) =>
        if |last| < 3 then Success(table)
        else if |last| > 3 then Failure(TooManyFields(|rows| - 1))
        else Success(table[RowKey(last) := RowTag(last)])
  }

  /** `load_lookup_table`, over rows already split into fields. */
  method LoadLookupTable(rows: seq<Row>) returns (r: Result<Table, LoadError>)
    ensures r == LookupTableOf(rows)
  {
    var lookup: Table := map[];
    var i := 0;
    while i < |rows|
      invariant 0 <= i <= |rows|
      invariant LookupTableOf(rows[..i]) == Success(lookup)
    {
      var row := rows[i];
      assert rows[..i + 1][..i] == rows[..i];
      if |row| < 3 {
        i := i + 1;
        continue;
      }
      if |row| != 3 {
        FailureSticks(rows, i + 1);
        assert rows[..|rows|] == rows;
        return Failure(TooManyFields(i));
      }
      var key := PortProto(Lower(Trim(row[0])), Lower(Trim(row[1])));
      lookup := lookup[key := Trim(row[2])];
      i := i + 1;
    }
    assert rows[..i] == rows;
    return Success(lookup);
  }

  /** Once a prefix fails, the whole load fails with the same error. */
  lemma {:induction false} FailureSticks(rows: seq<Row>, n: nat)
    requires n <= |rows| && LookupTableOf(rows[..n]).Failure?
    ensures LookupTableOf(rows) == LookupTableOf(rows[..n])
    decreases |rows| - n
  {
    if n < |rows| {
      assert rows[..n + 1][..n] == rows[..n];
      FailureSticks(rows, n + 1);
    } else {
      assert rows[..n] == rows;
    }
  }

  /** The load fails exactly when some row has more than three fields, and
      the error names the first such row. */
  lemma {:induction false} LoadFailsOnLongRow(rows: seq<Row>)
    ensures LookupTableOf(rows).Failure? <==> exists i :: 0 <= i < |rows| && |rows[i]| > 3
    ensures LookupTableOf(rows).Failure? ==>
      var i := LookupTableOf(rows).error.row;
      i < |rows| && |rows[i]| > 3 && forall j :: 0 <= j < i ==> |rows[j]| <= 3
    decreases |rows|
  {
    if rows != [] {
      var init := rows[..|rows| - 1];
      LoadFailsOnLongRow(init);
      assert forall j :: 0 <= j < |init| ==> init[j] == rows[j];
    }
  }

  /** The row with index `i` is the last row with three fields whose key is
      `RowKey(rows[i])`. */
  predicate LastRowFor(rows: seq<Row>, i: nat)
    requires i < |rows| && |rows[i]| == 3
  {
    forall j :: i < j < |rows| && |rows[j]| == 3 ==> RowKey(rows[j]) != RowKey(rows[i])
  }

  /** One step of the fold: a successful load of `rows` is a successful load
      of all rows but the last, then the last row's effect. */
  lemma LoadStep(rows: seq<Row>)
    requires rows != [] && LookupTableOf(rows).Success?
    ensures var init := rows[..|rows| - 1]; var last := rows[|rows| - 1];
      && LookupTableOf(init).Success? && |last| <= 3
      && LookupTableOf(rows).value ==
           if |last| < 3 then LookupTableOf(init).value
           else LookupTableOf(init).value[RowKey(last) := RowTag(last)]
  {
  }

  /** Every key of a loaded table comes from a three-field row. */
  lemma {:induction false} StoredKeyHasRow(rows: seq<Row>, k: PortProto)
    requires LookupTableOf(rows).Success? && k in LookupTableOf(rows).value
    ensures exists i :: 0 <= i < |rows| && |rows[i]| == 3 && RowKey(rows[i]) == k
    decreases |rows|
  {
    var n := |rows| - 1;
    var init := rows[..n];
    LoadStep(rows);
    if k in LookupTableOf(init).value {
      StoredKeyHasRow(init, k);
      var i :| 0 <= i < n && |init[i]| == 3 && RowKey(init[i]) == k;
      assert init[i] == rows[i];
    } else {
      assert |rows[n]| == 3 && RowKey(rows[n]) == k;
    }
  }

  /** Every three-field row's key is stored; rows with fewer fields are
      skipped, so these are the only keys (`StoredKeyHasRow`). */
  lemma {:induction false} RowKeyStored(rows: seq<Row>, i: nat)
    requires LookupTableOf(rows).Success?
    requires i < |rows| && |rows[i]| == 3
    ensures RowKey(rows[i]) in LookupTableOf(rows).value
    decreases |rows|
  {
    var n := |rows| - 1;
    var init := rows[..n];
    LoadStep(rows);
    if i < n {
      assert init[i] == rows[i];
      RowKeyStored(init, i);
    }
  }

  /** For keys that occur more than once, the last row wins: the key maps to
      the stripped tag of the last three-field row that has it. */
  lemma {:induction false} LastRowWins(rows: seq<Row>, i: nat)
    requires LookupTableOf(rows).Success?
    requires i < |rows| && |rows[i]| == 3 && LastRowFor(rows, i)
    ensures RowKey(rows[i]) in LookupTableOf(rows).value
    ensures LookupTableOf(rows).value[RowKey(rows[i])] == RowTag(rows[i])
    decreases |rows|
  {
    var n := |rows| - 1;
    if i < n {
      var init := rows[..n];
      assert forall j :: 0 <= j < n ==> init[j] == rows[j];
      assert LastRowFor(init, i);
      LastRowWins(init, i);
    }
  }

  /** Every stored key is in normal form and every stored tag is stripped. */
  lemma {:induction false} StoredEntriesNormalised(rows: seq<Row>, k: PortProto)
    requires LookupTableOf(rows).Success? && k in LookupTableOf(rows).value
    ensures Lower(Trim(k.port)) == k.port && Lower(Trim(k.protocol)) == k.protocol
    ensures var tag := LookupTableOf(rows).value[k]; Trim(tag) == tag
    decreases |rows|
  {
    var n := |rows| - 1;
    var init := rows[..n];
    var last := rows[n];
    if |last| == 3 && RowKey(last) == k {
      NormalFormStable(last[0]);
      NormalFormStable(last[1]);
      TrimIdempotent(last[2]);
    } else {
      StoredEntriesNormalised(init, k);
    }
  }

  /** Stripping and lower-casing a second time changes nothing. */
  lemma NormalFormStable(s: string)
    ensures Lower(Trim(Lower(Trim(s)))) == Lower(Trim(s))
  {
    var t := Trim(s);
    var l := Lower(t);
    if t != [] {
      TrimUnpadded(l);
    }
    LowerOfLower(l);
  }
}
