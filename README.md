# Flow-log tagging engine, modelled in Dafny

`flow_parser.py` reads two inputs:

- A lookup file whose CSV rows `destport,protocol,tag` map a (destination port, protocol) pair to a tag.
- A flow log of version-2 records, one per line, with whitespace-separated fields.

It then prints two tables. The first counts the accepted records per tag. The second counts them per (port, protocol) combination.

This project models the four parts of that program:

- **The loader.** `load_lookup_table` is module `LookupTable`.
  - The method `LoadLookupTable` is a loop that updates a `map`, proved equal to the fold `LookupTableOf`.
- **The record parser.** `parse_flow_log_line` is module `RecordParser`. It relies on:
  - module `Text` for `strip`, `split`, `lower` and Python's `str` order;
  - module `Numbers` for `int()` and `str()`;
  - module `LookupPolicy` for `PROTO_MAP` and the `"Untagged"` sentinel.
- **The counting loop of `main`.** This is the class `Aggregation.Aggregator`.
  - It holds the two counters as `map<_, nat>` fields.
  - Its `ProcessLine` method handles one line. Its `Run` method loops over the log.
  - Its invariant ties each counter to the multiset of keys it has counted (`Tally.Counts`).
  - The functions `PortProtoCountsOf` and `TagCountsOf` give the counters after a whole log. Every counting property is proved about them.
- **The printed report.** Module `Report` renders the two counters as a sequence of lines. Module `FlowReport` joins the three stages into `RunFlowReport`.

Three behaviours of `flow_parser.py` worth knowing:

- **The port/protocol counter key.** It is the stripped port as written, paired with the stripped, lower-cased protocol. The port is lower-cased only for the table lookup, not for the counter (flow_parser.py:95-103).
  - So ports `"ABC"` and `"abc"` are counted separately but share a tag.
- **Long lookup rows.** A lookup row with more than three fields makes the load fail: unpacking it into three names raises. The model returns `Failure(TooManyFields(i))` for the first such row `i`, and no report is produced.
  - Rows with fewer than three fields are skipped.
- **Section titles.** Each section starts with a title line, `Tag Counts:` or `Port/Protocol Combination Counts:`, before its header line.

Inputs are taken already read:

- the lookup file as a sequence of rows, each a sequence of fields;
- the flow log as a sequence of lines;
- the output as the sequence of printed lines, where `print()` is the empty line.

## Model

| member | source | states |
|---|---|---|
| Text.Trim | flow_parser.py:41 | `strip()`: the result is empty exactly when the text is all whitespace. Otherwise it neither starts nor ends with whitespace. Text without whitespace is returned unchanged, which is why the `.strip()` of a parsed field (flow_parser.py:95-96) is a no-op. |
| Text.TrimMiddle | flow_parser.py:41 | `strip()` returns a slice of its input: only whitespace is cut, and only from the two ends. |
| Text.TrimIdempotent | flow_parser.py:36 | Stripping an already stripped string changes nothing. |
| Text.SplitWords | flow_parser.py:41 | `split()` yields non-empty words that contain no whitespace. |
| Text.SplitOfSpace | flow_parser.py:41 | Text made only of whitespace, including the empty text, splits into no words. |
| Text.SplitAfterGap | flow_parser.py:41 | Leading whitespace does not change the words. |
| Text.SplitWord | flow_parser.py:41 | A non-empty text without whitespace is a single word. |
| Text.SplitGap | flow_parser.py:41 | Any non-empty run of whitespace separates words: splitting `a + gap + b` gives the words of `a` followed by the words of `b`. |
| Text.StripBeforeSplit | flow_parser.py:41 | `s.strip().split()` gives the same words as `s.split()`. |
| Text.SplitOfSuffix | flow_parser.py:41 | Trailing whitespace does not change the words. |
| Text.SplitIgnoresLineEnd | flow_parser.py:85 | The `"\n"` that `for line in f` leaves on each line does not change its words. |
| Text.SplitJoin | flow_parser.py:41 | `split()` of words joined by single spaces gives back exactly those words. |
| Text.TrimJoin | flow_parser.py:41 | Words joined by single spaces are already stripped. |
| Text.LowerSpec | flow_parser.py:96 | `lower()` keeps the length, maps each upper-case letter to its lower-case partner, keeps every other character, and leaves no upper-case letter. |
| Text.LowerOfLower | flow_parser.py:103 | Lower-casing text that has no upper-case letter changes nothing. So the second `.lower()` of the protocol is a no-op. |
| Text.LessIrreflexive | flow_parser.py:117 | Python's string order: no string is below itself. |
| Text.LessTransitive | flow_parser.py:117 | Python's string order is transitive. |
| Text.LessTotal | flow_parser.py:117 | Any two different strings are ordered one way or the other. |
| Numbers.ShowNat | flow_parser.py:62 | `str(n)` for `n >= 0` is a non-empty digit string whose value is `n`, with no leading zero unless `n == 0`. |
| Numbers.Show | flow_parser.py:62 | `str(n)` is non-empty and has no whitespace. |
| Numbers.ParseInt | flow_parser.py:47 | `int()` of an empty or all-whitespace string raises. |
| Numbers.ShowRoundTrip | flow_parser.py:61-62 | `int(str(n)) == n` for every integer `n`, without the digit limit (see below). |
| Numbers.ParseDigits | flow_parser.py:47 | `int()` of a plain digit string is its decimal value. |
| Numbers.LeadingZeroIgnored | flow_parser.py:61 | `int()` ignores a leading `0`. |
| Numbers.PlusSignIgnored | flow_parser.py:61 | `int()` ignores a leading `+`. |
| Numbers.NotAnInteger | flow_parser.py:63-64 | A field starting with a character that is not a sign or a digit raises, so `int()` gives `None`. |
| LookupTable.LoadLookupTable | flow_parser.py:26-38 | The loop over the rows returns exactly the fold `LookupTableOf`. Either the table, or the error of the first row with more than three fields. |
| LookupTable.FailureSticks | flow_parser.py:34 | Once a row fails to unpack, the rows after it cannot change the outcome. |
| LookupTable.LoadFailsOnLongRow | flow_parser.py:34 | The load fails if and only if some row has more than three fields. The error names the first such row. |
| LookupTable.LoadStep | flow_parser.py:30-37 | A successful load is the load of all rows but the last, followed by the last row's effect: skipped if it is short, otherwise stored under its key. |
| LookupTable.StoredKeyHasRow | flow_parser.py:32-36 | Every stored key is the key of some row with exactly three fields. Shorter rows contribute nothing. |
| LookupTable.RowKeyStored | flow_parser.py:36-37 | The key of every three-field row is stored. |
| LookupTable.LastRowWins | flow_parser.py:37 | When several rows share a key, the stored tag is the stripped tag of the last of them. |
| LookupTable.StoredEntriesNormalised | flow_parser.py:36-37 | Every stored key is stripped and lower-cased. Every stored tag is stripped, with its case kept. |
| LookupTable.NormalFormStable | flow_parser.py:36 | Stripping and lower-casing a second time changes nothing. |
| RecordParser.Fields | flow_parser.py:41 | `line.strip().split()` is exactly `line.split()`: non-empty words without whitespace. |
| RecordParser.CanonicalProtocol | flow_parser.py:59-64 | The translated protocol of a non-empty field without whitespace is non-empty and has no whitespace. |
| RecordParser.ParseFlowLogLine | flow_parser.py:40-69 | An accepted record's port and protocol are both non-empty and contain no whitespace. |
| RecordParser.ParseSplitFields | flow_parser.py:41-69 | For any line, with its words as `split()` finds them, each of these cases decides the result: fewer than 14 words is rejected; a version word that is not an integer is rejected; a version other than 2 is rejected with that version. Otherwise the record is word 6 verbatim and word 7 translated. |
| RecordParser.ProtocolTranslation | flow_parser.py:59-64 | 6, 17 and 1, in any spelling `int()` accepts, become `tcp`, `udp` and `icmp`. Any other integer becomes `str` of its value, which reads back as the same value. A field that is not an integer is kept verbatim. |
| RecordParser.CanonicalIdempotent | flow_parser.py:59-64 | Translating an already translated protocol changes nothing. |
| RecordParser.SixIsTcp | flow_parser.py:16-20 | Protocol field `6` is `tcp`. |
| RecordParser.LeadingZeroProtocol | flow_parser.py:61-62 | Protocol field `06` is `tcp`. |
| RecordParser.PlusSignProtocol | flow_parser.py:61-62 | Protocol field `+6` is `tcp`. |
| RecordParser.UnknownNumberProtocol | flow_parser.py:61-62 | Protocol field `047` is unknown and is printed as `47`. |
| RecordParser.NameProtocol | flow_parser.py:63-64 | Protocol field `TCP` is not an integer and passes through with its case. |
| Tally.Increment | flow_parser.py:100 | `counter[k] += 1` on a `defaultdict(int)`: `k` gains one, it is present afterwards, and every other entry is unchanged. |
| Tally.CountsAdd | flow_parser.py:100 | Counting one more occurrence of `k` is incrementing `k`. |
| Tally.CountsSnoc | flow_parser.py:110 | Appending `k` to a log and then counting is the same as counting and then incrementing `k`. |
| Tally.TotalIncrement | flow_parser.py:110 | An increment raises the sum of all counts by exactly one. |
| Tally.TotalCounts | flow_parser.py:99-110 | The counts of a multiset sum to its size. |
| Tally.FlatMapPermutation | flow_parser.py:85 | Reordering the lines reorders what they contribute, but not the multiset of contributions. |
| Aggregation.RecordContribution | flow_parser.py:95-110 | An accepted line contributes exactly the key and tag the loop body computes. |
| Aggregation.ResolveTag | flow_parser.py:103-107 | The tag is the table's tag for the lower-cased key when the table has that key, and `Untagged` when it does not. |
| Aggregation.SkippedContribution | flow_parser.py:86-92 | A blank or rejected line contributes nothing. |
| Aggregation.CountersStep | flow_parser.py:86-110 | One more line leaves both counters unchanged if it is blank or rejected. Otherwise it increments exactly its key and exactly its tag. |
| Aggregation.ListLengths | flow_parser.py:99-110 | Accepted lines, counted keys and counted tags are equally many. |
| Aggregation.CountersBalance | flow_parser.py:99-110 | Each counter's total equals the number of accepted lines. |
| Aggregation.TagsFollowKeys | flow_parser.py:99-110 | Entry by entry, the counted tags are the resolved tags of the counted keys. |
| Aggregation.CountedKeys | flow_parser.py:99-100 | A key is in the port/protocol counter if and only if some line was accepted with that key. |
| Aggregation.OneLineCounts | flow_parser.py:99-110 | A log of one accepted line counts its key once and its tag once, and nothing else. |
| Aggregation.LineOrderIrrelevant | flow_parser.py:84-110 | Both counters are independent of the order of the lines. |
| Aggregation.AcceptedLineKey | flow_parser.py:95-107 | An accepted record counts under its port as written and its lower-cased protocol. Its tag is looked up with both parts lower-cased, with `Untagged` when the table has no entry. |
| Aggregation.UntaggedIffUnmatched | flow_parser.py:103-107 | Unless a lookup row is itself tagged `Untagged`, a key counts as `Untagged` if and only if its lower-cased form is not in the table. |
| Aggregation.Aggregator.constructor | flow_parser.py:80-81 | Both counters start empty. |
| Aggregation.Aggregator.ProcessLine | flow_parser.py:86-110 | One loop iteration keeps the counter invariant. A skipped line changes neither counter. An accepted line increments its key and its tag. |
| Aggregation.Aggregator.Count | flow_parser.py:99-110 | Counting one accepted flow increments both counters and keeps the invariant. |
| Aggregation.Aggregator.Run | flow_parser.py:84-110 | After the loop, each counter counts exactly the keys (or tags) of the accepted lines. |
| Aggregation.CountFlows | flow_parser.py:79-110 | The counters after a pass over the log are `TagCountsOf` and `PortProtoCountsOf`. Each sums to the number of accepted lines. |
| Report.StringOrder | flow_parser.py:117 | The string order is a strict total order. |
| Report.KeyOrder | flow_parser.py:124 | The tuple order, by port then protocol, is a strict total order. |
| Report.MinimumExists | flow_parser.py:117 | A non-empty set of keys has a least element. |
| Report.SortedElements | flow_parser.py:117 | `sorted()`: the elements of a set, once each, in strictly ascending order. |
| Report.SortedUnique | flow_parser.py:117 | Two strictly sorted sequences with the same elements are equal. So the sorted order is unique. |
| Report.TagRows | flow_parser.py:117-118 | Row `i` is `tag,count` for the `i`-th tag. |
| Report.PortProtoRows | flow_parser.py:124-125 | Row `i` is `port,protocol,count` for the `i`-th key. |
| Report.SortedTags | flow_parser.py:117 | Each counted tag appears once, in ascending string order. |
| Report.SortedKeys | flow_parser.py:124 | Each counted key appears once, in ascending (port, protocol) order. |
| Report.Layout | flow_parser.py:115-125 | The title and header of the tag section, its rows, a blank line, then the title and header of the port/protocol section and its rows. |
| Report.Render | flow_parser.py:115-125 | The report has `|tags| + |keys| + 5` lines, with the fixed lines in their places. The tag block holds the sorted tag rows and the final block holds the sorted port/protocol rows. |
| Report.TagSectionRows | flow_parser.py:117-118 | Line `2 + i` of the report shows the `i`-th smallest tag and its count. |
| Report.PortProtoSectionRows | flow_parser.py:124-125 | Line `n + 5 + i` of the report shows the `i`-th smallest key and its count. |
| FlowReport.ReportOf | flow_parser.py:75-125 | The outcome of `main`: a failure names a lookup row with more than three fields. A printed report has at least five lines and starts with the tag section's title and header. |
| FlowReport.RunFlowReport | flow_parser.py:75-125 | `main`: load, count, render. The result is `ReportOf` of the two inputs. |
| FlowReport.ReportFailsOnLongRow | flow_parser.py:34 | No report is printed if and only if some lookup row has more than three fields. |
| FlowReport.ReportIgnoresLineOrder | flow_parser.py:84-125 | Shuffling the flow log's lines leaves the report text unchanged. |
| FlowReport.LineCounted | flow_parser.py:40-107 | Any line whose words are at least 14, with version 2 first, counts under word 6 and the lower-cased translation of word 7, and under that key's tag. This holds whatever whitespace separates, precedes or follows the words. |
| FlowReport.SampleTable | flow_parser.py:26-38 | The lookup row `" 80","TCP "," web "` is stored as `("80","tcp") -> "web"`. |
| FlowReport.Port80TcpParsed | flow_parser.py:40-69 | Any line of exactly 14 words with version `2`, port `80` and protocol `6`, however the words are spaced, parses to port `80` and protocol `tcp`. |
| FlowReport.Port80TcpLine | flow_parser.py:95-107 | That record counts under `("80","tcp")` and, with the sample table, under tag `web`. |
| FlowReport.WebReport | flow_parser.py:115-125 | The complete seven-line report for one `web` hit on `80,tcp`. |
| FlowReport.Port80TcpReport | flow_parser.py:75-125 | End to end: the sample lookup file and that one record give exactly the seven-line report. |
| FlowReport.Port9999GreParsed | flow_parser.py:59-64 | Any line of exactly 14 words with version `2`, port `9999` and protocol `47`, however the words are spaced, parses to port `9999` and protocol `47`. |
| FlowReport.Port9999GreLine | flow_parser.py:103-107 | That record counts under `("9999","47")` and, with the sample table, under `Untagged`. |

## Left out

- File opening and line reading (flow_parser.py:28, 84-85) and `print`: the inputs are sequences of lines and rows, and the output is the sequence of printed lines.
- The CSV tokenisation of `csv.reader`, with its quoting and escapes (flow_parser.py:29): rows are taken already split into fields.
- An unreadable file: the `OSError` of `open` is not modelled.
- The `__main__` block and its fixed file names: `RunFlowReport` takes the contents as parameters.
- Line-at-a-time streaming and its memory bound: the flow log is a sequence, and only what the counters hold after the pass is modelled.
- Unicode beyond ASCII. Whitespace is the ASCII set that `str.isspace` accepts (including `\x1c`-`\x1f`). `lower()` changes only `A`-`Z`. `int()` accepts an optional sign followed by ASCII digits: digit separators `_` and non-ASCII digits are not accepted.
- Numbers.ParseInt: weaker than Python's `int()`, which also accepts `_` between digits and non-ASCII decimal digits. These spellings are treated as not integers.
- Numbers.ParseInt: ignores CPython's limit on the number of digits (`sys.int_info.default_max_str_digits`, 4300). Above that limit `int()` raises `ValueError`. So the model accepts a version field of more than 4300 digits, such as 4300 zeros followed by `2`, which the program skips. It also translates a protocol field of more than 4300 digits, which the program keeps verbatim.
- Numbers.Show: ignores the same limit for `str()`. For an integer of more than 4300 digits, `str()` raises.
- Numbers.ShowRoundTrip: holds in the model for every integer. In CPython it holds only within the digit limit.
- RecordParser.CanonicalProtocol: the protocol field is translated whatever its digit count, so above the digit limit the model and the program differ (see `Numbers.ParseInt`).
- The unused generators `lookup_file_generator.py` and `flow_log_file_generator.py` are not part of this model.
