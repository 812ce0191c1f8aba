# Log analyzer model

`analyze_logs` reads a log file and builds a short text report from it.

- The file's text is split into lines.
- Each line is cut at fixed offsets:
  - the first 22 characters are a timestamp and are dropped;
  - the type token runs up to the first space;
  - the next two characters are a separator and are dropped;
  - the rest is the message.
- An INFO message loses a leading `Agent Response: ` marker.
- A line with no space after the timestamp yields nothing.
- The report has four parts:
  - the number of INFO, ERROR and WARNING entries;
  - the most frequent INFO messages, under a header echoing how many were asked for;
  - the most frequent ERROR messages;
  - each ranked line `i. message (count times)`, numbered from 1.
- Ranking follows `Counter.most_common`:
  - by descending count;
  - equal counts keep the order in which the messages first appeared;
  - at most the requested number of messages, and none when that number is zero or negative.

The Dafny modules follow the stages of the function.

- `Wrappers`: `Option`.
- `Seqs`: generic facts about slicing and concatenation.
- `Text` gives Python's string operations the analyzer uses:
  - `s[n:]`, `startswith`, `split(c, 1)` and `split(c)`;
  - the decimal rendering of integers in f-strings.
- `LogLine`: the parse of one line into an `Entry(typ, msg)`.
- `Counting`: `Counter` lookups, its keys in insertion order, and `most_common(n)`.
- `Report` has two parts:
  - the report as a list of lines (`ReportLines`) and as text (`ReportText`);
  - the imperative builder `BuildReport`, which appends to a string as the source does.
- `Analyzer`:
  - the line loop `ParseEntries`, proved against the function `ParseLines`;
  - the whole analysis `AnalyzeLogs`, proved against the function `AnalysisReport`.

The analysis starts from the file's text: `content` is a parameter, and `read_file` is not modelled.

The requested numbers `top_responses` and `top_errors` are Python integers, so they are `int` here. A negative number ranks nothing, and the header then prints it with its minus sign.

### A line that looks like an ERROR but is not one

A line such as the following looks like an ERROR entry with the message `Timeout` (22 `X`s stand for the timestamp):

```
XXXXXXXXXXXXXXXXXXXXXXERROR] Timeout
```

The code does not read it that way, and the model follows the code:

- the first space after the timestamp comes after `ERROR]`, so the type token is `ERROR]`;
- the two separator characters dropped are `Ti`, so the message is `meout`;
- the ERROR count is therefore 0, and no error is ranked.

`Analyzer.SampleLog` proves this for two agent-response lines `Hi` followed by this line. It also proves the two INFO lines give `("Hi", 2)` as the top response.

## Model

| member | source | states |
|---|---|---|
| Text.Drop | main/main.py:22-27 | `s[n:]`: the length is the excess over n (0 when s is no longer than n), and character i is character n + i of s. |
| Text.StartsWith | main/main.py:29 | No contract of its own. It is the prefix test `prefix <= s`, used by `LogLine.StripAgentPrefix`. |
| Text.SplitOn | main/main.py:18 | `split('\n')` gives at least one piece. `JoinSplitOn`, `SplitOnPieces` and `SplitOnJoin` state the rest. |
| Text.FindChar | main/main.py:24 | The result is None exactly when the character is absent. Otherwise it is a position holding the character, with no occurrence before it. |
| Text.SplitOnce | main/main.py:24-25 | `split(' ', 1)` gives one part (the whole text) exactly when there is no space. Otherwise it gives two parts: text = first + " " + second, and the first holds no space. |
| Text.SplitOnPieces | main/main.py:18 | No piece of `split('\n')` holds a line break. There is one piece more than there are line breaks. |
| Text.JoinSplitOn | main/main.py:18 | Joining the pieces of `split('\n')` with line breaks gives the text back. |
| Text.SplitOnJoin | main/main.py:18 | Splitting a join of line-break-free pieces gives those pieces back. |
| Text.NatToString | main/main.py:52-58 | `str(n)`: at least one character, all decimal digits, and no leading zero except for 0 itself. `NatToStringValue` reads it back. |
| Text.IntToString | main/main.py:56 | `str(i)`: at least one character, starting with a minus sign exactly when i is negative. |
| Text.IntToStringValue | main/main.py:56 | After the sign, the rendering is decimal digits that read back as the magnitude of i. |
| Text.NatToStringValue | main/main.py:52-54 | The rendered count reads back as the same number. |
| Text.IntToStringOneLine | main/main.py:56 | The rendered requested number never contains a line break. |
| LogLine.StripAgentPrefix | main/main.py:29-30 | On an INFO message starting with `Agent Response: `, gives the text after the marker. Any other message is unchanged. |
| LogLine.ParseLine | main/main.py:22-35 | No contract of its own. It is specified by `ParseLineDefined`, `ParseLineFields`, `ParseFormattedLine` and `ParseAgentResponse`. |
| LogLine.ParseLineDefined | main/main.py:22-25 | A line yields an entry exactly when the text after its first 22 characters contains a space. Lines of 22 characters or fewer never yield one. |
| LogLine.ParseLineFields | main/main.py:22-35 | The parsed type holds no space, and the text after the timestamp starts with type + " ". The message is what follows that space minus 2 characters, with the INFO marker removed. It is empty when fewer characters remain. |
| LogLine.ParseFormattedLine | main/main.py:22-35 | A line built as timestamp (22) + type + " " + separator (2) + message parses back to that type and message (marker-stripped for INFO). |
| LogLine.ParseAgentResponse | main/main.py:29-30 | An INFO agent-response line yields the response text alone. |
| Analyzer.ParseLines | main/main.py:20-37 | No contract of its own. It is what the loop `ParseEntries` computes, and `ParseLinesAppend` and `ParseLinesSources` state its properties. |
| Analyzer.ParseEntries | main/main.py:18-37 | The line loop produces exactly `ParseLines(lines)`: each line's entry, in line order. |
| Analyzer.ParseLinesAppend | main/main.py:20-37 | Parsing concatenated line lists concatenates their entries, so entries keep line order. |
| Analyzer.ParseLinesSources | main/main.py:20-37 | There are no more entries than lines. An entry is present exactly when some line parses to it. |
| Analyzer.ShortLinesYieldNothing | main/main.py:22-25 | Lines of at most 22 characters yield no entries. |
| Analyzer.EntriesOneLine | main/main.py:18-35 | No entry parsed from the lines of `split('\n')` has a line break in its type or message. |
| Analyzer.TypeCountIsMessageCount | main/main.py:40-47 | The count for a type equals the number of messages collected for it. It is 0 exactly when no entry has that type. |
| Analyzer.Types | main/main.py:40 | No contract of its own. `TypesAt` gives its length and states that position i holds the type of entry i. |
| Analyzer.MessagesOf | main/main.py:43-47 | No contract of its own. It is specified by `TypeCountIsMessageCount`, `MessagesOfSubset`, `MessagesOfAppend` and `MessagesOfEntry`. |
| Analyzer.MessagesOfSubset | main/main.py:43-47 | Every collected message is the message of an entry of that type. |
| Analyzer.MessagesOfAppend | main/main.py:43-47 | Collecting from concatenated entry lists concatenates the collected messages. |
| Analyzer.MessagesOfEntry | main/main.py:43-47 | Every entry of type t contributes its message, right after the messages of the earlier entries of type t. |
| Analyzer.TypeCountsTotal | main/main.py:40 | The counts of all distinct types add up to the number of entries. |
| Counting.Count | main/main.py:40 | A count is at most the length, and it is 0 exactly when the key is absent (`Counter[x]` of a missing key). |
| Counting.CountIsMultiplicity | main/main.py:40 | A count equals the multiplicity in the multiset of the counted values. |
| Counting.SumCountsDistinct | main/main.py:40 | The counts of the distinct keys add up to the number of values counted. |
| Counting.DistinctInFirstAppearanceOrder | main/main.py:44 | Counter keys are listed with strictly increasing first-appearance positions. |
| Counting.MostCommonLength | main/main.py:44-48 | `most_common(n)` lists min(n, number of distinct messages) pairs, and none when n <= 0. |
| Counting.MostCommonCounts | main/main.py:44-48 | Each listed message occurs in the input, listed with its true number of occurrences. No message is listed twice. |
| Counting.MostCommonOrder | main/main.py:44-48 | Counts never increase down the list. Equal counts appear in order of first appearance. |
| Counting.MostCommonLeftOut | main/main.py:44-48 | A message that occurs but is not listed implies n < number of distinct messages. When n > 0, the last listed message ranks above it: it occurs more often, or as often and appeared first (the stable selection at the cut). |
| Counting.TieAtCut | main/main.py:44-48 | Of two different messages seen once each, `most_common(1)` keeps the one that appeared first. |
| Counting.MostCommon | main/main.py:44-48 | No contract of its own. It is specified by `MostCommonLength`, `MostCommonCounts`, `MostCommonOrder` and `MostCommonLeftOut`. |
| Counting.Distinct | main/main.py:40-44 | The keys of `Counter`: every key occurs in the input, every input value is a key, and no key is repeated. `DistinctInFirstAppearanceOrder` fixes their order. |
| Counting.Tally | main/main.py:44 | No contract of its own. It pairs each key of `Distinct` with its `Count`, the `items()` that `most_common` ranks; `RankingOfTally` states what sorting them gives. |
| Report.RankedLine | main/main.py:58-62 | No contract of its own. It is the line `{i}. {message} ({count} times)`; `RankedStep` proves it equals the loop body's append. |
| Report.ReportLines | main/main.py:51-62 | No contract of its own. It is specified by `ReportLayout`. |
| Report.ReportText | main/main.py:51-64 | No contract of its own. It is built by `BuildReport` and split back into `ReportLines` by `ReportTextLines`. |
| Report.RankedLinesAt | main/main.py:57-62 | One ranked line per pair: line k is `{k+1}. {message} ({count} times)`. |
| Report.SummaryText | main/main.py:51-56 | The summary block's text equals the source's five appends. |
| Report.ReportLayout | main/main.py:51-62 | The report has 8 + responses + errors lines: six summary lines, the last echoing the requested number. Then one numbered line per response, a blank line, `Most Common Errors:` and one numbered line per error. |
| Report.ReportTextLines | main/main.py:51-62 | For line-break-free messages, splitting the report text on line breaks gives its lines followed by one empty piece. |
| Report.BuildReport | main/main.py:51-64 | The appending code, with its two numbering loops, builds exactly `ReportText`. |
| Analyzer.AnalyzeLogs | main/main.py:3-64 | The whole analysis equals the function `AnalysisReport` of the text and the two numbers, so the report depends on nothing else. The numbers default to 3 and 2, as in the source. |
| Analyzer.AnalysisReport | main/main.py:16-64 | No contract of its own. It is the function `AnalyzeLogs` is proved to compute; `AnalysisReportLines` states its line layout. |
| Analyzer.AnalysisReportLines | main/main.py:18-64 | For any log text, the report read back line by line is exactly the layout of `ReportLines`, for the counted types and ranked messages. |
| Analyzer.InfoHiEntry | main/main.py:22-30 | The example agent-response line parses to `INFO` / `Hi`. |
| Analyzer.ErrorTimeoutEntry | main/main.py:22-27 | The example line `…ERROR] Timeout` parses to type `ERROR]` with message `meout`. |
| Analyzer.SampleLog | main/main.py:18-48 | On the example's three lines: counts INFO 2, ERROR 0, WARNING 0; the top responses are `[("Hi", 2)]`; no error is ranked. |

## Left out

- `read_file` (main/main.py:66-68) and opening the file: file I/O is outside the model. The analysis takes the file's text as a parameter.
- File errors: the model has no file errors, since reading is left out.
- Newline translation: `open(file_path, 'r')` (main/main.py:67) turns both `\r\n` and a lone `\r` into `\n`, so the text `analyze_logs` sees never holds a `\r`. The model starts from that translated text, so a `\r` in its input stands for nothing read from a file.
- The `__main__` block (main/main.py:70-72): it reads `sample.log` and prints the report to standard output. Neither is modelled.
- The internals of `Counter` and `heapq`: `most_common(n)` is modelled by its documented result, a stable sort by descending count cut to n entries.
- Text encoding: strings are sequences of Dafny characters. Text is not decoded from the file's encoding.
