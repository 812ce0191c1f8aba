/**
  The whole analysis: split the log text into lines, parse each line into an
  entry, count entries per type, rank the INFO and ERROR messages, and format
  the report. The file is read elsewhere; the analysis starts from its text.
*/
module Analyzer {
  import opened Wrappers
  import opened Text
  import opened LogLine
  import opened Counting
  import opened Report
  import Seqs

  /** The entries of the given lines, in line order; lines that do not parse contribute nothing. */
  function ParseLines(lines: seq<string>): seq<Entry>
  {
    if lines == [] then [] else ParseLines(lines[..|lines| - 1]) + LineEntries(lines[|lines| - 1])
  }

  /** What one line adds to the entries: its entry, or nothing. */
  function LineEntries(line: string): seq<Entry>
  {
    match ParseLine(line)
    case Some(e) => [e]
    case None => []
  }

  /** The line loop: drop the timestamp, split at the first space, strip the separator and the agent marker, append. */
  method ParseEntries(lines: seq<string>) returns (logEntries: seq<Entry>)
    ensures logEntries == ParseLines(lines)
  {
    logEntries := [];
    for i := 0 to |lines|
      invariant logEntries == ParseLines(lines[..i])
    {
      var line := Drop(lines[i], TimestampWidth);
      var parts := SplitOnce(line, ' ');
      if |parts| > 1 {
        var firstWord := parts[0];
        var restOfString := Drop(parts[1], SeparatorWidth);
        if firstWord == "INFO" && StartsWith(restOfString, AgentPrefix) {
          restOfString := restOfString[|AgentPrefix|..];
        }
        logEntries := logEntries + [Entry(firstWord, restOfString)];
      }
      assert lines[..i + 1][..i] == lines[..i];
    }
    assert lines[..|lines|] == lines;
  }

  lemma ParseLinesSnoc(lines: seq<string>, line: string)
    ensures ParseLines(lines + [line]) == ParseLines(lines) + LineEntries(line)
  {
    Seqs.PrefixOfSnoc(lines, line);
  }

  /** Parsing a concatenation of line lists concatenates the entries: entries keep the order of their lines. */
  lemma {:induction false} ParseLinesAppend(a: seq<string>, b: seq<string>)
    ensures ParseLines(a + b) == ParseLines(a) + ParseLines(b)
  {
    if b == [] {
      assert a + b == a;
    } else {
      var b', l := b[..|b| - 1], b[|b| - 1];
      ParseLinesAppend(a, b');
      Seqs.LastSplit(b);
      Seqs.AppendLastSplit(a, b);
      ParseLinesSnoc(a + b', l);
      ParseLinesSnoc(b', l);
    }
  }

  /** There are at most as many entries as lines, and an entry occurs exactly when some line parses to it. */
  lemma {:induction false} ParseLinesSources(lines: seq<string>)
    ensures |ParseLines(lines)| <= |lines|
    ensures forall e :: e in ParseLines(lines) <==> exists i :: 0 <= i < |lines| && ParseLine(lines[i]) == Some(e)
  {
    if lines != [] {
      var init := lines[..|lines| - 1];
      ParseLinesSources(init);
      assert lines == init + [lines[|lines| - 1]];
      forall e | (exists i :: 0 <= i < |lines| && ParseLine(lines[i]) == Some(e))
        ensures e in ParseLines(lines)
      {
        var i :| 0 <= i < |lines| && ParseLine(lines[i]) == Some(e);
        if i < |init| {
          assert init[i] == lines[i];
        }
      }
    }
  }

  /** Lines of 22 characters or fewer, which includes the empty piece after a final newline, yield no entries. */
  lemma {:induction false} ShortLinesYieldNothing(lines: seq<string>)
    requires forall i :: 0 <= i < |lines| ==> |lines[i]| <= TimestampWidth
    ensures ParseLines(lines) == []
  {
    if lines != [] {
      ShortLinesYieldNothing(lines[..|lines| - 1]);
      ParseLineDefined(lines[|lines| - 1]);
    }
  }

  /** The type of each entry, in order: what Counter(entry['type'] ...) counts. */
  function Types(entries: seq<Entry>): seq<string>
  {
    if entries == [] then [] else Types(entries[..|entries| - 1]) + [entries[|entries| - 1].typ]
  }

  /** The messages of the entries of type t, in order. */
  function MessagesOf(entries: seq<Entry>, t: string): seq<string>
  {
    if entries == [] then []
    else
      MessagesOf(entries[..|entries| - 1], t) +
        (if entries[|entries| - 1].typ == t then [entries[|entries| - 1].msg] else [])
  }

  /**
    The count reported for type t is the number of entries of that type, which is
    the number of messages ranked for it; it is 0 exactly when no entry has that type.
  */
  lemma {:induction false} TypeCountIsMessageCount(entries: seq<Entry>, t: string)
    ensures Count(Types(entries), t) == |MessagesOf(entries, t)|
    ensures Count(Types(entries), t) == 0 <==> forall i :: 0 <= i < |entries| ==> entries[i].typ != t
  {
    if entries != [] {
      var init := entries[..|entries| - 1];
      TypeCountIsMessageCount(init, t);
      TypesAt(entries);
      TypesAt(init);
      var ts := Types(entries);
      assert ts[..|ts| - 1] == Types(init);
      forall i | 0 <= i < |entries| ensures (entries[i].typ == t) == (ts[i] == t) { }
    } else {
    }
  }

  lemma {:induction false} TypesAt(entries: seq<Entry>)
    ensures |Types(entries)| == |entries|
    ensures forall i :: 0 <= i < |entries| ==> Types(entries)[i] == entries[i].typ
  {
    if entries != [] {
      TypesAt(entries[..|entries| - 1]);
    }
  }

  /** The counts of all distinct types add up to the number of entries. */
  lemma TypeCountsTotal(entries: seq<Entry>)
    ensures SumCounts(Types(entries), Distinct(Types(entries))) == |entries|
  {
    SumCountsDistinct(Types(entries));
    TypesAt(entries);
  }

  /** Neither the type nor the message of an entry parsed from a line can hold the line break. */
  lemma {:induction false} EntriesOneLine(lines: seq<string>)
    requires forall i :: 0 <= i < |lines| ==> '\n' !in lines[i]
    ensures forall e :: e in ParseLines(lines) ==> '\n' !in e.typ && '\n' !in e.msg
  {
    if lines != [] {
      EntriesOneLine(lines[..|lines| - 1]);
      var line := lines[|lines| - 1];
      if ParseLine(line).Some? {
        ParseLineFields(line);
        var e := ParseLine(line).value;
        var rest := Drop(line, TimestampWidth);
        assert '\n' !in rest;
        assert e.typ + " " <= rest;
        assert forall k :: 0 <= k < |e.typ| ==> e.typ[k] == rest[k];
        var after := Drop(rest[|e.typ| + 1..], SeparatorWidth);
        assert '\n' !in after;
        assert e.msg == after || AgentPrefix + e.msg == after;
        assert forall k :: 0 <= k < |e.msg| ==> e.msg[k] in after;
      }
    }
  }

  lemma MessagesOfSubset(entries: seq<Entry>, t: string)
    ensures forall m :: m in MessagesOf(entries, t) ==> exists e :: e in entries && e.msg == m && e.typ == t
  {
    if entries != [] {
      MessagesOfSubset(entries[..|entries| - 1], t);
      var last := entries[|entries| - 1];
      forall m | m in MessagesOf(entries, t) ensures exists e :: e in entries && e.msg == m && e.typ == t {
        if m in MessagesOf(entries[..|entries| - 1], t) {
          var e :| e in entries[..|entries| - 1] && e.msg == m && e.typ == t;
          assert e in entries;
        } else {
          assert m == last.msg && last in entries;
        }
      }
    }
  }

  /** A ranked message comes from a parsed line, so it holds no line break when the lines hold none. */
  lemma RankedMessagesOneLine(lines: seq<string>, t: string, n: int)
    requires forall i :: 0 <= i < |lines| ==> '\n' !in lines[i]
    ensures forall k :: 0 <= k < |MostCommon(MessagesOf(ParseLines(lines), t), n)| ==>
      '\n' !in MostCommon(MessagesOf(ParseLines(lines), t), n)[k].0
  {
    var entries := ParseLines(lines);
    EntriesOneLine(lines);
    MessagesOfSubset(entries, t);
    MostCommonCounts(MessagesOf(entries, t), n);
  }

  lemma MessagesOfSnoc(entries: seq<Entry>, e: Entry, t: string)
    ensures MessagesOf(entries + [e], t) == MessagesOf(entries, t) + (if e.typ == t then [e.msg] else [])
  {
    Seqs.PrefixOfSnoc(entries, e);
  }

  /** Collecting the messages of a concatenation concatenates the collected messages. */
  lemma {:induction false} MessagesOfAppend(a: seq<Entry>, b: seq<Entry>, t: string)
    ensures MessagesOf(a + b, t) == MessagesOf(a, t) + MessagesOf(b, t)
  {
    if b == [] {
      assert a + b == a;
    } else {
      var b', e := b[..|b| - 1], b[|b| - 1];
      MessagesOfAppend(a, b', t);
      Seqs.LastSplit(b);
      Seqs.AppendLastSplit(a, b);
      MessagesOfSnoc(a + b', e, t);
      MessagesOfSnoc(b', e, t);
    }
  }

  /**
    Every entry of type t contributes its message, right after the messages of the
    earlier entries of that type: entry order is kept.
  */
  lemma MessagesOfEntry(entries: seq<Entry>, t: string, i: nat)
    requires i < |entries| && entries[i].typ == t
    ensures |MessagesOf(entries[..i], t)| < |MessagesOf(entries, t)|
    ensures MessagesOf(entries, t)[|MessagesOf(entries[..i], t)|] == entries[i].msg
  {
    var before, e, after := entries[..i], entries[i], entries[i + 1..];
    Seqs.SplitAt(entries, i);
    MessagesOfAppend(before + [e], after, t);
    MessagesOfSnoc(before, e, t);
    var ms := MessagesOf(before, t);
    Seqs.PrefixOfSnoc(ms, e.msg);
    Seqs.AppendLeft(ms + [e.msg], MessagesOf(after, t), |ms|);
  }

  /** The report for the given log text and the two requested list lengths. */
  function AnalysisReport(content: string, topResponses: int, topErrors: int): string
  {
    var entries := ParseLines(SplitOn(content, '\n'));
    var types := Types(entries);
    ReportText(Count(types, "INFO"), Count(types, "ERROR"), Count(types, "WARNING"), topResponses,
               MostCommon(MessagesOf(entries, "INFO"), topResponses),
               MostCommon(MessagesOf(entries, "ERROR"), topErrors))
  }

  /** analyze_logs on the text of the log file. */
  method AnalyzeLogs(content: string, topResponses: int := 3, topErrors: int := 2) returns (report: string)
    ensures report == AnalysisReport(content, topResponses, topErrors)
  {
    var lines := SplitOn(content, '\n');
    var logEntries := ParseEntries(lines);
    var logTypes := Types(logEntries);
    var aiResponses := MessagesOf(logEntries, "INFO");
    var topAiResponses := MostCommon(aiResponses, topResponses);
    var errors := MessagesOf(logEntries, "ERROR");
    var topErrorsList := MostCommon(errors, topErrors);
    report := BuildReport(Count(logTypes, "INFO"), Count(logTypes, "ERROR"), Count(logTypes, "WARNING"),
                          topResponses, topAiResponses, topErrorsList);
  }

  /**
    Read back line by line, the report is exactly its summary, ranked and header
    lines, each ended by a line break, whatever the log text holds.
  */
  lemma AnalysisReportLines(content: string, topResponses: int, topErrors: int)
    ensures
      var entries := ParseLines(SplitOn(content, '\n'));
      var types := Types(entries);
      SplitOn(AnalysisReport(content, topResponses, topErrors), '\n') ==
        ReportLines(Count(types, "INFO"), Count(types, "ERROR"), Count(types, "WARNING"), topResponses,
                    MostCommon(MessagesOf(entries, "INFO"), topResponses),
                    MostCommon(MessagesOf(entries, "ERROR"), topErrors)) + [""]
  {
    var lines := SplitOn(content, '\n');
    SplitOnPieces(content, '\n');
    forall i | 0 <= i < |lines| ensures '\n' !in lines[i] {
      assert lines[i] in lines;
    }
    RankedMessagesOneLine(lines, "INFO", topResponses);
    RankedMessagesOneLine(lines, "ERROR", topErrors);
    var entries := ParseLines(lines);
    var types := Types(entries);
    ReportTextLines(Count(types, "INFO"), Count(types, "ERROR"), Count(types, "WARNING"), topResponses,
                    MostCommon(MessagesOf(entries, "INFO"), topResponses),
                    MostCommon(MessagesOf(entries, "ERROR"), topErrors));
  }

  const Stamp: string := "XXXXXXXXXXXXXXXXXXXXXX"
  const InfoHi: string := Stamp + "INFO ] Agent Response: Hi"
  const ErrorTimeout: string := Stamp + "ERROR] Timeout"

  /** The agent-response line keeps only the response. */
  lemma InfoHiEntry()
    ensures ParseLine(InfoHi) == Some(Entry("INFO", "Hi"))
  {
    assert InfoHi == Stamp + "INFO " + "] " + AgentPrefix + "Hi";
    ParseAgentResponse(Stamp, "] ", "Hi");
  }

  /**
    A line with no space between the type token and the bracket: the token takes
    the bracket, and the two skipped characters come out of the message.
  */
  lemma ErrorTimeoutEntry()
    ensures ParseLine(ErrorTimeout) == Some(Entry("ERROR]", "meout"))
  {
    assert ErrorTimeout == Stamp + "ERROR]" + " " + "Ti" + "meout";
    ParseFormattedLine(Stamp, "ERROR]", "Ti", "meout");
  }

  lemma ThreeLines(a: string, b: string, c: string, ea: Entry, eb: Entry, ec: Entry)
    requires ParseLine(a) == Some(ea) && ParseLine(b) == Some(eb) && ParseLine(c) == Some(ec)
    ensures ParseLines([a, b, c]) == [ea, eb, ec]
  {
    Seqs.PrefixesOfThree(a, b, c);
    Seqs.PrefixesOfThree(ea, eb, ec);
    assert ParseLines([a]) == [] + [ea];
    assert ParseLines([a, b]) == [ea] + [eb];
    assert ParseLines([a, b, c]) == [ea, eb] + [ec];
  }

  lemma ThreeEntries(ea: Entry, eb: Entry, ec: Entry, t: string)
    ensures Types([ea, eb, ec]) == [ea.typ, eb.typ, ec.typ]
    ensures MessagesOf([ea, eb, ec], t) ==
      (if ea.typ == t then [ea.msg] else []) + (if eb.typ == t then [eb.msg] else []) +
      (if ec.typ == t then [ec.msg] else [])
  {
    Seqs.PrefixesOfThree(ea, eb, ec);
    Seqs.PrefixesOfThree(ea.typ, eb.typ, ec.typ);
    assert Types([ea]) == [] + [ea.typ];
    assert Types([ea, eb]) == [ea.typ] + [eb.typ];
    assert Types([ea, eb, ec]) == [ea.typ, eb.typ] + [ec.typ];
    assert MessagesOf([ea], t) == [] + (if ea.typ == t then [ea.msg] else []);
  }

  lemma SampleEntries()
    ensures ParseLines([InfoHi, InfoHi, ErrorTimeout]) ==
      [Entry("INFO", "Hi"), Entry("INFO", "Hi"), Entry("ERROR]", "meout")]
  {
    InfoHiEntry();
    ErrorTimeoutEntry();
    ThreeLines(InfoHi, InfoHi, ErrorTimeout, Entry("INFO", "Hi"), Entry("INFO", "Hi"), Entry("ERROR]", "meout"));
  }

  lemma SampleCounts(entries: seq<Entry>)
    requires entries == [Entry("INFO", "Hi"), Entry("INFO", "Hi"), Entry("ERROR]", "meout")]
    ensures Count(Types(entries), "INFO") == 2
    ensures Count(Types(entries), "ERROR") == 0 && Count(Types(entries), "WARNING") == 0
  {
    ThreeEntries(entries[0], entries[1], entries[2], "INFO");
    var types := ["INFO", "INFO", "ERROR]"];
    assert Types(entries) == types;
    CountIsMultiplicity(types, "INFO");
    CountIsMultiplicity(types, "ERROR");
    CountIsMultiplicity(types, "WARNING");
  }

  lemma SampleRankings(entries: seq<Entry>)
    requires entries == [Entry("INFO", "Hi"), Entry("INFO", "Hi"), Entry("ERROR]", "meout")]
    ensures MostCommon(MessagesOf(entries, "INFO"), 3) == [("Hi", 2)]
    ensures MostCommon(MessagesOf(entries, "ERROR"), 2) == []
  {
    ThreeEntries(entries[0], entries[1], entries[2], "INFO");
    ThreeEntries(entries[0], entries[1], entries[2], "ERROR");
    assert MessagesOf(entries, "INFO") == ["Hi", "Hi"];
    assert MessagesOf(entries, "ERROR") == [];
    HiRanking();
  }

  /**
    Two agent responses "Hi" and a line whose type token is "ERROR]", not "ERROR":
    the response is ranked with its count, and no ERROR entry is counted or ranked.
  */
  lemma SampleLog()
    ensures var entries := ParseLines([InfoHi, InfoHi, ErrorTimeout]);
      var types := Types(entries);
      entries == [Entry("INFO", "Hi"), Entry("INFO", "Hi"), Entry("ERROR]", "meout")] &&
      Count(types, "INFO") == 2 && Count(types, "ERROR") == 0 && Count(types, "WARNING") == 0 &&
      MostCommon(MessagesOf(entries, "INFO"), 3) == [("Hi", 2)] &&
      MostCommon(MessagesOf(entries, "ERROR"), 2) == []
  {
    SampleEntries();
    var entries := ParseLines([InfoHi, InfoHi, ErrorTimeout]);
    SampleCounts(entries);
    SampleRankings(entries);
  }

  lemma HiRanking()
    ensures MostCommon(["Hi", "Hi"], 3) == [("Hi", 2)]
  {
    var s := ["Hi", "Hi"];
    assert s[..1] == ["Hi"] && s[..1][..0] == [];
    assert Distinct(s) == ["Hi"];
    CountIsMultiplicity(s, "Hi");
    assert Tally(s) == [("Hi", 2)];
  }
}
