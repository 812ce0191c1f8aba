/**
  One log line becomes at most one entry. The line is cut at fixed offsets:
  a 22-character timestamp field, then a type token up to the first space,
  then a 2-character separator, then the message. An INFO message loses a
  leading "Agent Response: " marker.
*/
module LogLine {
  import opened Wrappers
  import opened Text

  const TimestampWidth: nat := 22
  const SeparatorWidth: nat := 2
  const AgentPrefix: string := "Agent Response: "

  datatype Entry = Entry(typ: string, msg: string)

  /** The message kept for an entry of type typ whose text after the separator is m. */
  function StripAgentPrefix(typ: string, m: string): (msg: string)
    ensures typ == "INFO" && StartsWith(m, AgentPrefix) ==> AgentPrefix + msg == m
    ensures !(typ == "INFO" && StartsWith(m, AgentPrefix)) ==> msg == m
  {
    if typ == "INFO" && StartsWith(m, AgentPrefix) then m[|AgentPrefix|..] else m
  }

  /** The entry a line yields, or None when the text after the timestamp holds no space. */
  function ParseLine(line: string): Option<Entry>
  {
    var rest := Drop(line, TimestampWidth);
    var parts := SplitOnce(rest, ' ');
    if |parts| > 1 then
      var firstWord := parts[0];
      Some(Entry(firstWord, StripAgentPrefix(firstWord, Drop(parts[1], SeparatorWidth))))
    else
      None
  }

  /** A line yields an entry exactly when the text after its first 22 characters contains a space. */
  lemma ParseLineDefined(line: string)
    ensures ParseLine(line).Some? <==> ' ' in Drop(line, TimestampWidth)
    ensures |line| <= TimestampWidth ==> ParseLine(line) == None
  {
  }

  /**
    The fields of a parsed line: the type is the text before the first space after the
    timestamp (so it holds no space), and the message is what follows that space minus
    its first two characters (empty if fewer), without the agent marker on INFO lines.
  */
  lemma ParseLineFields(line: string)
    requires ParseLine(line).Some?
    ensures var e := ParseLine(line).value; var rest := Drop(line, TimestampWidth);
      ' ' !in e.typ &&
      StartsWith(rest, e.typ + " ") &&
      e.msg == StripAgentPrefix(e.typ, Drop(rest[|e.typ| + 1..], SeparatorWidth))
    ensures var e := ParseLine(line).value; var rest := Drop(line, TimestampWidth);
      |rest| < |e.typ| + 1 + SeparatorWidth ==> e.msg == ""
  {
    var rest := Drop(line, TimestampWidth);
    var parts := SplitOnce(rest, ' ');
    assert rest == parts[0] + " " + parts[1];
    assert rest[|parts[0]| + 1..] == parts[1];
  }

  /** A line laid out as timestamp, type, space, separator, message parses back to that type and message. */
  lemma {:induction false} ParseFormattedLine(stamp: string, typ: string, sep: string, msg: string)
    requires |stamp| == TimestampWidth && |sep| == SeparatorWidth
    requires ' ' !in typ
    ensures ParseLine(stamp + typ + " " + sep + msg) == Some(Entry(typ, StripAgentPrefix(typ, msg)))
  {
    var line := stamp + typ + " " + sep + msg;
    var rest := typ + " " + (sep + msg);
    assert Drop(line, TimestampWidth) == rest;
    FindCharAt(typ, ' ', sep + msg);
    assert rest[..|typ|] == typ;
    assert rest[|typ| + 1..] == sep + msg;
    assert Drop(sep + msg, SeparatorWidth) == msg;
  }

  /** An INFO agent-response line yields the response text alone. */
  lemma ParseAgentResponse(stamp: string, sep: string, response: string)
    requires |stamp| == TimestampWidth && |sep| == SeparatorWidth
    ensures ParseLine(stamp + "INFO " + sep + AgentPrefix + response) == Some(Entry("INFO", response))
  {
    assert stamp + "INFO " + sep + AgentPrefix + response == stamp + "INFO" + " " + sep + (AgentPrefix + response);
    ParseFormattedLine(stamp, "INFO", sep, AgentPrefix + response);
    assert StartsWith(AgentPrefix + response, AgentPrefix);
    assert (AgentPrefix + response)[|AgentPrefix|..] == response;
  }
}
