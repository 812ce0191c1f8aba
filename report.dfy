/**
  The report text: a summary block with the three per-type counts, the ranked
  INFO messages under a header that echoes the requested number, and the
  ranked ERROR messages. Every line ends with a newline; ranked lines are
  numbered from 1.
*/
module Report {
  import opened Text
  import Seqs

  /** "{i}. {message} ({count} times)". */
  function RankedLine(i: nat, p: (string, nat)): string
  {
    NatToString(i) + ". " + p.0 + " (" + NatToString(p.1) + " times)"
  }

  /** The ranked lines of ps, numbered 1, 2, ... in order. */
  function RankedLines(ps: seq<(string, nat)>): seq<string>
  {
    if ps == [] then [] else RankedLines(ps[..|ps| - 1]) + [RankedLine(|ps|, ps[|ps| - 1])]
  }

  /** The lines before the ranked INFO messages. */
  function SummaryLines(info: nat, error: nat, warning: nat, topResponses: int): seq<string>
  {
    SummaryOf(NatToString(info), NatToString(error), NatToString(warning), IntToString(topResponses))
  }

  /** The summary lines, given the rendered counts and the rendered requested number. */
  function SummaryOf(info: string, error: string, warning: string, topResponses: string): seq<string>
  {
    [ "Log Summary:",
      "- INFO messages: " + info,
      "- ERROR messages: " + error,
      "- WARNING messages: " + warning,
      "",
      "Top " + topResponses + " AI Responses:" ]
  }

  const ErrorsHeader: seq<string> := ["", "Most Common Errors:"]

  function ReportLines(info: nat, error: nat, warning: nat, topResponses: int,
                       responses: seq<(string, nat)>, errors: seq<(string, nat)>): seq<string>
  {
    SummaryLines(info, error, warning, topResponses) + RankedLines(responses) + ErrorsHeader + RankedLines(errors)
  }

  /** The lines written one after another, each followed by a newline. */
  function Terminated(ls: seq<string>): string
  {
    if ls == [] then [] else Terminated(ls[..|ls| - 1]) + ls[|ls| - 1] + "\n"
  }

  function ReportText(info: nat, error: nat, warning: nat, topResponses: int,
                      responses: seq<(string, nat)>, errors: seq<(string, nat)>): string
  {
    Terminated(ReportLines(info, error, warning, topResponses, responses, errors))
  }

  lemma {:induction false} TerminatedAppend(a: seq<string>, b: seq<string>)
    ensures Terminated(a + b) == Terminated(a) + Terminated(b)
  {
    if b == [] {
      assert a + b == a;
    } else {
      TerminatedAppend(a, b[..|b| - 1]);
      assert (a + b)[..|a + b| - 1] == a + b[..|b| - 1];
    }
  }

  lemma RankedLinesSnoc(ps: seq<(string, nat)>, i: nat)
    requires i < |ps|
    ensures RankedLines(ps[..i + 1]) == RankedLines(ps[..i]) + [RankedLine(i + 1, ps[i])]
  {
    assert ps[..i + 1][..i] == ps[..i];
  }

  /** Line k of RankedLines(ps) is the (k+1)-th pair, numbered k+1: one line per pair, contiguously. */
  lemma {:induction false} RankedLinesAt(ps: seq<(string, nat)>)
    ensures |RankedLines(ps)| == |ps|
    ensures forall k :: 0 <= k < |ps| ==> RankedLines(ps)[k] == RankedLine(k + 1, ps[k])
  {
    if ps != [] {
      var init := ps[..|ps| - 1];
      RankedLinesAt(init);
      forall k | 0 <= k < |ps| ensures RankedLines(ps)[k] == RankedLine(k + 1, ps[k]) {
        if k < |init| {
          assert ps[k] == init[k];
        }
      }
    }
  }

  /**
    The layout of the report: six summary lines whose last echoes the requested
    number, one numbered line per response, a blank line and the errors header,
    then one numbered line per error.
  */
  lemma ReportLayout(info: nat, error: nat, warning: nat, topResponses: int,
                     responses: seq<(string, nat)>, errors: seq<(string, nat)>, ls: seq<string>)
    requires ls == ReportLines(info, error, warning, topResponses, responses, errors)
    ensures |ls| == 8 + |responses| + |errors|
    ensures ls[..6] == SummaryLines(info, error, warning, topResponses)
    ensures ls[5] == "Top " + IntToString(topResponses) + " AI Responses:"
    ensures forall k :: 0 <= k < |responses| ==> ls[6 + k] == RankedLine(k + 1, responses[k])
    ensures ls[6 + |responses|] == "" && ls[7 + |responses|] == "Most Common Errors:"
    ensures forall k :: 0 <= k < |errors| ==> ls[8 + |responses| + k] == RankedLine(k + 1, errors[k])
  {
    var summary := SummaryLines(info, error, warning, topResponses);
    var rs, es := RankedLines(responses), RankedLines(errors);
    RankedLinesAt(responses);
    RankedLinesAt(errors);
    var p := summary + rs;
    var q := p + ErrorsHeader;
    assert |summary| == 6 && |p| == 6 + |responses| && |q| == 8 + |responses|;
    assert ls == q + es;
    Seqs.TakeAppend(q, es, 6);
    Seqs.TakeAppend(p, ErrorsHeader, 6);
    Seqs.TakeAppend(summary, rs, 6);
    assert summary[..6] == summary;
    forall k | 0 <= k < |responses| ensures ls[6 + k] == RankedLine(k + 1, responses[k]) {
      Seqs.AppendLeft(q, es, 6 + k);
      Seqs.AppendLeft(p, ErrorsHeader, 6 + k);
      Seqs.AppendRight(summary, rs, k);
    }
    forall k | 0 <= k < |errors| ensures ls[8 + |responses| + k] == RankedLine(k + 1, errors[k]) {
      Seqs.AppendRight(q, es, k);
    }
    Seqs.AppendLeft(q, es, 6 + |responses|);
    Seqs.AppendLeft(q, es, 7 + |responses|);
    Seqs.AppendRight(p, ErrorsHeader, 0);
    Seqs.AppendRight(p, ErrorsHeader, 1);
  }

  lemma OneLineNat(n: nat)
    ensures '\n' !in NatToString(n)
  {
    var d := NatToString(n);
    assert forall k :: 0 <= k < |d| ==> d[k] != '\n';
  }

  lemma RankedLineOneLine(i: nat, p: (string, nat))
    requires '\n' !in p.0
    ensures '\n' !in RankedLine(i, p)
  {
    OneLineNat(i);
    OneLineNat(p.1);
    var a, b := NatToString(i), NatToString(p.1);
    assert RankedLine(i, p) == a + ". " + p.0 + " (" + b + " times)";
  }

  lemma RankedLinesOneLine(ps: seq<(string, nat)>)
    requires forall k :: 0 <= k < |ps| ==> '\n' !in ps[k].0
    ensures forall l :: l in RankedLines(ps) ==> '\n' !in l
  {
    RankedLinesAt(ps);
    var ls := RankedLines(ps);
    forall k | 0 <= k < |ls| ensures '\n' !in ls[k] {
      RankedLineOneLine(k + 1, ps[k]);
    }
  }

  /** Terminated lines are the lines joined by newlines, with an empty last piece. */
  lemma {:induction false} TerminatedIsJoin(ls: seq<string>)
    ensures Terminated(ls) == Join(ls + [""], '\n')
  {
    if ls != [] {
      var init, last := ls[..|ls| - 1], ls[|ls| - 1];
      TerminatedIsJoin(init);
      JoinSnocEmpty(init, last);
      assert ls == init + [last];
      assert ls + [""] == init + [last, ""];
    }
  }

  lemma {:induction false} JoinSnocEmpty(ls: seq<string>, l: string)
    ensures Join(ls + [l, ""], '\n') == Join(ls + [""], '\n') + l + "\n"
  {
    if ls == [] {
      JoinCons(l, [""], '\n');
    } else {
      JoinSnocEmpty(ls[1..], l);
      assert ls + [l, ""] == [ls[0]] + (ls[1..] + [l, ""]);
      assert ls + [""] == [ls[0]] + (ls[1..] + [""]);
      JoinCons(ls[0], ls[1..] + [l, ""], '\n');
      JoinCons(ls[0], ls[1..] + [""], '\n');
    }
  }

  lemma ConcatOneLine(x: string, y: string)
    requires '\n' !in x && '\n' !in y
    ensures '\n' !in x + y
  {
  }

  lemma SummaryOfOneLine(info: string, error: string, warning: string, topResponses: string)
    requires '\n' !in info && '\n' !in error && '\n' !in warning && '\n' !in topResponses
    ensures forall l :: l in SummaryOf(info, error, warning, topResponses) ==> '\n' !in l
  {
    ConcatOneLine("- INFO messages: ", info);
    ConcatOneLine("- ERROR messages: ", error);
    ConcatOneLine("- WARNING messages: ", warning);
    ConcatOneLine("Top ", topResponses);
    ConcatOneLine("Top " + topResponses, " AI Responses:");
  }

  lemma SummaryOneLine(info: nat, error: nat, warning: nat, topResponses: int)
    ensures forall l :: l in SummaryLines(info, error, warning, topResponses) ==> '\n' !in l
  {
    OneLineNat(info);
    OneLineNat(error);
    OneLineNat(warning);
    IntToStringOneLine(topResponses);
    SummaryOfOneLine(NatToString(info), NatToString(error), NatToString(warning), IntToString(topResponses));
  }

  lemma ReportLinesOneLine(info: nat, error: nat, warning: nat, topResponses: int,
                           responses: seq<(string, nat)>, errors: seq<(string, nat)>)
    requires forall k :: 0 <= k < |responses| ==> '\n' !in responses[k].0
    requires forall k :: 0 <= k < |errors| ==> '\n' !in errors[k].0
    ensures forall l :: l in ReportLines(info, error, warning, topResponses, responses, errors) + [""] ==> '\n' !in l
  {
    SummaryOneLine(info, error, warning, topResponses);
    RankedLinesOneLine(responses);
    RankedLinesOneLine(errors);
    var ls := ReportLines(info, error, warning, topResponses, responses, errors);
    var summary := SummaryLines(info, error, warning, topResponses);
    forall l | l in ls + [""] ensures '\n' !in l {
      assert l in summary || l in RankedLines(responses) || l in ErrorsHeader || l in RankedLines(errors) || l == "";
    }
  }

  /**
    Splitting the report at newlines gives back exactly its lines, followed by the
    empty piece after the final newline, as long as no message holds a newline.
  */
  lemma ReportTextLines(info: nat, error: nat, warning: nat, topResponses: int,
                        responses: seq<(string, nat)>, errors: seq<(string, nat)>)
    requires forall k :: 0 <= k < |responses| ==> '\n' !in responses[k].0
    requires forall k :: 0 <= k < |errors| ==> '\n' !in errors[k].0
    ensures SplitOn(ReportText(info, error, warning, topResponses, responses, errors), '\n') ==
      ReportLines(info, error, warning, topResponses, responses, errors) + [""]
  {
    var ls := ReportLines(info, error, warning, topResponses, responses, errors);
    ReportLinesOneLine(info, error, warning, topResponses, responses, errors);
    TerminatedIsJoin(ls);
    SplitOnJoin(ls + [""], '\n');
  }

  lemma TerminatedPush(ls: seq<string>, l: string)
    ensures Terminated(ls + [l]) == Terminated(ls) + l + "\n"
  {
    assert (ls + [l])[..|ls|] == ls;
  }

  lemma TerminatedSnoc(ls: seq<string>, k: nat)
    requires 0 < k <= |ls|
    ensures Terminated(ls[..k]) == Terminated(ls[..k - 1]) + ls[k - 1] + "\n"
  {
    assert ls[..k][..k - 1] == ls[..k - 1];
  }

  lemma TerminatedSix(a: string, b: string, c: string, d: string, e: string, f: string)
    ensures Terminated([a, b, c, d, e, f]) ==
      a + "\n" + b + "\n" + c + "\n" + d + "\n" + e + "\n" + f + "\n"
  {
    assert [a, b, c, d, e, f] == [a, b, c, d, e] + [f];
    assert [a, b, c, d, e] == [a, b, c, d] + [e];
    assert [a, b, c, d] == [a, b, c] + [d];
    assert [a, b, c] == [a, b] + [c];
    assert [a, b] == [a] + [b];
    assert [a] == [] + [a];
    TerminatedPush([], a);
    TerminatedPush([a], b);
    TerminatedPush([a, b], c);
    TerminatedPush([a, b, c], d);
    TerminatedPush([a, b, c, d], e);
    TerminatedPush([a, b, c, d, e], f);
  }

  /** The summary block as the source writes it, five appends. */
  lemma SummaryText(info: string, error: string, warning: string, topResponses: string)
    ensures Terminated(SummaryOf(info, error, warning, topResponses)) ==
      "Log Summary:\n" + "- INFO messages: " + info + "\n"
      + "- ERROR messages: " + error + "\n"
      + "- WARNING messages: " + warning + "\n\n"
      + "Top " + topResponses + " AI Responses:\n"
  {
    TerminatedSix("Log Summary:", "- INFO messages: " + info, "- ERROR messages: " + error,
      "- WARNING messages: " + warning, "", "Top " + topResponses + " AI Responses:");
  }

  /** One pass of a ranking loop: appending the (i+1)-th ranked line and its newline. */
  lemma RankedStep(head: seq<string>, ps: seq<(string, nat)>, i: nat)
    requires i < |ps|
    ensures Terminated(head + RankedLines(ps[..i])) + NatToString(i + 1) + ". " + ps[i].0 + " (" + NatToString(ps[i].1) + " times)\n"
      == Terminated(head + RankedLines(ps[..i + 1]))
  {
    RankedLinesSnoc(ps, i);
    var line := RankedLine(i + 1, ps[i]);
    assert head + RankedLines(ps[..i + 1]) == (head + RankedLines(ps[..i])) + [line];
    TerminatedPush(head + RankedLines(ps[..i]), line);
  }

  lemma TerminatedPushTwo(ls: seq<string>, a: string, b: string)
    ensures Terminated(ls + [a, b]) == Terminated(ls) + (a + "\n" + b + "\n")
  {
    assert ls + [a, b] == (ls + [a]) + [b];
    TerminatedPush(ls, a);
    TerminatedPush(ls + [a], b);
  }

  lemma ErrorsHeaderText()
    ensures "" + "\n" + "Most Common Errors:" + "\n" == "\nMost Common Errors:\n"
  {
  }

  lemma ErrorsHeaderStep(head: seq<string>)
    ensures Terminated(head) + "\nMost Common Errors:\n" == Terminated(head + ErrorsHeader)
  {
    TerminatedPushTwo(head, "", "Most Common Errors:");
    ErrorsHeaderText();
  }

  method BuildReport(info: nat, error: nat, warning: nat, topResponses: int,
                     responses: seq<(string, nat)>, errors: seq<(string, nat)>) returns (report: string)
    ensures report == ReportText(info, error, warning, topResponses, responses, errors)
  {
    report := "Log Summary:\n";
    report := report + "- INFO messages: " + NatToString(info) + "\n";
    report := report + "- ERROR messages: " + NatToString(error) + "\n";
    report := report + "- WARNING messages: " + NatToString(warning) + "\n\n";
    report := report + "Top " + IntToString(topResponses) + " AI Responses:\n";
    ghost var summary := SummaryLines(info, error, warning, topResponses);
    SummaryText(NatToString(info), NatToString(error), NatToString(warning), IntToString(topResponses));
    assert summary + RankedLines(responses[..0]) == summary;
    for i := 0 to |responses|
      invariant report == Terminated(summary + RankedLines(responses[..i]))
    {
      var (response, count) := responses[i];
      RankedStep(summary, responses, i);
      report := report + NatToString(i + 1) + ". " + response + " (" + NatToString(count) + " times)\n";
    }
    assert responses[..|responses|] == responses;
    ghost var head := summary + RankedLines(responses);
    ErrorsHeaderStep(head);
    report := report + "\nMost Common Errors:\n";
    assert head + ErrorsHeader + RankedLines(errors[..0]) == head + ErrorsHeader;
    for i := 0 to |errors|
      invariant report == Terminated(head + ErrorsHeader + RankedLines(errors[..i]))
    {
      var (err, count) := errors[i];
      RankedStep(head + ErrorsHeader, errors, i);
      report := report + NatToString(i + 1) + ". " + err + " (" + NatToString(count) + " times)\n";
    }
    assert errors[..|errors|] == errors;
  }
}
