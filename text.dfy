/**
  The string operations the analyzer relies on, with Python's meaning:
  slicing past the end, `startswith`, `find`, `split(sep, 1)`, `split(sep)`
  and the decimal rendering of integers done by f-strings.
*/
module Text {
  import opened Wrappers

  /** `s[n:]`: the suffix after the first n characters, empty when n reaches past the end. */
  function Drop(s: string, n: nat): (r: string)
    ensures |r| == if |s| <= n then 0 else |s| - n
    ensures forall i :: 0 <= i < |r| ==> r[i] == s[n + i]
  {
    if |s| <= n then [] else s[n..]
  }

  /** `s.startswith(prefix)`. */
  predicate StartsWith(s: string, prefix: string)
  {
    prefix <= s
  }

  /** The first position of c in s, if any. */
  function FindChar(s: string, c: char): (r: Option<nat>)
    ensures r.None? <==> c !in s
    ensures r.Some? ==> r.value < |s| && s[r.value] == c && c !in s[..r.value]
  {
    if s == [] then None
    else if s[0] == c then Some(0)
    else
      match FindChar(s[1..], c)
      case None => None
      case Some(i) =>
        assert s[..i + 1] == [s[0]] + s[1..][..i];
        Some(i + 1)
  }

  /** The first position is the only one with c there and no c before it. */
  lemma FindCharAt(a: string, c: char, b: string)
    requires c !in a
    ensures FindChar(a + [c] + b, c) == Some(|a|)
  {
    var s := a + [c] + b;
    assert s[|a|] == c;
  }

  /** `s.split(c, 1)`: one part when c does not occur, else the text before and after its first occurrence. */
  function SplitOnce(s: string, c: char): (parts: seq<string>)
    ensures |parts| == 1 || |parts| == 2
    ensures |parts| == 1 <==> c !in s
    ensures |parts| == 1 ==> parts[0] == s
    ensures |parts| == 2 ==> s == parts[0] + [c] + parts[1] && c !in parts[0]
  {
    match FindChar(s, c)
    case None => [s]
    case Some(i) =>
      assert s == s[..i] + [c] + s[i + 1..];
      [s[..i], s[i + 1..]]
  }

  /** `s.split(c)`: the pieces between occurrences of c; "" splits into [""]. */
  function SplitOn(s: string, c: char): (pieces: seq<string>)
    ensures |pieces| >= 1
    decreases |s|
  {
    match FindChar(s, c)
    case None => [s]
    case Some(i) => [s[..i]] + SplitOn(s[i + 1..], c)
  }

  /** `c.join(pieces)`, the inverse of SplitOn. */
  function Join(pieces: seq<string>, c: char): string
  {
    if pieces == [] then []
    else if |pieces| == 1 then pieces[0]
    else pieces[0] + [c] + Join(pieces[1..], c)
  }

  lemma JoinCons(head: string, tail: seq<string>, c: char)
    requires |tail| >= 1
    ensures Join([head] + tail, c) == head + [c] + Join(tail, c)
  {
    assert ([head] + tail)[1..] == tail;
  }

  /** Joining the pieces back with the separator restores the text. */
  lemma {:induction false} JoinSplitOn(s: string, c: char)
    ensures Join(SplitOn(s, c), c) == s
    decreases |s|
  {
    var r := FindChar(s, c);
    if r.Some? {
      var i := r.value;
      var rest := SplitOn(s[i + 1..], c);
      JoinSplitOn(s[i + 1..], c);
      JoinCons(s[..i], rest, c);
      assert s == s[..i] + [c] + s[i + 1..];
    }
  }

  /** The number of occurrences of c in s. */
  function Occurrences(s: string, c: char): nat
  {
    if s == [] then 0 else (if s[0] == c then 1 else 0) + Occurrences(s[1..], c)
  }

  /** An occurrence of c after a stretch without c adds one to the count of what follows. */
  lemma {:induction false} OccurrencesAfter(a: string, c: char, b: string)
    requires c !in a
    ensures Occurrences(a + [c] + b, c) == 1 + Occurrences(b, c)
  {
    if a != [] {
      OccurrencesAfter(a[1..], c, b);
      assert (a + [c] + b)[1..] == a[1..] + [c] + b;
    } else {
      assert a + [c] + b == [c] + b;
    }
  }

  /** No piece contains the separator, and there is one piece more than there are separators. */
  lemma {:induction false} SplitOnPieces(s: string, c: char)
    ensures forall p :: p in SplitOn(s, c) ==> c !in p
    ensures |SplitOn(s, c)| == Occurrences(s, c) + 1
    decreases |s|
  {
    match FindChar(s, c)
    case None =>
      OccurrencesAbsent(s, c);
    case Some(i) =>
      SplitOnPieces(s[i + 1..], c);
      assert s == s[..i] + [c] + s[i + 1..];
      OccurrencesAfter(s[..i], c, s[i + 1..]);
  }

  lemma {:induction false} OccurrencesAbsent(s: string, c: char)
    requires c !in s
    ensures Occurrences(s, c) == 0
  {
    if s != [] {
      OccurrencesAbsent(s[1..], c);
    }
  }

  /** Splitting a join of separator-free pieces gives the pieces back. */
  lemma {:induction false} SplitOnJoin(pieces: seq<string>, c: char)
    requires |pieces| >= 1
    requires forall p :: p in pieces ==> c !in p
    ensures SplitOn(Join(pieces, c), c) == pieces
  {
    if |pieces| > 1 {
      var head, tail := pieces[0], pieces[1..];
      assert pieces == [head] + tail;
      var rest := Join(tail, c);
      SplitOnJoin(tail, c);
      JoinCons(head, tail, c);
      var s := head + [c] + rest;
      FindCharAt(head, c, rest);
      assert s[|head| + 1..] == rest;
      assert s[..|head|] == head;
    } else {
      assert pieces[0] in pieces;
    }
  }

  predicate IsDigit(ch: char)
  {
    48 <= ch as int <= 57
  }

  function DigitChar(d: nat): (ch: char)
    requires d < 10
  {
    (48 + d) as char
  }

  /** `str(n)` for a non-negative integer: its decimal digits, most significant first. */
  function NatToString(n: nat): (s: string)
    ensures |s| >= 1
    ensures forall i :: 0 <= i < |s| ==> IsDigit(s[i])
    ensures s[0] == '0' ==> n == 0
  {
    if n < 10 then [DigitChar(n)] else NatToString(n / 10) + [DigitChar(n % 10)]
  }

  /** The number a string of decimal digits denotes. */
  function DigitsValue(s: string): nat
    requires forall i :: 0 <= i < |s| ==> IsDigit(s[i])
  {
    if s == [] then 0
    else
      assert IsDigit(s[|s| - 1]);
      DigitsValue(s[..|s| - 1]) * 10 + (s[|s| - 1] as int - 48)
  }

  /** Reading the rendered digits back gives the number. */
  lemma {:induction false} NatToStringValue(n: nat)
    ensures DigitsValue(NatToString(n)) == n
  {
    if n >= 10 {
      NatToStringValue(n / 10);
      var s := NatToString(n);
      assert s[..|s| - 1] == NatToString(n / 10);
    }
  }

  /** `str(i)` for any integer: a minus sign before the digits of a negative one. */
  function IntToString(i: int): (s: string)
    ensures |s| >= 1
    ensures s[0] == '-' <==> i < 0
  {
    if i < 0 then "-" + NatToString(-i) else NatToString(i)
  }

  /** After the sign, if any, the rendering is decimal digits that read back as the magnitude. */
  lemma IntToStringValue(i: int)
    ensures var s := IntToString(i); var digits := if i < 0 then s[1..] else s;
      (forall k :: 0 <= k < |digits| ==> IsDigit(digits[k])) &&
      DigitsValue(digits) == if i < 0 then -i else i
  {
    var n := if i < 0 then -i else i;
    NatToStringValue(n);
    if i < 0 {
      assert IntToString(i)[1..] == NatToString(n);
    }
  }

  /** A rendered integer never contains a line break. */
  lemma IntToStringOneLine(i: int)
    ensures '\n' !in IntToString(i)
  {
    var d := NatToString(if i < 0 then -i else i);
    assert forall k :: 0 <= k < |d| ==> d[k] != '\n';
  }
}
