/** Joining and splitting text, as the client's string functions do it. */
module Text {

  function Join(parts: seq<string>, sep: char): string {
    if parts == [] then ""
    else if |parts| == 1 then parts[0]
    else parts[0] + [sep] + Join(parts[1..], sep)
  }

  /** The length of the part before the first occurrence of d. */
  function Span(s: string, d: char): (n: nat)
    ensures n <= |s| && d !in s[..n]
    ensures n < |s| ==> s[n] == d
  {
    if s == "" || s[0] == d then 0 else 1 + Span(s[1..], d)
  }

  lemma {:induction false} SpanStopsAt(s: string, d: char, n: nat)
    requires n <= |s| && d !in s[..n] && (n < |s| ==> s[n] == d)
    ensures Span(s, d) == n
  {
    if n > 0 {
      assert s[0] in s[..n];
      assert s[1..][..n - 1] == s[..n][1..];
      SpanStopsAt(s[1..], d, n - 1);
    }
  }

  /** Splits at every occurrence of d; empty parts count. */
  function Split(s: string, d: char): (parts: seq<string>)
    ensures parts != []
    decreases |s|
  {
    var n := Span(s, d);
    if n == |s| then [s] else [s[..n]] + Split(s[n + 1..], d)
  }

  /** Splitting undoes joining, for one part or more, none of which contains the separator. */
  lemma {:induction false} SplitJoin(parts: seq<string>, d: char)
    requires parts != [] && forall i | 0 <= i < |parts| :: d !in parts[i]
    ensures Split(Join(parts, d), d) == parts
  {
    var first := parts[0];
    assert d !in first;
    if |parts| == 1 {
      assert first[..|first|] == first;
      SpanStopsAt(first, d, |first|);
    } else {
      var rest := Join(parts[1..], d);
      var s := first + [d] + rest;
      assert s[..|first|] == first && s[|first| + 1..] == rest;
      SpanStopsAt(s, d, |first|);
      SplitJoin(parts[1..], d);
    }
  }

  lemma {:induction false} JoinSnoc(parts: seq<string>, last: string, sep: char)
    requires parts != []
    ensures Join(parts + [last], sep) == Join(parts, sep) + [sep] + last
  {
    if |parts| > 1 {
      assert (parts + [last])[1..] == parts[1..] + [last];
      JoinSnoc(parts[1..], last, sep);
    } else {
      assert (parts + [last])[1..] == [last];
    }
  }
}
