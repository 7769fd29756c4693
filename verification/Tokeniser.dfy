/** The C library's re-entrant tokeniser, on the character buffer it writes to. */
module Tokeniser {
  import opened Text
  import opened Wrappers

  const NUL: char := '\0'

  /** The number of delimiters at the start. */
  function Lead(s: string, d: char): (n: nat)
    ensures n <= |s| && (n < |s| ==> s[n] != d)
    ensures forall i | 0 <= i < n :: s[i] == d
  {
    if s == "" || s[0] != d then 0 else 1 + Lead(s[1..], d)
  }

  /** The first token and what is left after the delimiter that ends it. */
  function NextToken(s: string, d: char): (next: Option<(string, string)>)
    ensures next.Some? ==> next.value.0 != "" && d !in next.value.0 && |next.value.1| < |s|
  {
    var a := Lead(s, d);
    if a == |s| then None
    else
      var b := a + Span(s[a..], d);
      assert s[a..][..b - a] == s[a..b] && s[a..][0] == s[a];
      Some((s[a..b], if b == |s| then "" else s[b + 1..]))
  }

  function Tokens(s: string, d: char): (tokens: seq<string>)
    ensures forall t | t in tokens :: t != "" && d !in t
    decreases |s|
  {
    match NextToken(s, d)
    case None => []
    case Some((t, rest)) => [t] + Tokens(rest, d)
  }

  /** A C string: t stands at position p of the buffer, followed by a NUL. */
  ghost predicate IsStr(buf: seq<char>, p: nat, t: string) {
    && p + |t| < |buf| && buf[p..p + |t|] == t && buf[p + |t|] == NUL && NUL !in t
  }

  /** One call of strtok_r, continuing at `from`; n is the end of the string. The token stays in the
      buffer, ended by a NUL, and only that NUL is written. */
  method StrtokR(buf: array<char>, from: nat, d: char, ghost n: nat) returns (tok: Option<nat>, save: nat)
    requires from <= n < buf.Length && IsStr(buf[..], from, buf[from..n]) && d != NUL
    modifies buf
    ensures from <= save <= n && IsStr(buf[..], save, buf[save..n])
    ensures match NextToken(old(buf[from..n]), d)
      case None => tok == None && buf[..] == old(buf[..]) && save == n
      case Some((t, rest)) =>
        && tok.Some? && from <= tok.value && tok.value + |t| <= save
        && IsStr(buf[..], tok.value, t)
        && buf[save..n] == rest
        && forall k | 0 <= k < buf.Length && k != tok.value + |t| :: buf[k] == old(buf[k])
  {
    hide Lead;
    hide Span;
    hide NextToken;
    hide IsStr;
    StrFacts(buf[..], from, n);
    ghost var was := buf[..];
    assert was[from..n] == buf[from..n];
    var p := SkipDelims(buf, from, d, n);
    if buf[p] == NUL {
      NoToken(was, from, n, d);
      return None, p;
    }
    assert was[p..n] == buf[p..n];
    var e := SkipToken(buf, p, d, n);
    TokenAt(was, from, p, e, n, d);
    CutAt(was, from, p, e, n);
    tok := Some(p);
    if buf[e] == NUL {
      return tok, e;
    }
    buf[e] := NUL;
    save := e + 1;
    assert buf[..] == was[e := NUL];
    assert buf[save..n] == buf[..][save..n];
  }

  lemma StrFacts(buf: seq<char>, from: nat, n: nat)
    requires from <= n < |buf| && IsStr(buf, from, buf[from..n])
    ensures NUL !in buf[from..n] && buf[n] == NUL
  {
  }

  lemma NoToken(buf: seq<char>, from: nat, n: nat, d: char)
    requires from <= n < |buf| && IsStr(buf, from, buf[from..n])
    requires Lead(buf[from..n], d) == n - from
    ensures NextToken(buf[from..n], d) == None && IsStr(buf, n, buf[n..n])
  {
  }

  lemma NoNul(buf: seq<char>, from: nat, n: nat, i: nat, j: nat)
    requires from <= i <= j <= n < |buf| && NUL !in buf[from..n]
    ensures NUL !in buf[i..j]
  {
    assert forall k | i <= k < j :: buf[k] == buf[from..n][k - from];
  }

  /** The token between p and e of a buffer... */
  lemma TokenAt(buf: seq<char>, from: nat, p: nat, e: nat, n: nat, d: char)
    requires from <= p < n < |buf| && p <= e <= n
    requires p - from == Lead(buf[from..n], d) && e - p == Span(buf[p..n], d)
    ensures p < e
    ensures NextToken(buf[from..n], d) == Some((buf[p..e], if e == n then "" else buf[e + 1..n]))
  {
    hide Lead;
    hide Span;
    hide NextToken;
    var s, i, j := buf[from..n], p - from, e - from;
    Slices(buf, from, n, i, j);
    assert s[i..] == buf[p..n] && s[i..j] == buf[p..e];
    assert p < e by { assert s[i..][0] == s[i]; }
    if e < n {
      Slices(buf, from, n, j + 1, n - from);
      assert s[j + 1..] == buf[e + 1..n];
    }
    NextTokenAt(s, d, i, j);
  }

  lemma Slices(buf: seq<char>, from: nat, n: nat, i: nat, j: nat)
    requires from <= n <= |buf| && i <= j <= n - from
    ensures buf[from..n][i..j] == buf[from + i..from + j]
    ensures buf[from..n][i..] == buf[from + i..n]
  {
    var a, b := buf[from..n][i..j], buf[from + i..from + j];
    assert forall k | 0 <= k < |a| :: a[k] == buf[from + i + k] == b[k];
    assert a == b;
  }

  lemma NextTokenAt(s: string, d: char, i: nat, j: nat)
    requires i == Lead(s, d) && i < |s| && j == i + Span(s[i..], d) && j <= |s|
    ensures NextToken(s, d) == Some((s[i..j], if j == |s| then "" else s[j + 1..]))
  {
    hide Lead;
    hide Span;
  }

  /** ...before and after it is ended by a NUL. */
  lemma CutAt(buf: seq<char>, from: nat, p: nat, e: nat, n: nat)
    requires from <= p < e <= n < |buf| && NUL !in buf[from..n] && buf[n] == NUL
    ensures e == n ==> IsStr(buf, p, buf[p..e]) && IsStr(buf, n, buf[n..n])
    ensures e < n ==>
      var cut := buf[e := NUL];
      IsStr(cut, p, buf[p..e]) && IsStr(cut, e + 1, buf[e + 1..n]) && cut[e + 1..n] == buf[e + 1..n]
  {
    NoNul(buf, from, n, p, e);
    if e < n {
      NoNul(buf, from, n, e + 1, n);
      var cut := buf[e := NUL];
      assert cut[p..e] == buf[p..e] && cut[e + 1..n] == buf[e + 1..n];
    }
  }

  method SkipDelims(buf: array<char>, from: nat, d: char, ghost n: nat) returns (p: nat)
    requires from <= n < buf.Length && IsStr(buf[..], from, buf[from..n]) && d != NUL
    ensures from <= p <= n && p - from == Lead(buf[from..n], d)
    ensures buf[p] == NUL <==> p == n
  {
    ghost var s := buf[from..n];
    assert forall k | from <= k < n :: buf[k] == s[k - from] && s[k - from] != NUL;
    p := from;
    while buf[p] == d
      invariant from <= p <= n
      invariant forall k | from <= k < p :: buf[k] == d
      decreases n - p
    {
      p := p + 1;
    }
    LeadIs(s, d, p - from);
  }

  method SkipToken(buf: array<char>, from: nat, d: char, ghost n: nat) returns (e: nat)
    requires from <= n < buf.Length && NUL !in buf[from..n] && buf[n] == NUL
    ensures from <= e <= n && e - from == Span(buf[from..n], d)
    ensures buf[e] == NUL <==> e == n
  {
    ghost var t := buf[from..n];
    assert forall k | from <= k < n :: buf[k] == t[k - from] && t[k - from] != NUL;
    e := from;
    while buf[e] != d && buf[e] != NUL
      invariant from <= e <= n
      invariant forall k | from <= k < e :: buf[k] != d
      decreases n - e
    {
      e := e + 1;
    }
    SpanStopsAt(t, d, e - from);
  }

  lemma {:induction false} LeadIs(s: string, d: char, n: nat)
    requires n <= |s| && (n < |s| ==> s[n] != d) && forall i | 0 <= i < n :: s[i] == d
    ensures Lead(s, d) == n
  {
    if n > 0 {
      LeadIs(s[1..], d, n - 1);
    }
  }

  // ---------------------------------------------------------------------------
  // Tokenising what was joined
  // ---------------------------------------------------------------------------

  /** Arguments that a list separated by d can carry. */
  predicate Clean(args: seq<string>, d: char) {
    forall i | 0 <= i < |args| :: args[i] != "" && d !in args[i]
  }

  lemma TokenThenRest(t: string, d: char, rest: string)
    requires t != "" && d !in t
    ensures NextToken(t + [d] + rest, d) == Some((t, rest))
    ensures NextToken(t, d) == Some((t, ""))
  {
    var s := t + [d] + rest;
    assert t[0] in t;
    LeadIs(s, d, 0);
    LeadIs(t, d, 0);
    assert s[0..] == s && t[0..] == t && s[..|t|] == t && t[..|t|] == t && s[|t| + 1..] == rest;
    SpanStopsAt(s, d, |t|);
    SpanStopsAt(t, d, |t|);
  }

  lemma {:induction false} TokensOfClean(args: seq<string>, d: char)
    requires Clean(args, d)
    ensures Tokens(Join(args, d), d) == args
  {
    if args != [] {
      TokenThenRest(args[0], d, Join(args[1..], d));
      TokensOfClean(args[1..], d);
    }
  }

  /** Arguments survive joining and tokenising exactly when none is empty or contains the separator. */
  lemma TokensOfJoined(args: seq<string>, d: char)
    ensures Tokens(Join(args, d), d) == args <==> Clean(args, d)
  {
    if Clean(args, d) {
      TokensOfClean(args, d);
    } else {
      var i :| 0 <= i < |args| && !(args[i] != "" && d !in args[i]);
      assert args[i] in args;
    }
  }
}
