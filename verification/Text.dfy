/** Byte strings as the hub handles them: white space, trimming, joining and searching. */
module Text {

  /** The ASCII white space that strings.TrimSpace removes. */
  predicate IsSpace(c: char) {
    c == ' ' || c == '\t' || c == '\n' || c == '\r' || c == '\U{0B}' || c == '\U{0C}'
  }

  predicate AllSpace(s: string) {
    forall i :: 0 <= i < |s| ==> IsSpace(s[i])
  }

  /** Neither end is white space. */
  predicate Trimmed(s: string) {
    s == "" || (!IsSpace(s[0]) && !IsSpace(s[|s| - 1]))
  }

  function TrimLeft(s: string): string {
    if s != "" && IsSpace(s[0]) then TrimLeft(s[1..]) else s
  }

  function TrimRight(s: string): string {
    if s != "" && IsSpace(s[|s| - 1]) then TrimRight(s[..|s| - 1]) else s
  }

  function Trim(s: string): string {
    TrimRight(TrimLeft(s))
  }

  function TrimAll(ss: seq<string>): (ts: seq<string>)
    ensures |ts| == |ss|
    ensures forall i :: 0 <= i < |ss| ==> ts[i] == Trim(ss[i])
  {
    seq(|ss|, i requires 0 <= i < |ss| => Trim(ss[i]))
  }

  lemma {:induction false} TrimLeftSplits(s: string) returns (lead: string)
    ensures AllSpace(lead) && s == lead + TrimLeft(s)
    ensures TrimLeft(s) == "" || !IsSpace(TrimLeft(s)[0])
  {
    if s != "" && IsSpace(s[0]) {
      var rest := TrimLeftSplits(s[1..]);
      lead := [s[0]] + rest;
      assert s == [s[0]] + s[1..];
    } else {
      lead := "";
    }
  }

  lemma {:induction false} TrimRightSplits(s: string) returns (trail: string)
    ensures AllSpace(trail) && s == TrimRight(s) + trail
    ensures TrimRight(s) == "" || !IsSpace(TrimRight(s)[|TrimRight(s)| - 1])
  {
    if s != "" && IsSpace(s[|s| - 1]) {
      var rest := TrimRightSplits(s[..|s| - 1]);
      trail := rest + [s[|s| - 1]];
      assert s == s[..|s| - 1] + [s[|s| - 1]];
    } else {
      trail := "";
    }
  }

  /** Trimming takes white space off both ends and nothing else. */
  lemma TrimSplits(s: string) returns (lead: string, trail: string)
    ensures AllSpace(lead) && AllSpace(trail) && Trimmed(Trim(s))
    ensures s == lead + Trim(s) + trail
  {
    lead := TrimLeftSplits(s);
    trail := TrimRightSplits(TrimLeft(s));
  }

  lemma {:induction false} TrimLeftPadded(lead: string, s: string)
    requires AllSpace(lead)
    requires s == "" || !IsSpace(s[0])
    ensures TrimLeft(lead + s) == s
  {
    if lead == "" {
      assert lead + s == s;
    } else {
      assert (lead + s)[1..] == lead[1..] + s;
      TrimLeftPadded(lead[1..], s);
    }
  }

  lemma {:induction false} TrimRightPadded(s: string, trail: string)
    requires AllSpace(trail)
    requires s == "" || !IsSpace(s[|s| - 1])
    ensures TrimRight(s + trail) == s
  {
    if trail == "" {
      assert s + trail == s;
    } else {
      var n := |s + trail|;
      assert (s + trail)[..n - 1] == s + trail[..|trail| - 1];
      TrimRightPadded(s, trail[..|trail| - 1]);
    }
  }

  /** A trimmed text is recovered from any white space put around it. */
  lemma TrimPadded(lead: string, s: string, trail: string)
    requires AllSpace(lead) && AllSpace(trail) && Trimmed(s)
    ensures Trim(lead + s + trail) == s
  {
    if s == "" {
      assert AllSpace(lead + trail) && lead + s + trail == lead + trail;
      assert lead + trail == (lead + trail) + "";
      TrimLeftPadded(lead + trail, "");
    } else {
      assert lead + s + trail == lead + (s + trail);
      TrimLeftPadded(lead, s + trail);
      TrimRightPadded(s, trail);
    }
  }

  lemma TrimFixed(s: string)
    requires Trimmed(s)
    ensures Trim(s) == s
  {
  }

  function Join(ss: seq<string>, sep: string): string {
    if |ss| == 0 then ""
    else if |ss| == 1 then ss[0]
    else ss[0] + sep + Join(ss[1..], sep)
  }

  lemma Reassociate(a: string, b: string, c: string)
    ensures a + (b + c) == a + b + c
  {
  }

  lemma {:induction false} FindMark(s: string, mark: char) returns (k: nat)
    requires mark in s
    ensures k < |s| && s[k] == mark && mark !in s[..k]
    decreases |s|
  {
    if s[0] == mark {
      k := 0;
    } else {
      assert s == [s[0]] + s[1..];
      k := FindMark(s[1..], mark);
      k := k + 1;
      assert s[..k] == [s[0]] + s[1..][..k - 1];
    }
  }

  /** Within double quotes: each quote comes behind a backslash, and the last character is not taken by one. */
  predicate Escaped(t: string)
    decreases |t|
  {
    t == "" || if t[0] == '\\' then |t| > 1 && Escaped(t[2..]) else t[0] != '"' && Escaped(t[1..])
  }

  /** Nothing in the text ends a double-quoted part. */
  predicate NeverClosed(t: string)
    decreases |t|
  {
    t == "" || if t[0] == '\\' then |t| == 1 || NeverClosed(t[2..]) else t[0] != '"' && NeverClosed(t[1..])
  }

  lemma {:induction false} FindQuote(s: string) returns (k: nat)
    requires !NeverClosed(s)
    ensures k < |s| && s[k] == '"' && Escaped(s[..k])
    decreases |s|
  {
    if s[0] == '"' {
      k := 0;
    } else {
      var n := if s[0] == '\\' then 2 else 1;
      k := FindQuote(s[n..]);
      k := k + n;
      assert s[..k][n..] == s[n..][..k - n];
    }
  }

  predicate HasPrefix(s: string, p: string) {
    p <= s
  }

  predicate HasSuffix(s: string, p: string) {
    |p| <= |s| && s[|s| - |p|..] == p
  }

  predicate Contains(s: string, p: string) {
    exists i :: 0 <= i <= |s| && p <= s[i..]
  }

  /** None of the characters of `s` is in `bad`. */
  predicate Free(s: string, bad: string) {
    forall i :: 0 <= i < |s| ==> s[i] !in bad
  }
}
