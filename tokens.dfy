/**
 * Ruby's `String#split(/\s+/)` as a run applies it to its status string.
 * The string is cut at every maximal run of whitespace; trailing empty fields
 * are dropped, but a leading empty field (from leading whitespace) is kept
 * unless every field is empty.
 */
module Tokens {

  /** Ruby's `\s` (Ruby 2.2 and later): space, tab, line feed, vertical tab, form feed, carriage return. */
  predicate IsSpace(c: char) {
    c == ' ' || ('\t' <= c <= '\r')
  }

  predicate NoSpace(s: string) {
    forall i :: 0 <= i < |s| ==> !IsSpace(s[i])
  }

  predicate AllSpace(s: string) {
    forall i :: 0 <= i < |s| ==> IsSpace(s[i])
  }

  /** Length of the longest prefix of `s` without whitespace. */
  function WordLen(s: string): (k: nat)
    ensures k <= |s|
    ensures forall j :: 0 <= j < k ==> !IsSpace(s[j])
    ensures k < |s| ==> IsSpace(s[k])
  {
    if s == [] || IsSpace(s[0]) then 0 else 1 + WordLen(s[1..])
  }

  /** Length of the longest prefix of `s` made of whitespace. */
  function SpaceLen(s: string): (k: nat)
    ensures k <= |s|
    ensures forall j :: 0 <= j < k ==> IsSpace(s[j])
    ensures k < |s| ==> !IsSpace(s[k])
  {
    if s == [] || !IsSpace(s[0]) then 0 else 1 + SpaceLen(s[1..])
  }

  /** The fields between maximal whitespace runs, empty ones included. */
  function Fields(s: string): (fs: seq<string>)
    ensures fs != []
    decreases |s|
  {
    var k := WordLen(s);
    if k == |s| then [s]
    else
      var j := k + SpaceLen(s[k..]);
      assert j > k;
      [s[..k]] + Fields(s[j..])
  }

  /** Removes the empty fields at the end, as `split` does without a limit. */
  function DropTrailingEmpty(fs: seq<string>): (r: seq<string>)
    ensures |r| <= |fs| && r == fs[..|r|]
    ensures r != [] ==> r[|r| - 1] != ""
    ensures forall k :: |r| <= k < |fs| ==> fs[k] == ""
  {
    if fs == [] || fs[|fs| - 1] != "" then fs else DropTrailingEmpty(fs[..|fs| - 1])
  }

  /** `s.split(/\s+/)`. */
  function SplitWs(s: string): seq<string> {
    DropTrailingEmpty(Fields(s))
  }

  /** No field holds whitespace; only the first and the last can be empty. */
  lemma {:induction false} FieldsShape(s: string)
    ensures forall i :: 0 <= i < |Fields(s)| ==> NoSpace(Fields(s)[i])
    ensures forall i :: 0 < i < |Fields(s)| - 1 ==> Fields(s)[i] != ""
    ensures Fields(s)[0] == "" <==> s == "" || IsSpace(s[0])
    decreases |s|
  {
    var k := WordLen(s);
    if k < |s| {
      var j := k + SpaceLen(s[k..]);
      FieldsShape(s[j..]);
      var rest := Fields(s[j..]);
      assert Fields(s) == [s[..k]] + rest;
      if |rest| > 1 {
        assert j < |s|;
        assert !IsSpace(s[j..][0]);
      }
    }
  }

  predicate AllEmpty(fs: seq<string>) {
    forall i :: 0 <= i < |fs| ==> fs[i] == ""
  }

  lemma {:induction false} ConsAllEmpty(x: string, rest: seq<string>)
    ensures AllEmpty([x] + rest) <==> x == "" && AllEmpty(rest)
  {
    var fs := [x] + rest;
    assert fs[0] == x;
    assert forall i :: 0 <= i < |rest| ==> rest[i] == fs[i + 1];
  }

  /** Past a whitespace prefix, the rest decides whether all is whitespace. */
  lemma {:induction false} AllSpaceSplit(s: string, j: nat)
    requires j <= |s| && forall i :: 0 <= i < j ==> IsSpace(s[i])
    ensures AllSpace(s) <==> AllSpace(s[j..])
  {
    assert forall i :: j <= i < |s| ==> s[i] == s[j..][i - j];
  }

  /** Every field is empty exactly when the whole string is whitespace. */
  lemma {:induction false} FieldsAllEmpty(s: string)
    ensures AllSpace(s) <==> AllEmpty(Fields(s))
    decreases |s|
  {
    var fs, k := Fields(s), WordLen(s);
    if k < |s| {
      var j := k + SpaceLen(s[k..]);
      var rest := Fields(s[j..]);
      FieldsAllEmpty(s[j..]);
      assert AllEmpty(fs) <==> k == 0 && AllEmpty(rest) by {
        assert fs == [s[..k]] + rest;
        ConsAllEmpty(s[..k], rest);
        assert |s[..k]| == k;
      }
      assert AllSpace(s) ==> k == 0 by {
        if k > 0 {
          assert !IsSpace(s[0]);
        }
      }
      if k == 0 {
        assert s[k..] == s;
        AllSpaceSplit(s, j);
      }
    } else {
      assert fs == [s];
      if s != "" {
        assert !IsSpace(s[0]) && fs[0] != "";
      }
    }
  }

  /** `split` yields nothing exactly when the string is empty or all whitespace. */
  lemma {:induction false} SplitWsEmpty(s: string)
    ensures SplitWs(s) == [] <==> AllSpace(s)
  {
    FieldsAllEmpty(s);
  }

  /**
   * Every field of `split` is free of whitespace; all are non-empty except
   * the first, which is empty exactly when the string starts with whitespace.
   */
  lemma {:induction false} SplitWsShape(s: string)
    ensures forall i :: 0 <= i < |SplitWs(s)| ==> NoSpace(SplitWs(s)[i])
    ensures forall i :: 0 < i < |SplitWs(s)| ==> SplitWs(s)[i] != ""
    ensures SplitWs(s) != [] ==> (SplitWs(s)[0] == "" <==> IsSpace(s[0]))
  {
    FieldsShape(s);
    var fs, r := Fields(s), SplitWs(s);
    assert forall i :: 0 <= i < |r| ==> r[i] == fs[i];
  }

  /** `t0 + g0 + t1 + g1 + ... + tn`: fields `ts` separated by gaps `gaps`. */
  function Interleave(ts: seq<string>, gaps: seq<string>): string
    requires |ts| == |gaps| + 1
  {
    if |ts| == 1 then ts[0] else ts[0] + gaps[0] + Interleave(ts[1..], gaps[1..])
  }

  predicate IsGap(g: string) {
    g != "" && AllSpace(g)
  }

  /** Fields free of whitespace whose inner members are non-empty. */
  predicate WellSeparated(ts: seq<string>) {
    (forall i :: 0 <= i < |ts| ==> NoSpace(ts[i])) &&
    (forall i :: 0 < i < |ts| - 1 ==> ts[i] != "")
  }

  lemma {:induction false} WordLenOf(t: string, rest: string)
    requires NoSpace(t) && (rest == "" || IsSpace(rest[0]))
    ensures WordLen(t + rest) == |t|
  {
    var u := t + rest;
    assert forall j :: 0 <= j < |t| ==> u[j] == t[j];
    assert rest != "" ==> u[|t|] == rest[0];
  }

  lemma {:induction false} SpaceLenOf(g: string, rest: string)
    requires AllSpace(g) && (rest == "" || !IsSpace(rest[0]))
    ensures SpaceLen(g + rest) == |g|
  {
    var u := g + rest;
    assert forall j :: 0 <= j < |g| ==> u[j] == g[j];
    assert rest != "" ==> u[|g|] == rest[0];
  }

  /** A field, a gap, then something that does not start with whitespace. */
  lemma {:induction false} FieldsCons(t: string, g: string, x: string)
    requires NoSpace(t) && IsGap(g) && (x == "" || !IsSpace(x[0]))
    ensures Fields(t + g + x) == [t] + Fields(x)
  {
    var s := t + g + x;
    WordLenOf(t, g + x);
    assert s == t + (g + x);
    assert s[|t|..] == g + x;
    SpaceLenOf(g, x);
    assert s[..|t|] == t;
    assert s[|t| + |g|..] == x;
  }

  /** Cutting a laid-out string at its whitespace gives back its fields. */
  lemma {:induction false} FieldsInterleave(ts: seq<string>, gaps: seq<string>)
    requires |ts| == |gaps| + 1
    requires WellSeparated(ts)
    requires forall i :: 0 <= i < |gaps| ==> IsGap(gaps[i])
    ensures Fields(Interleave(ts, gaps)) == ts
    decreases |ts|
  {
    if |ts| == 1 {
      WordLenOf(ts[0], "");
      assert ts[0] + "" == ts[0];
    } else {
      var x := Interleave(ts[1..], gaps[1..]);
      assert WellSeparated(ts[1..]);
      FieldsInterleave(ts[1..], gaps[1..]);
      assert x == "" || !IsSpace(x[0]) by {
        if |ts| > 2 {
          assert ts[1] != "";
          assert x == ts[1] + gaps[1] + Interleave(ts[2..], gaps[2..]);
          assert x[0] == ts[1][0];
        } else {
          assert x == ts[1];
        }
      }
      FieldsCons(ts[0], gaps[0], x);
      assert ts == [ts[0]] + ts[1..];
    }
  }

  lemma {:induction false} InterleaveSnoc(ts: seq<string>, gaps: seq<string>, g: string)
    requires |ts| == |gaps| + 1
    ensures Interleave(ts + [""], gaps + [g]) == Interleave(ts, gaps) + g
    decreases |ts|
  {
    if |ts| == 1 {
      assert Interleave(ts + [""], gaps + [g]) == ts[0] + g + Interleave([""], []);
    } else {
      assert (ts + [""])[1..] == ts[1..] + [""];
      assert (gaps + [g])[1..] == gaps[1..] + [g];
      InterleaveSnoc(ts[1..], gaps[1..], g);
    }
  }

  /** Leading whitespace becomes an empty first field before a gap. */
  function WithLead(lead: string, ts: seq<string>, gaps: seq<string>): (r: (seq<string>, seq<string>))
    requires |ts| == |gaps| + 1
    ensures |r.0| == |r.1| + 1
  {
    if lead == "" then (ts, gaps) else ([""] + ts, [lead] + gaps)
  }

  /** Trailing whitespace becomes a gap before an empty last field. */
  function WithTrail(ts: seq<string>, gaps: seq<string>, trail: string): (r: (seq<string>, seq<string>))
    requires |ts| == |gaps| + 1
    ensures |r.0| == |r.1| + 1
  {
    if trail == "" then (ts, gaps) else (ts + [""], gaps + [trail])
  }

  lemma {:induction false} WithLeadLayout(lead: string, ts: seq<string>, gaps: seq<string>)
    requires |ts| == |gaps| + 1
    ensures var (ts1, gaps1) := WithLead(lead, ts, gaps); Interleave(ts1, gaps1) == lead + Interleave(ts, gaps)
  {
    if lead != "" {
      var (ts1, gaps1) := WithLead(lead, ts, gaps);
      assert ts1 == [""] + ts && gaps1 == [lead] + gaps;
      assert ts1[0] == "" && gaps1[0] == lead;
      assert ts1[1..] == ts && gaps1[1..] == gaps;
      assert Interleave(ts1, gaps1) == "" + lead + Interleave(ts, gaps);
    }
  }

  lemma {:induction false} WithTrailLayout(ts: seq<string>, gaps: seq<string>, trail: string)
    requires |ts| == |gaps| + 1
    ensures var (ts2, gaps2) := WithTrail(ts, gaps, trail); Interleave(ts2, gaps2) == Interleave(ts, gaps) + trail
  {
    if trail != "" {
      InterleaveSnoc(ts, gaps, trail);
    } else {
      assert Interleave(ts, gaps) + trail == Interleave(ts, gaps);
    }
  }

  /**
   * Round trip: tokens laid out with whitespace gaps, optional leading and
   * trailing whitespace, split back into the tokens, preceded by one empty
   * field when there is leading whitespace.
   */
  lemma {:induction false} SplitWsRoundTrip(lead: string, ts: seq<string>, gaps: seq<string>, trail: string)
    requires AllSpace(lead) && AllSpace(trail)
    requires ts != [] && |ts| == |gaps| + 1
    requires forall i :: 0 <= i < |ts| ==> ts[i] != "" && NoSpace(ts[i])
    requires forall i :: 0 <= i < |gaps| ==> IsGap(gaps[i])
    ensures SplitWs(lead + Interleave(ts, gaps) + trail) == (if lead == "" then [] else [""]) + ts
  {
    var (ts1, gaps1) := WithLead(lead, ts, gaps);
    var (ts2, gaps2) := WithTrail(ts1, gaps1, trail);
    WithLeadLayout(lead, ts, gaps);
    WithTrailLayout(ts1, gaps1, trail);
    assert ts1 == (if lead == "" then [] else [""]) + ts;
    assert forall i :: 0 <= i < |gaps2| ==> IsGap(gaps2[i]);
    assert WellSeparated(ts2);
    FieldsInterleave(ts2, gaps2);
    assert ts1[|ts1| - 1] == ts[|ts| - 1];
    if trail != "" {
      assert ts2[..|ts2| - 1] == ts1;
    }
  }
}
