/**
 * Metrics extraction from a run's log: `log.scan(/Used time: ([0-9\.]+)/)`
 * and `log.scan(/Used mem: ([0-9]+)/)`, each capture converted to a number,
 * and the maximum of each kind (`nil` when there is no match).
 */
module Metrics {
  import opened Wrappers

  /** The character class after the literal: `[0-9]` or `[0-9\.]`. */
  datatype CharClass = Digits | DigitsOrDot

  predicate IsDigit(c: char) {
    '0' <= c <= '9'
  }

  predicate InClass(c: char, cls: CharClass) {
    IsDigit(c) || (cls == DigitsOrDot && c == '.')
  }

  predicate AllIn(s: string, cls: CharClass) {
    forall i :: 0 <= i < |s| ==> InClass(s[i], cls)
  }

  const TimeTag: string := "Used time: "
  const MemTag: string := "Used mem: "

  /** Length of the longest prefix of `s` inside the class. */
  function RunLen(s: string, cls: CharClass): (k: nat)
    ensures k <= |s|
    ensures forall j :: 0 <= j < k ==> InClass(s[j], cls)
    ensures k < |s| ==> !InClass(s[k], cls)
  {
    if s == [] || !InClass(s[0], cls) then 0 else 1 + RunLen(s[1..], cls)
  }

  /** The pattern `tag` followed by one or more class characters matches at `i`. */
  predicate MatchAt(s: string, tag: string, cls: CharClass, i: nat) {
    i + |tag| < |s| && s[i..i + |tag|] == tag && InClass(s[i + |tag|], cls)
  }

  /** Where the greedy match at `i` ends. */
  function MatchEnd(s: string, tag: string, cls: CharClass, i: nat): (e: nat)
    requires MatchAt(s, tag, cls, i)
    ensures i + |tag| < e <= |s|
  {
    var k := RunLen(s[i + |tag|..], cls);
    assert k > 0;
    i + |tag| + k
  }

  predicate IsCapture(c: string, cls: CharClass) {
    c != [] && AllIn(c, cls)
  }

  /** The captured group of the match at `i`: the maximal class run after the tag. */
  function CaptureAt(s: string, tag: string, cls: CharClass, i: nat): (c: string)
    requires MatchAt(s, tag, cls, i)
    ensures IsCapture(c, cls)
  {
    var b := i + |tag|;
    var c := s[b..MatchEnd(s, tag, cls, i)];
    assert forall j :: 0 <= j < |c| ==> c[j] == s[b..][j];
    c
  }

  /**
   * Where `String#scan` finds its matches from position `p` on: the leftmost
   * match, then the scan goes on after its end, so matches never overlap.
   */
  function MatchStarts(s: string, tag: string, cls: CharClass, p: nat): (starts: seq<nat>)
    requires p <= |s|
    ensures forall k :: 0 <= k < |starts| ==> p <= starts[k] && MatchAt(s, tag, cls, starts[k])
    decreases |s| - p
  {
    if p == |s| then []
    else if MatchAt(s, tag, cls, p) then [p] + MatchStarts(s, tag, cls, MatchEnd(s, tag, cls, p))
    else MatchStarts(s, tag, cls, p + 1)
  }

  /** `s.scan(/tag(cls+)/)` from position `p`: the captured groups, in order. */
  function Scan(s: string, tag: string, cls: CharClass, p: nat): (caps: seq<string>)
    requires p <= |s|
    ensures forall k :: 0 <= k < |caps| ==> IsCapture(caps[k], cls)
  {
    var starts := MatchStarts(s, tag, cls, p);
    seq(|starts|, k requires 0 <= k < |starts| => CaptureAt(s, tag, cls, starts[k]))
  }

  /**
   * A tag that cannot start inside a match of itself: its first character
   * occurs nowhere else in it and is not in the class.
   */
  predicate Unambiguous(tag: string, cls: CharClass) {
    tag != [] && !InClass(tag[0], cls) && forall k :: 0 < k < |tag| ==> tag[k] != tag[0]
  }

  /** A match begins with the tag's first character. */
  lemma {:induction false} TagStart(s: string, tag: string, cls: CharClass, i: nat)
    requires tag != []
    ensures MatchAt(s, tag, cls, i) ==> s[i] == tag[0]
  {
    if MatchAt(s, tag, cls, i) {
      assert s[i] == s[i..i + |tag|][0];
    }
  }

  /** A match that begins strictly inside the match at `p` is impossible. */
  lemma {:induction false} NoMatchInside(s: string, tag: string, cls: CharClass, p: nat, i: nat)
    requires Unambiguous(tag, cls)
    requires MatchAt(s, tag, cls, p) && MatchAt(s, tag, cls, i)
    requires p < i
    ensures MatchEnd(s, tag, cls, p) <= i
  {
    var b, e := p + |tag|, MatchEnd(s, tag, cls, p);
    assert s[i] == tag[0] by {
      assert s[i] == s[i..i + |tag|][0];
    }
    assert forall j :: p < j < b ==> s[j] == s[p..b][j - p];
    assert forall j :: b <= j < e ==> s[j] == s[b..][j - b];
  }

  /**
   * With an unambiguous tag no match is skipped: every match at or after `p`
   * is one the scan finds.
   */
  lemma {:induction false} ScanComplete(s: string, tag: string, cls: CharClass, p: nat, i: nat)
    requires Unambiguous(tag, cls)
    requires p <= i && p <= |s| && MatchAt(s, tag, cls, i)
    ensures i in MatchStarts(s, tag, cls, p)
    decreases |s| - p
  {
    if p == i {
    } else if MatchAt(s, tag, cls, p) {
      NoMatchInside(s, tag, cls, p, i);
      ScanComplete(s, tag, cls, MatchEnd(s, tag, cls, p), i);
    } else {
      ScanComplete(s, tag, cls, p + 1, i);
    }
  }

  lemma {:induction false} TagsUnambiguous()
    ensures Unambiguous(TimeTag, DigitsOrDot) && Unambiguous(MemTag, Digits)
  {
    assert TimeTag == ['U', 's', 'e', 'd', ' ', 't', 'i', 'm', 'e', ':', ' '];
    assert MemTag == ['U', 's', 'e', 'd', ' ', 'm', 'e', 'm', ':', ' '];
  }

  function DigitValue(c: char): nat
    requires IsDigit(c)
  {
    c as int - '0' as int
  }

  /** `String#to_i` of a run of digits. */
  function DigitsValue(s: string): nat
    requires AllIn(s, Digits)
  {
    if s == [] then 0 else 10 * DigitsValue(s[..|s| - 1]) + DigitValue(s[|s| - 1])
  }

  function Pow10(n: nat): (r: nat)
    ensures r > 0
  {
    if n == 0 then 1 else 10 * Pow10(n - 1)
  }

  /**
   * `BigDecimal.new` of a `[0-9.]+` capture, read as `digits[.digits]`: the
   * digits before the first dot are the whole part, the digits between it
   * and any further dot the fraction.
   */
  function ParseDecimal(s: string): (v: real)
    requires AllIn(s, DigitsOrDot)
    ensures v >= 0.0
  {
    var k := RunLen(s, Digits);
    var whole := DigitsValue(s[..k]) as real;
    if k == |s| then whole
    else
      var rest := s[k + 1..];
      var f := rest[..RunLen(rest, Digits)];
      whole + DigitsValue(f) as real / Pow10(|f|) as real
  }

  lemma {:induction false} DigitsBelow(s: string)
    requires AllIn(s, Digits)
    ensures DigitsValue(s) < Pow10(|s|)
  {
    if s != [] {
      DigitsBelow(s[..|s| - 1]);
    }
  }

  lemma {:induction false} FractionFloor(w: nat, a: nat, b: nat)
    requires a < b
    ensures (w as real + a as real / b as real).Floor == w
  {
    var q := a as real / b as real;
    assert q * b as real == a as real;
    assert 0.0 <= q < 1.0;
  }

  /** The whole part of a parsed time is the number its leading digits spell. */
  lemma {:induction false} ParseDecimalFloor(s: string)
    requires AllIn(s, DigitsOrDot)
    ensures ParseDecimal(s).Floor == DigitsValue(s[..RunLen(s, Digits)])
  {
    var k := RunLen(s, Digits);
    if k < |s| {
      var rest := s[k + 1..];
      var f := rest[..RunLen(rest, Digits)];
      DigitsBelow(f);
      FractionFloor(DigitsValue(s[..k]), DigitsValue(f), Pow10(|f|));
    }
  }

  /** The greedy run is exactly `k` long when `k` class characters end at a non-class one. */
  lemma {:induction false} RunLenIs(s: string, cls: CharClass, k: nat)
    requires k <= |s| && (forall j :: 0 <= j < k ==> InClass(s[j], cls))
    requires k < |s| ==> !InClass(s[k], cls)
    ensures RunLen(s, cls) == k
  {
  }

  /** Digits up to a dot (or the end): the run stops there. */
  lemma {:induction false} DigitsThenDot(a: string, b: string)
    requires AllIn(a, Digits) && (b == [] || b[0] == '.')
    ensures RunLen(a + b, Digits) == |a| && (a + b)[..|a|] == a
  {
    assert forall j :: 0 <= j < |a| ==> (a + b)[j] == a[j];
    assert |a| < |a + b| ==> (a + b)[|a|] == b[0];
    RunLenIs(a + b, Digits, |a|);
    assert (a + b)[..|a|] == a;
  }

  lemma {:induction false} AppendAllIn(a: string, b: string, cls: CharClass)
    requires AllIn(a, cls) && AllIn(b, cls)
    ensures AllIn(a + b, cls)
  {
    assert forall j :: 0 <= j < |a + b| ==> (a + b)[j] == if j < |a| then a[j] else b[j - |a|];
  }

  lemma {:induction false} ShiftDigits(x: nat, p: nat, y: nat, d: nat)
    ensures 10 * (x * p + y) + d == x * (10 * p) + (10 * y + d)
  {
  }

  /** Digits read left to right: appending `b` shifts `a` by `|b|` places. */
  lemma {:induction false} DigitsAppend(a: string, b: string)
    requires AllIn(a, Digits) && AllIn(b, Digits)
    ensures AllIn(a + b, Digits)
    ensures DigitsValue(a + b) == DigitsValue(a) * Pow10(|b|) + DigitsValue(b)
    decreases |b|
  {
    assert forall j :: 0 <= j < |a + b| ==> (a + b)[j] == if j < |a| then a[j] else b[j - |a|];
    if b == [] {
      assert a + b == a;
    } else {
      var b' := b[..|b| - 1];
      var d := b[|b| - 1];
      assert AllIn(b', Digits);
      assert (a + b)[..|a + b| - 1] == a + b';
      assert (a + b)[|a + b| - 1] == d;
      DigitsAppend(a, b');
      ShiftDigits(DigitsValue(a), Pow10(|b'|), DigitsValue(b'), DigitValue(d));
    }
  }

  /** The number a digit string spells, read with `scale` of its digits after the point. */
  function DecimalValue(digits: string, scale: nat): real
    requires AllIn(digits, Digits)
  {
    DigitsValue(digits) as real / Pow10(scale) as real
  }

  /** `x + y / p` over one denominator. */
  lemma {:induction false} FractionSum(x: nat, y: nat, p: nat, z: nat)
    requires p > 0 && z == x * p + y
    ensures x as real + y as real / p as real == z as real / p as real
  {
    assert (x * p) as real == x as real * p as real;
    assert (x * p) as real / p as real == x as real;
  }

  /** A capture that is all digits is read as that integer. */
  lemma {:induction false} ParseDecimalWhole(w: string)
    requires AllIn(w, Digits)
    ensures ParseDecimal(w) == DigitsValue(w) as real
  {
    RunLenIs(w, Digits, |w|);
    assert w[..|w|] == w;
  }

  /** `ParseDecimal` once the whole part `w` and the fraction `f` have been located. */
  lemma {:induction false} ParseDecimalAt(s: string, w: string, f: string)
    requires AllIn(s, DigitsOrDot) && AllIn(w, Digits) && AllIn(f, Digits)
    requires |w| < |s| && RunLen(s, Digits) == |w| && s[..|w|] == w
    requires RunLen(s[|w| + 1..], Digits) == |f| && s[|w| + 1..][..|f|] == f
    ensures ParseDecimal(s) == DigitsValue(w) as real + DigitsValue(f) as real / Pow10(|f|) as real
  {
  }

  /** The parts of `s == w.f` followed by nothing or by a second dot. */
  lemma {:induction false} ParseDecimalParts(s: string, w: string, f: string, rest: string)
    requires AllIn(w, Digits) && AllIn(f, Digits) && AllIn(rest, DigitsOrDot)
    requires rest == [] || rest[0] == '.'
    requires s == w + "." + f + rest
    ensures AllIn(s, DigitsOrDot)
    ensures ParseDecimal(s) == DigitsValue(w) as real + DigitsValue(f) as real / Pow10(|f|) as real
  {
    var t := f + rest;
    assert AllIn(s, DigitsOrDot) by {
      assert AllIn(w, DigitsOrDot) && AllIn(f, DigitsOrDot);
      AppendAllIn(f, rest, DigitsOrDot);
      AppendAllIn(w, ".", DigitsOrDot);
      AppendAllIn(w + ".", t, DigitsOrDot);
      assert s == w + "." + t;
    }
    assert RunLen(s, Digits) == |w| && s[..|w|] == w && s[|w| + 1..] == t by {
      assert s == w + ("." + t);
      DigitsThenDot(w, "." + t);
    }
    DigitsThenDot(f, rest);
    ParseDecimalAt(s, w, f);
  }

  /**
   * `w.f`, with whatever follows from a second dot on, is read as the
   * number spelled by the digits of `w` and `f` together, with the digits
   * of `f` after the point.
   */
  lemma {:induction false} ParseDecimalFraction(w: string, f: string, rest: string)
    requires AllIn(w, Digits) && AllIn(f, Digits) && AllIn(rest, DigitsOrDot)
    requires rest == [] || rest[0] == '.'
    ensures AllIn(w + "." + f + rest, DigitsOrDot) && AllIn(w + f, Digits)
    ensures ParseDecimal(w + "." + f + rest) == DecimalValue(w + f, |f|)
  {
    ParseDecimalParts(w + "." + f + rest, w, f, rest);
    DigitsAppend(w, f);
    FractionSum(DigitsValue(w), DigitsValue(f), Pow10(|f|), DigitsValue(w + f));
  }

  lemma {:induction false} ExampleParseDecimal()
    ensures ParseDecimal("1.234") == 1.234
  {
    assert RunLen("1.234", Digits) == 1;
    assert "1.234"[..1] == "1";
    assert "1.234"[2..] == "234";
    assert RunLen("234", Digits) == 3;
    assert "234"[..3] == "234";
    assert DigitsValue("234") == 234 by {
      assert "234"[..2] == "23";
      assert "23"[..1] == "2";
      assert "2"[..0] == "";
    }
  }

  /** `le` is a total preorder: any two elements compare, and comparison chains. */
  ghost predicate TotalPreorder<T(!new)>(le: (T, T) -> bool) {
    (forall a: T, b: T :: le(a, b) || le(b, a)) &&
    (forall a: T, b: T, c: T :: le(a, b) && le(b, c) ==> le(a, c))
  }

  /** The maximum under `le`, `nil` for an empty list (`Array#max`). */
  function MaxBy<T(!new)>(xs: seq<T>, le: (T, T) -> bool): (m: Option<T>)
    requires TotalPreorder(le)
    ensures m.None? <==> xs == []
    ensures m.Some? ==> m.value in xs && forall i :: 0 <= i < |xs| ==> le(xs[i], m.value)
  {
    if xs == [] then None
    else
      var rest := MaxBy(xs[1..], le);
      if rest.None? || le(rest.value, xs[0]) then Some(xs[0]) else rest
  }

  function RealLe(a: real, b: real): bool {
    a <= b
  }

  function IntLe(a: int, b: int): bool {
    a <= b
  }

  /** Every time reported in the log, in order. */
  function TimeValues(log: string): seq<real> {
    var caps := Scan(log, TimeTag, DigitsOrDot, 0);
    seq(|caps|, k requires 0 <= k < |caps| => ParseDecimal(caps[k]))
  }

  /** Every memory figure reported in the log, in order. */
  function MemValues(log: string): seq<int> {
    var caps := Scan(log, MemTag, Digits, 0);
    seq(|caps|, k requires 0 <= k < |caps| => DigitsValue(caps[k]) as int)
  }

  /** The time `update_time_and_mem` stores for a log. */
  function MaxTime(log: string): Option<real> {
    MaxBy(TimeValues(log), RealLe)
  }

  /** The memory `update_time_and_mem` stores for a log. */
  function MaxMemory(log: string): Option<int> {
    MaxBy(MemValues(log), IntLe)
  }

  predicate TimeAt(log: string, i: nat) {
    MatchAt(log, TimeTag, DigitsOrDot, i)
  }

  predicate MemAt(log: string, i: nat) {
    MatchAt(log, MemTag, Digits, i)
  }

  lemma {:induction false} TimeValuesComplete(log: string, i: nat)
    requires TimeAt(log, i)
    ensures ParseDecimal(CaptureAt(log, TimeTag, DigitsOrDot, i)) in TimeValues(log)
  {
    var starts := MatchStarts(log, TimeTag, DigitsOrDot, 0);
    TagsUnambiguous();
    ScanComplete(log, TimeTag, DigitsOrDot, 0, i);
    var k :| 0 <= k < |starts| && starts[k] == i;
    assert TimeValues(log)[k] == ParseDecimal(CaptureAt(log, TimeTag, DigitsOrDot, i));
  }

  lemma {:induction false} TimeValuesSound(log: string, k: nat)
    requires k < |TimeValues(log)|
    ensures TimeAt(log, MatchStarts(log, TimeTag, DigitsOrDot, 0)[k])
    ensures TimeValues(log)[k] == ParseDecimal(CaptureAt(log, TimeTag, DigitsOrDot, MatchStarts(log, TimeTag, DigitsOrDot, 0)[k]))
  {
  }

  /** No match stores `nil`; a match stores a value no match exceeds. */
  lemma {:induction false} MaxTimeBound(log: string, i: nat)
    requires TimeAt(log, i)
    ensures MaxTime(log).Some? && ParseDecimal(CaptureAt(log, TimeTag, DigitsOrDot, i)) <= MaxTime(log).value
  {
    TimeValuesComplete(log, i);
  }

  /** A stored value is the value of some match. */
  lemma {:induction false} MaxTimeAttained(log: string)
    requires MaxTime(log).Some?
    ensures exists i: nat :: TimeAt(log, i) && MaxTime(log).value == ParseDecimal(CaptureAt(log, TimeTag, DigitsOrDot, i))
  {
    var xs := TimeValues(log);
    var k :| 0 <= k < |xs| && xs[k] == MaxTime(log).value;
    TimeValuesSound(log, k);
    var i := MatchStarts(log, TimeTag, DigitsOrDot, 0)[k];
    assert TimeAt(log, i) && MaxTime(log).value == ParseDecimal(CaptureAt(log, TimeTag, DigitsOrDot, i));
  }

  /**
   * The stored time is `nil` exactly when no `Used time: ` line matches;
   * otherwise it is the figure of one match and no match reports more.
   */
  lemma {:induction false} MaxTimeSpec(log: string)
    ensures MaxTime(log).None? <==> forall i: nat :: !TimeAt(log, i)
    ensures MaxTime(log).Some? ==>
      (exists i: nat :: TimeAt(log, i) && MaxTime(log).value == ParseDecimal(CaptureAt(log, TimeTag, DigitsOrDot, i))) &&
      forall i: nat :: TimeAt(log, i) ==> ParseDecimal(CaptureAt(log, TimeTag, DigitsOrDot, i)) <= MaxTime(log).value
  {
    forall i: nat | TimeAt(log, i)
      ensures MaxTime(log).Some? && ParseDecimal(CaptureAt(log, TimeTag, DigitsOrDot, i)) <= MaxTime(log).value
    {
      MaxTimeBound(log, i);
    }
    if MaxTime(log).Some? {
      MaxTimeAttained(log);
    }
  }

  lemma {:induction false} MemValuesComplete(log: string, i: nat)
    requires MemAt(log, i)
    ensures DigitsValue(CaptureAt(log, MemTag, Digits, i)) in MemValues(log)
  {
    var starts := MatchStarts(log, MemTag, Digits, 0);
    TagsUnambiguous();
    ScanComplete(log, MemTag, Digits, 0, i);
    var k :| 0 <= k < |starts| && starts[k] == i;
    assert MemValues(log)[k] == DigitsValue(CaptureAt(log, MemTag, Digits, i));
  }

  lemma {:induction false} MemValuesSound(log: string, k: nat)
    requires k < |MemValues(log)|
    ensures MemAt(log, MatchStarts(log, MemTag, Digits, 0)[k])
    ensures MemValues(log)[k] == DigitsValue(CaptureAt(log, MemTag, Digits, MatchStarts(log, MemTag, Digits, 0)[k]))
  {
  }

  /** No match stores `nil`; a match stores a value no match exceeds. */
  lemma {:induction false} MaxMemoryBound(log: string, i: nat)
    requires MemAt(log, i)
    ensures MaxMemory(log).Some? && DigitsValue(CaptureAt(log, MemTag, Digits, i)) <= MaxMemory(log).value
  {
    MemValuesComplete(log, i);
  }

  /** A stored value is the value of some match. */
  lemma {:induction false} MaxMemoryAttained(log: string)
    requires MaxMemory(log).Some?
    ensures exists i: nat :: MemAt(log, i) && MaxMemory(log).value == DigitsValue(CaptureAt(log, MemTag, Digits, i))
  {
    var xs := MemValues(log);
    var k :| 0 <= k < |xs| && xs[k] == MaxMemory(log).value;
    MemValuesSound(log, k);
    var i := MatchStarts(log, MemTag, Digits, 0)[k];
    assert MemAt(log, i) && MaxMemory(log).value == DigitsValue(CaptureAt(log, MemTag, Digits, i));
  }

  /**
   * The stored memory is `nil` exactly when no `Used mem: ` line matches;
   * otherwise it is the figure of one match and no match reports more.
   */
  lemma {:induction false} MaxMemorySpec(log: string)
    ensures MaxMemory(log).None? <==> forall i: nat :: !MemAt(log, i)
    ensures MaxMemory(log).Some? ==>
      (exists i: nat :: MemAt(log, i) && MaxMemory(log).value == DigitsValue(CaptureAt(log, MemTag, Digits, i))) &&
      forall i: nat :: MemAt(log, i) ==> DigitsValue(CaptureAt(log, MemTag, Digits, i)) <= MaxMemory(log).value
  {
    forall i: nat | MemAt(log, i)
      ensures MaxMemory(log).Some? && DigitsValue(CaptureAt(log, MemTag, Digits, i)) <= MaxMemory(log).value
    {
      MaxMemoryBound(log, i);
    }
    if MaxMemory(log).Some? {
      MaxMemoryAttained(log);
    }
  }

  /** A log with one time line: that time is the maximum, and there is no memory. */
  lemma {:induction false} ExampleOneTimeLine()
    ensures MaxTime("Used time: 1.5") == Some(1.5)
    ensures MaxMemory("Used time: 1.5") == None
  {
    var log := "Used time: 1.5";
    assert TimeAt(log, 0) by {
      assert log[0..|TimeTag|] == TimeTag;
    }
    assert forall i: nat :: TimeAt(log, i) ==> i == 0 by {
      forall i: nat
        ensures TimeAt(log, i) ==> i == 0
      {
        TagStart(log, TimeTag, DigitsOrDot, i);
      }
    }
    assert forall i: nat :: !MemAt(log, i) by {
      forall i: nat
        ensures !MemAt(log, i)
      {
        if i + |MemTag| < |log| {
          var w := log[i..i + |MemTag|];
          assert w[0] == log[i] && w[5] == log[i + 5];
          assert log[i] != 'U' || log[i + 5] != 'm';
        }
      }
    }
    var c := CaptureAt(log, TimeTag, DigitsOrDot, 0);
    assert c == "1.5" by {
      assert log[11..] == "1.5";
      assert RunLen("1.5", DigitsOrDot) == 3;
    }
    ExampleHalves();
    MaxTimeSpec(log);
    MaxMemorySpec(log);
  }

  /** Time and memory lines interleaved, the larger time first and the larger memory last. */
  const MixedLog: string := "Used time: 1.234\n" + "Used mem: 4096\n" + "Used time: 0.5\n" + "Used mem: 8192"

  /** The time matches of `MixedLog` are its first and third lines, the memory matches the other two. */
  lemma {:induction false} MixedLogMatches()
    ensures forall i: nat :: TimeAt(MixedLog, i) <==> i == 0 || i == 32
    ensures forall i: nat :: MemAt(MixedLog, i) <==> i == 17 || i == 47
  {
    MixedLogTimeMatches();
    MixedLogMemMatches();
  }

  lemma {:induction false} MixedLogTimeMatches()
    ensures forall i: nat :: TimeAt(MixedLog, i) <==> i == 0 || i == 32
  {
    var a, b, c, d := "Used time: 1.234\n", "Used mem: 4096\n", "Used time: 0.5\n", "Used mem: 8192";
    var log := a + b + c + d;
    assert log == MixedLog;
    assert TimeAt(log, 0) && TimeAt(log, 32) by {
      assert log[0..11] == a[0..11];
      assert log[32..43] == c[0..11];
    }
    assert forall i: nat :: TimeAt(log, i) ==> i == 0 || i == 32 by {
      forall i: nat | TimeAt(log, i)
        ensures i == 0 || i == 32
      {
        var w := log[i..i + |TimeTag|];
        assert w[0] == log[i] && w[5] == log[i + 5];
        MixedLogLines(i);
      }
    }
  }

  lemma {:induction false} MixedLogMemMatches()
    ensures forall i: nat :: MemAt(MixedLog, i) <==> i == 17 || i == 47
  {
    var a, b, c, d := "Used time: 1.234\n", "Used mem: 4096\n", "Used time: 0.5\n", "Used mem: 8192";
    var log := a + b + c + d;
    assert log == MixedLog;
    assert MemAt(log, 17) && MemAt(log, 47) by {
      assert log[17..27] == b[0..10];
      assert log[47..57] == d[0..10];
    }
    assert forall i: nat :: MemAt(log, i) ==> i == 17 || i == 47 by {
      forall i: nat | MemAt(log, i)
        ensures i == 17 || i == 47
      {
        var w := log[i..i + |MemTag|];
        assert w[0] == log[i] && w[5] == log[i + 5];
        MixedLogLines(i);
      }
    }
  }

  /** The lines of `MixedLog` start at 0, 17, 32 and 47, the first and third with `Used t`. */
  lemma {:induction false} MixedLogLines(i: nat)
    requires i + 5 < |MixedLog| && MixedLog[i] == 'U'
    ensures MixedLog[i + 5] == 't' ==> i == 0 || i == 32
    ensures MixedLog[i + 5] == 'm' ==> i == 17 || i == 47
  {
  }

  /** What the time matches of `MixedLog` capture. */
  lemma {:induction false} MixedLogTimeCaptures()
    requires TimeAt(MixedLog, 0) && TimeAt(MixedLog, 32)
    ensures CaptureAt(MixedLog, TimeTag, DigitsOrDot, 0) == "1.234"
    ensures CaptureAt(MixedLog, TimeTag, DigitsOrDot, 32) == "0.5"
  {
    var a, b, c, d := "Used time: 1.234\n", "Used mem: 4096\n", "Used time: 0.5\n", "Used mem: 8192";
    var log := a + b + c + d;
    assert log == MixedLog;
    assert CaptureAt(log, TimeTag, DigitsOrDot, 0) == "1.234" by {
      RunLenIs(log[11..], DigitsOrDot, 5);
      assert log[11..16] == a[11..16];
    }
    assert CaptureAt(log, TimeTag, DigitsOrDot, 32) == "0.5" by {
      RunLenIs(log[43..], DigitsOrDot, 3);
      assert log[43..46] == c[11..14];
    }
  }

  /** What the memory matches of `MixedLog` capture. */
  lemma {:induction false} MixedLogMemCaptures()
    requires MemAt(MixedLog, 17) && MemAt(MixedLog, 47)
    ensures CaptureAt(MixedLog, MemTag, Digits, 17) == "4096"
    ensures CaptureAt(MixedLog, MemTag, Digits, 47) == "8192"
  {
    var a, b, c, d := "Used time: 1.234\n", "Used mem: 4096\n", "Used time: 0.5\n", "Used mem: 8192";
    var log := a + b + c + d;
    assert log == MixedLog;
    assert CaptureAt(log, MemTag, Digits, 17) == "4096" by {
      RunLenIs(log[27..], Digits, 4);
      assert log[27..31] == b[10..14];
    }
    assert CaptureAt(log, MemTag, Digits, 47) == "8192" by {
      RunLenIs(log[57..], Digits, 4);
      assert log[57..61] == d[10..14];
    }
  }

  lemma {:induction false} ExampleHalves()
    ensures ParseDecimal("0.5") == 0.5 && ParseDecimal("1.5") == 1.5
  {
    assert "5"[..1] == "5";
    assert ParseDecimal("0.5") == 0.5 by {
      assert RunLen("0.5", Digits) == 1;
      assert "0.5"[..1] == "0";
      assert "0.5"[2..] == "5";
    }
    assert ParseDecimal("1.5") == 1.5 by {
      assert RunLen("1.5", Digits) == 1;
      assert "1.5"[..1] == "1";
      assert "1.5"[2..] == "5";
    }
  }

  lemma {:induction false} ExampleFigures()
    ensures DigitsValue("4096") == 4096 && DigitsValue("8192") == 8192
  {
    assert DigitsValue("4") == 4 by {
      assert "4"[..0] == "";
    }
    assert DigitsValue("40") == 40 by {
      assert "40"[..1] == "4";
    }
    assert DigitsValue("409") == 409 by {
      assert "409"[..2] == "40";
    }
    assert DigitsValue("4096") == 4096 by {
      assert "4096"[..3] == "409";
    }
    assert DigitsValue("8") == 8 by {
      assert "8"[..0] == "";
    }
    assert DigitsValue("81") == 81 by {
      assert "81"[..1] == "8";
    }
    assert DigitsValue("819") == 819 by {
      assert "819"[..2] == "81";
    }
    assert DigitsValue("8192") == 8192 by {
      assert "8192"[..3] == "819";
    }
  }

  /**
   * Each maximum is taken over its own kind of line only, and the first
   * time, not the last, is the largest.
   */
  lemma {:induction false} ExampleMixedLog()
    ensures MaxTime(MixedLog) == Some(1.234)
    ensures MaxMemory(MixedLog) == Some(8192)
  {
    MixedLogMatches();
    MixedLogTimeCaptures();
    MixedLogMemCaptures();
    ExampleParseDecimal();
    ExampleHalves();
    ExampleFigures();
    MaxTimeSpec(MixedLog);
    MaxMemorySpec(MixedLog);
  }

  /** A log that reports neither figure stores `nil` for both. */
  lemma {:induction false} ExampleNoMetrics()
    ensures MaxTime("compilation error") == None
    ensures MaxMemory("compilation error") == None
  {
    var log := "compilation error";
    assert forall i: nat :: !TimeAt(log, i) && !MemAt(log, i) by {
      forall i: nat
        ensures !TimeAt(log, i) && !MemAt(log, i)
      {
        TagStart(log, TimeTag, DigitsOrDot, i);
        TagStart(log, MemTag, Digits, i);
        if i < |log| {
          assert log[i] != 'U';
        }
      }
    }
    MaxTimeSpec(log);
    MaxMemorySpec(log);
  }
}
