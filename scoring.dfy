/**
 * Scoring of a run from its status string: one entry per test, `"ok"` worth
 * `100 / n` points for `n` tests, any other token kept as an opaque label.
 * Ruby's BigDecimal quotient is modelled as an exact `real`.
 */
module Scoring {
  import opened Tokens

  /** An entry of `points_float`: a BigDecimal, or the token itself. */
  datatype Score = Num(value: real) | Label(text: string)

  /** An entry of `points`: an Integer, or the token itself. */
  datatype Point = Whole(value: int) | Mark(text: string)

  const Ok: string := "ok"

  /**
   * `BigDecimal("100") / total_tests`, the worth of one passed test. Ruby
   * only evaluates it for an `"ok"` token, so never with zero tests; the
   * value given for zero is never used.
   */
  function PerTest(n: nat): real {
    if n == 0 then 0.0 else 100.0 / n as real
  }

  function ScoreOf(token: string, perTest: real): Score {
    if token == Ok then Num(perTest) else Label(token)
  }

  /** `tokens.map { |out| out == "ok" ? perTest : out }`. */
  function ScoresOf(tokens: seq<string>, perTest: real): (r: seq<Score>)
    ensures |r| == |tokens|
    ensures forall i :: 0 <= i < |r| ==> r[i] == ScoreOf(tokens[i], perTest)
  {
    if tokens == [] then [] else [ScoreOf(tokens[0], perTest)] + ScoresOf(tokens[1..], perTest)
  }

  /** `points_float`. */
  function PointsFloat(status: string): seq<Score> {
    var tokens := SplitWs(status);
    ScoresOf(tokens, PerTest(|tokens|))
  }

  /** The contribution of an entry to a sum: its number, or 0 for a label. */
  function NumValue(s: Score): real {
    match s
    case Num(x) => x
    case Label(_) => 0.0
  }

  function SumNums(scores: seq<Score>): real {
    if scores == [] then 0.0 else NumValue(scores[0]) + SumNums(scores[1..])
  }

  /** `total_points_float`: the sum of the numeric entries of `points_float`. */
  function TotalPointsFloat(status: string): real {
    SumNums(PointsFloat(status))
  }

  /** BigDecimal's default rounding, ROUND_HALF_UP: a tie goes away from zero. */
  function RoundHalfUp(x: real): (r: int)
    ensures x >= 0.0 ==> x - 0.5 < r as real <= x + 0.5
    ensures x < 0.0 ==> x - 0.5 <= r as real < x + 0.5
  {
    if x >= 0.0 then (x + 0.5).Floor else -((0.5 - x).Floor)
  }

  /** The value `update_total_points` stores: the rounded total. */
  function TotalPoints(status: string): int {
    RoundHalfUp(TotalPointsFloat(status))
  }

  function RoundScore(s: Score): Point {
    match s
    case Num(x) => Whole(RoundHalfUp(x))
    case Label(t) => Mark(t)
  }

  function RoundAll(scores: seq<Score>): (r: seq<Point>)
    ensures |r| == |scores|
    ensures forall i :: 0 <= i < |r| ==> r[i] == RoundScore(scores[i])
  {
    if scores == [] then [] else [RoundScore(scores[0])] + RoundAll(scores[1..])
  }

  /** `points`: `points_float` with every number rounded to an Integer. */
  function Points(status: string): seq<Point> {
    RoundAll(PointsFloat(status))
  }

  function CountOk(tokens: seq<string>): (c: nat)
    ensures c <= |tokens|
  {
    if tokens == [] then 0 else (if tokens[0] == Ok then 1 else 0) + CountOk(tokens[1..])
  }

  predicate AllOk(tokens: seq<string>) {
    forall i :: 0 <= i < |tokens| ==> tokens[i] == Ok
  }

  /**
   * One entry per token of `status.split(/\s+/)`, in order: `Num(100 / n)`
   * for each `"ok"`, the token itself as a label otherwise.
   */
  lemma {:induction false} PointsFloatShape(status: string)
    ensures var tokens := SplitWs(status);
      |PointsFloat(status)| == |tokens| &&
      forall i :: 0 <= i < |tokens| ==>
        PointsFloat(status)[i] ==
          if tokens[i] == Ok then Num(100.0 / |tokens| as real) else Label(tokens[i])
  {
  }

  /** `c` shares of `q` points each: `q + q + ... + q`. */
  function Repeated(c: nat, q: real): real {
    if c == 0 then 0.0 else q + Repeated(c - 1, q)
  }

  lemma {:induction false} SumScoresOf(tokens: seq<string>, perTest: real)
    ensures SumNums(ScoresOf(tokens, perTest)) == Repeated(CountOk(tokens), perTest)
  {
    if tokens != [] {
      SumScoresOf(tokens[1..], perTest);
      assert ScoresOf(tokens, perTest)[1..] == ScoresOf(tokens[1..], perTest);
    }
  }

  lemma {:induction false} AllOkCount(tokens: seq<string>)
    ensures CountOk(tokens) == |tokens| <==> AllOk(tokens)
  {
    if tokens != [] {
      AllOkCount(tokens[1..]);
      assert AllOk(tokens) <==> tokens[0] == Ok && AllOk(tokens[1..]);
    }
  }

  /** The points of the `"ok"` tokens among all tokens. */
  function OkShare(tokens: seq<string>): real {
    Repeated(CountOk(tokens), PerTest(|tokens|))
  }

  /** The total is the number of `"ok"` tokens times the worth of one test. */
  lemma {:induction false} TotalPointsFloatValue(status: string)
    ensures TotalPointsFloat(status) == OkShare(SplitWs(status))
  {
    var tokens := SplitWs(status);
    assert PointsFloat(status) == ScoresOf(tokens, PerTest(|tokens|));
    SumScoresOf(tokens, PerTest(|tokens|));
  }

  /**
   * `total_points_float` is the number of passed tests times the worth of
   * one test, for `tests` tokens of which `passed` are `"ok"`.
   */
  lemma {:induction false} TotalPointsFloatProduct(status: string, passed: nat, tests: nat)
    requires passed == CountOk(SplitWs(status)) && tests == |SplitWs(status)|
    ensures TotalPointsFloat(status) == passed as real * PerTest(tests)
  {
    TotalPointsFloatValue(status);
    RepeatedMul(passed, PerTest(tests));
  }

  lemma {:induction false} RepeatedMul(c: nat, q: real)
    ensures Repeated(c, q) == c as real * q
  {
    if c > 0 {
      RepeatedMul(c - 1, q);
    }
  }

  /** `c` of `n` tests at a worth of `100 / n` each make between 0 and 100 points. */
  lemma {:induction false} ShareBound(c: nat, n: nat, q: real)
    requires c <= n && q >= 0.0 && n as real * q == 100.0
    ensures 0.0 <= c as real * q <= 100.0
    ensures c == n ==> c as real * q == 100.0
  {
    assert (n - c) as real * q >= 0.0;
  }

  lemma {:induction false} PerTestBack(n: nat)
    requires n > 0
    ensures n as real * PerTest(n) == 100.0 && 0.0 < PerTest(n) <= 100.0
  {
  }

  lemma {:induction false} OkShareBounds(tokens: seq<string>)
    ensures 0.0 <= OkShare(tokens) <= 100.0
    ensures tokens != [] && AllOk(tokens) ==> OkShare(tokens) == 100.0
  {
    var c, n := CountOk(tokens), |tokens|;
    if n > 0 {
      PerTestBack(n);
      RepeatedMul(c, PerTest(n));
      ShareBound(c, n, PerTest(n));
      AllOkCount(tokens);
    }
  }

  /** The total lies in [0, 100] and is exactly 100 when every test passed. */
  lemma {:induction false} TotalPointsFloatRange(status: string)
    ensures 0.0 <= TotalPointsFloat(status) <= 100.0
    ensures SplitWs(status) != [] && AllOk(SplitWs(status)) ==> TotalPointsFloat(status) == 100.0
  {
    TotalPointsFloatValue(status);
    OkShareBounds(SplitWs(status));
  }

  /**
   * The rounded total is an integer in [0, 100], 100 when every test passed,
   * and 0 when the status holds no token at all.
   */
  lemma {:induction false} TotalPointsRange(status: string)
    ensures 0 <= TotalPoints(status) <= 100
    ensures SplitWs(status) != [] && AllOk(SplitWs(status)) ==> TotalPoints(status) == 100
    ensures AllSpace(status) ==> PointsFloat(status) == [] && TotalPoints(status) == 0
  {
    TotalPointsFloatRange(status);
    SplitWsEmpty(status);
  }

  /**
   * `points` has one entry per entry of `points_float`: each number rounded
   * half up, each label unchanged; every `"ok"` gets the same whole number
   * of points, between 0 and 100.
   */
  lemma {:induction false} PointsShape(status: string)
    ensures |Points(status)| == |PointsFloat(status)|
    ensures forall i :: 0 <= i < |Points(status)| ==>
      match PointsFloat(status)[i]
      case Num(x) => Points(status)[i] == Whole(RoundHalfUp(x))
      case Label(t) => Points(status)[i] == Mark(t)
    ensures var tokens := SplitWs(status);
      forall i :: 0 <= i < |tokens| && tokens[i] == Ok ==>
        Points(status)[i] == Whole(RoundHalfUp(100.0 / |tokens| as real)) &&
        0 <= RoundHalfUp(100.0 / |tokens| as real) <= 100
  {
    var tokens := SplitWs(status);
    if tokens != [] {
      PerTestBack(|tokens|);
    }
  }

  /** Rounding a sum ending in exactly .5 goes up. */
  lemma {:induction false} RoundHalfUpTie(k: nat)
    ensures RoundHalfUp(k as real + 0.5) == k + 1
  {
  }

  lemma {:induction false} ExampleOk()
    ensures PointsFloat("ok") == [Num(100.0)] && TotalPoints("ok") == 100
  {
    SplitWsRoundTrip("", ["ok"], [], "");
    assert "" + Interleave(["ok"], []) + "" == "ok";
    TotalPointsRange("ok");
  }

  lemma {:induction false} SplitOkWrongOk()
    ensures SplitWs("ok wrong ok") == ["ok", "wrong", "ok"]
  {
    var tokens := ["ok", "wrong", "ok"];
    assert Interleave(["ok"], []) == "ok";
    assert Interleave(["wrong", "ok"], [" "]) == "wrong" + " " + "ok";
    assert tokens[1..] == ["wrong", "ok"];
    assert Interleave(tokens, [" ", " "]) == "ok" + " " + ("wrong" + " " + "ok");
    assert "" + Interleave(tokens, [" ", " "]) + "" == "ok wrong ok";
    SplitWsRoundTrip("", tokens, [" ", " "], "");
  }

  lemma {:induction false} ExampleOkWrongOk()
    ensures PointsFloat("ok wrong ok") == [Num(100.0 / 3.0), Label("wrong"), Num(100.0 / 3.0)]
    ensures TotalPoints("ok wrong ok") == 67
  {
    var tokens := ["ok", "wrong", "ok"];
    SplitOkWrongOk();
    var scores := ScoresOf(tokens, PerTest(3));
    assert PointsFloat("ok wrong ok") == scores;
    assert scores[0] == Num(100.0 / 3.0) && scores[1] == Label("wrong") && scores[2] == Num(100.0 / 3.0);
    TotalPointsFloatValue("ok wrong ok");
    assert CountOk(tokens) == 2;
  }

  /** Leading whitespace adds an empty label and counts as a test. */
  lemma {:induction false} ExampleLeadingSpace()
    ensures PointsFloat(" ok") == [Label(""), Num(50.0)] && TotalPoints(" ok") == 50
  {
    SplitWsRoundTrip(" ", ["ok"], [], "");
    assert " " + Interleave(["ok"], []) + "" == " ok";
    TotalPointsFloatValue(" ok");
    assert CountOk(["", "ok"]) == 1;
  }

  lemma {:induction false} ExampleEmpty()
    ensures PointsFloat("") == [] && TotalPoints("") == 0
  {
    TotalPointsRange("");
  }
}
