/**
 * The text sanitizer of a run: `encode('UTF-8', 'binary', invalid: :replace,
 * undef: :replace, replace: '')`. The input is read as ASCII-8BIT, where every
 * byte of 0x80 or more has no UTF-8 counterpart and is replaced by the empty
 * string, so the conversion is a filter that keeps the ASCII bytes.
 */
module Sanitizer {

  /** A byte of a binary (ASCII-8BIT) string: one character per byte. */
  type Byte = c: char | c as int < 0x100 witness 'a'

  predicate IsAscii(c: char) {
    c as int < 0x80
  }

  predicate AllAscii(s: seq<char>) {
    forall i :: 0 <= i < |s| ==> IsAscii(s[i])
  }

  /** Number of occurrences of bytes that are not ASCII. */
  function HighCount(s: seq<Byte>): nat {
    if s == [] then 0 else (if IsAscii(s[0]) then 0 else 1) + HighCount(s[1..])
  }

  /** Deletes every byte that is not ASCII, keeping the others in order. */
  function Sanitize(s: seq<Byte>): (r: seq<Byte>)
    ensures AllAscii(r)
    ensures |r| == |s| - HighCount(s)
  {
    if s == [] then []
    else (if IsAscii(s[0]) then [s[0]] else []) + Sanitize(s[1..])
  }

  /** Sanitizing works byte by byte: it distributes over concatenation. */
  lemma {:induction false} SanitizeAppend(a: seq<Byte>, b: seq<Byte>)
    ensures Sanitize(a + b) == Sanitize(a) + Sanitize(b)
  {
    if a == [] {
      assert a + b == b;
    } else {
      assert (a + b)[0] == a[0];
      assert (a + b)[1..] == a[1..] + b;
      SanitizeAppend(a[1..], b);
    }
  }

  /** Every ASCII byte survives as often as it occurred; no other byte survives. */
  lemma {:induction false} SanitizeCounts(s: seq<Byte>, c: Byte)
    ensures multiset(Sanitize(s))[c] == if IsAscii(c) then multiset(s)[c] else 0
  {
    if s != [] {
      SanitizeCounts(s[1..], c);
      assert s == [s[0]] + s[1..];
      assert multiset(s) == multiset([s[0]]) + multiset(s[1..]);
    }
  }

  /** Text that is already ASCII comes back unchanged, and only such text does. */
  lemma {:induction false} SanitizeFixpoint(s: seq<Byte>)
    ensures Sanitize(s) == s <==> AllAscii(s)
  {
    if s != [] {
      SanitizeFixpoint(s[1..]);
      assert AllAscii(s) <==> IsAscii(s[0]) && AllAscii(s[1..]);
    }
  }

  /** Sanitizing twice gives what sanitizing once gives. */
  lemma {:induction false} SanitizeIdempotent(s: seq<Byte>)
    ensures Sanitize(Sanitize(s)) == Sanitize(s)
  {
    SanitizeFixpoint(Sanitize(s));
  }

  /** The output is as long as the input exactly when nothing was deleted. */
  lemma {:induction false} SanitizeLengthPreserved(s: seq<Byte>)
    ensures |Sanitize(s)| == |s| <==> AllAscii(s)
  {
    if s != [] {
      SanitizeLengthPreserved(s[1..]);
      assert AllAscii(s) <==> IsAscii(s[0]) && AllAscii(s[1..]);
    }
  }
}
