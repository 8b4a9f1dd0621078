/**
 * `public_class_name`: the name captured by `/public class (\w+)/i` in the
 * sanitised source, the first match counting. The source has been sanitised
 * to ASCII before it is searched, so case folding and `\w` are the ASCII ones.
 */
module ClassName {
  import opened Wrappers

  /** The literal part of the pattern, in lower case. */
  const ClassTag: string := "public class "

  /** ASCII lower-casing, the folding `/i` applies to an ASCII subject. */
  function Lower(c: char): (d: char)
    ensures 'A' <= c <= 'Z' ==> d as int == c as int + 32
    ensures !('A' <= c <= 'Z') ==> d == c
  {
    if 'A' <= c <= 'Z' then (c as int + 32) as char else c
  }

  /** `\w` on ASCII: a letter, a digit or an underscore. */
  predicate IsWordChar(c: char) {
    'a' <= c <= 'z' || 'A' <= c <= 'Z' || '0' <= c <= '9' || c == '_'
  }

  predicate AllWord(w: string) {
    forall j :: 0 <= j < |w| ==> IsWordChar(w[j])
  }

  /** The tag occurs at `i`, letters compared without regard to case. */
  predicate TagAt(s: string, i: nat) {
    i + |ClassTag| <= |s| &&
    forall j :: 0 <= j < |ClassTag| ==> Lower(s[i + j]) == ClassTag[j]
  }

  /**
   * What `/i` does to the literal: at each position of the tag the subject
   * may hold the tag character itself or, for a letter, its upper-case form.
   */
  lemma {:induction false} TagAtCaseless(s: string, i: nat)
    ensures TagAt(s, i) <==>
      i + |ClassTag| <= |s| &&
      forall j :: 0 <= j < |ClassTag| ==>
        s[i + j] == ClassTag[j] || ('a' <= ClassTag[j] <= 'z' && s[i + j] as int == ClassTag[j] as int - 32)
  {
    assert ClassTag == ['p', 'u', 'b', 'l', 'i', 'c', ' ', 'c', 'l', 'a', 's', 's', ' '];
  }

  /** The whole pattern matches at `i`: the tag, then at least one `\w`. */
  predicate MatchAt(s: string, i: nat) {
    i + |ClassTag| < |s| && TagAt(s, i) && IsWordChar(s[i + |ClassTag|])
  }

  /** The greedy `\w+` run at the start of `s`. */
  function WordRun(s: string): (w: string)
    ensures w <= s && AllWord(w)
    ensures |w| < |s| ==> !IsWordChar(s[|w|])
  {
    if s == [] || !IsWordChar(s[0]) then [] else [s[0]] + WordRun(s[1..])
  }

  /** `i` is where the leftmost match starts. */
  predicate FirstMatch(s: string, i: nat) {
    MatchAt(s, i) && forall j: nat :: j < i ==> !MatchAt(s, j)
  }

  /** The leftmost position at or after `p` where the pattern matches. */
  function FindFrom(s: string, p: nat): (r: Option<nat>)
    ensures r.None? ==> forall j: nat :: p <= j ==> !MatchAt(s, j)
    ensures r.Some? ==>
      p <= r.value && MatchAt(s, r.value) &&
      forall j: nat :: p <= j < r.value ==> !MatchAt(s, j)
    decreases |s| - p
  {
    if p + |ClassTag| >= |s| then None
    else if MatchAt(s, p) then Some(p)
    else FindFrom(s, p + 1)
  }

  /** The captured name after the match at `i`. */
  function NameAt(s: string, i: nat): (w: string)
    requires MatchAt(s, i)
    ensures w != [] && AllWord(w)
  {
    WordRun(s[i + |ClassTag|..])
  }

  /** `source_code[/public class (\w+)/i, 1]`, `nil` when nothing matches. */
  function PublicClassName(s: string): (r: Option<string>)
    ensures r.None? <==> forall i: nat :: !MatchAt(s, i)
    ensures r.Some? ==> exists i: nat :: FirstMatch(s, i) && r.value == NameAt(s, i)
  {
    match FindFrom(s, 0)
    case None => None
    case Some(i) => Some(NameAt(s, i))
  }

  /**
   * A found name is a non-empty run of word characters that follows the
   * leftmost match, the first occurrence of the tag that is followed by a
   * word character, and stops at the first non-word character.
   */
  lemma {:induction false} PublicClassNameSpec(s: string)
    ensures match PublicClassName(s)
      case None => forall i: nat :: !MatchAt(s, i)
      case Some(w) =>
        exists i: nat :: FirstMatch(s, i) &&
          w != [] && AllWord(w) && s[i + |ClassTag|..i + |ClassTag| + |w|] == w &&
          (i + |ClassTag| + |w| < |s| ==> !IsWordChar(s[i + |ClassTag| + |w|]))
  {
    match FindFrom(s, 0)
    case None =>
    case Some(i) =>
      var w := NameAt(s, i);
      var t := s[i + |ClassTag|..];
      assert t[..|w|] == w;
      assert s[i + |ClassTag|..i + |ClassTag| + |w|] == t[..|w|];
      assert FirstMatch(s, i);
  }

  /** There is at most one leftmost match, so the name is determined. */
  lemma {:induction false} FirstMatchUnique(s: string, i: nat, k: nat)
    requires FirstMatch(s, i) && FirstMatch(s, k)
    ensures i == k
  {
    assert i < k ==> !MatchAt(s, i);
    assert k < i ==> !MatchAt(s, k);
  }

  /** The greedy `\w+` stops at the first non-word character. */
  lemma {:induction false} ExampleWordRun()
    ensures WordRun("Main {") == "Main"
  {
    assert WordRun(" {") == "";
    assert WordRun("n {") == "n" by {
      assert "n {"[1..] == " {";
    }
    assert WordRun("in {") == "in" by {
      assert "in {"[1..] == "n {";
    }
    assert WordRun("ain {") == "ain" by {
      assert "ain {"[1..] == "in {";
    }
    assert "Main {"[1..] == "ain {";
  }

  lemma {:induction false} ExampleJava()
    ensures PublicClassName("public class Main {") == Some("Main")
  {
    var s := "public class Main {";
    assert FindFrom(s, 0) == Some(0) by {
      assert TagAt(s, 0);
      assert MatchAt(s, 0);
    }
    assert s[13..] == "Main {";
    ExampleWordRun();
  }

  /** Neither case nor what follows the name matters to the match. */
  lemma {:induction false} ExampleUpperCase()
    ensures PublicClassName("PUBLIC CLASS X") == Some("X")
  {
    var s := "PUBLIC CLASS X";
    assert FindFrom(s, 0) == Some(0) by {
      assert TagAt(s, 0);
      assert MatchAt(s, 0);
    }
    assert NameAt(s, 0) == "X" by {
      assert s[13..] == "X";
      assert WordRun("X") == "X" by {
        assert "X"[1..] == "";
      }
    }
  }

  /** A second space before the name leaves no match: the result is `nil`. */
  lemma {:induction false} ExampleTwoSpaces()
    ensures PublicClassName("public class  Foo") == None
  {
    var s := "public class  Foo";
    assert !MatchAt(s, 0) by {
      assert !IsWordChar(s[13]);
    }
    assert !MatchAt(s, 1) by {
      assert Lower(s[1]) != ClassTag[0];
    }
    assert !MatchAt(s, 2) by {
      assert Lower(s[2]) != ClassTag[0];
    }
    assert !MatchAt(s, 3) by {
      assert Lower(s[3]) != ClassTag[0];
    }
    assert forall i: nat :: i >= 4 ==> !MatchAt(s, i);
  }
}
