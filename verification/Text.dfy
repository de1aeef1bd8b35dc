/** The few string operations the Python tools use. */
module Text {
  /** ASCII white space, as `str.strip` sees it. */
  predicate IsSpace(c: char) {
    9 <= c as int <= 13 || 28 <= c as int <= 32
  }

  /** A character of an identifier: a letter, a digit or an underscore. */
  predicate IsWord(c: char) {
    '0' <= c <= '9' || 'a' <= c <= 'z' || 'A' <= c <= 'Z' || c == '_'
  }

  /** Tab to carriage return, the four separators and the space. */
  lemma SpacesAre(c: char)
    ensures IsSpace(c) <==> c as int in {9, 10, 11, 12, 13, 28, 29, 30, 31, 32}
  {
  }

  /** The digits, the capital letters, the underscore and the small letters. */
  lemma WordsAre(c: char)
    ensures IsWord(c) <==>
      48 <= c as int <= 57 || 65 <= c as int <= 90 || c as int == 95 || 97 <= c as int <= 122
  {
  }

  function LeftStrip(s: string): string {
    if s != [] && IsSpace(s[0]) then LeftStrip(s[1..]) else s
  }

  function RightStrip(s: string): string {
    if s != [] && IsSpace(s[|s| - 1]) then RightStrip(s[..|s| - 1]) else s
  }

  function Strip(s: string): string {
    RightStrip(LeftStrip(s))
  }

  lemma NothingToStrip(s: string)
    requires s != [] && !IsSpace(s[0]) && !IsSpace(s[|s| - 1])
    ensures Strip(s) == s
  {
  }

  /** `t in s` for strings. */
  predicate Contains(s: string, t: string) {
    t <= s || (s != [] && Contains(s[1..], t))
  }

  /** Everything before the first occurrence of `t`, or all of `s`. */
  function Before(s: string, t: string): string {
    if t <= s || s == [] then [] else [s[0]] + Before(s[1..], t)
  }

  // ---- White space around a text ----

  predicate AllSpace(s: string) {
    forall c :: c in s ==> IsSpace(c)
  }

  lemma {:induction false} LeftParts(t: string) returns (a: string)
    ensures t == a + LeftStrip(t) && AllSpace(a)
    ensures LeftStrip(t) != "" ==> !IsSpace(LeftStrip(t)[0])
  {
    if t != [] && IsSpace(t[0]) {
      var rest := LeftParts(t[1..]);
      a := [t[0]] + rest;
    } else {
      a := [];
    }
  }

  lemma {:induction false} RightParts(t: string) returns (b: string)
    ensures t == RightStrip(t) + b && AllSpace(b)
  {
    if t != [] && IsSpace(t[|t| - 1]) {
      var front := t[..|t| - 1];
      var rest := RightParts(front);
      b := rest + [t[|t| - 1]];
    } else {
      b := [];
    }
  }

  lemma StripParts(t: string) returns (a: string, b: string)
    ensures t == a + Strip(t) + b && AllSpace(a) && AllSpace(b)
    ensures Strip(t) != "" ==> !IsSpace(Strip(t)[0])
  {
    a := LeftParts(t);
    b := RightParts(LeftStrip(t));
    assert a + LeftStrip(t) == a + Strip(t) + b;
    if Strip(t) != "" {
      assert LeftStrip(t)[0] == Strip(t)[0];
    }
  }

  lemma {:induction false} RightStripEnds(t: string)
    ensures |RightStrip(t)| <= |t|
    ensures RightStrip(t) != "" ==> t != "" && RightStrip(t)[0] == t[0] && !IsSpace(RightStrip(t)[|RightStrip(t)| - 1])
  {
    if t != [] && IsSpace(t[|t| - 1]) {
      RightStripEnds(t[..|t| - 1]);
    }
  }

  lemma StripTwice(t: string)
    ensures Strip(Strip(t)) == Strip(t) && |Strip(t)| <= |t|
  {
    var a := LeftParts(t);
    RightStripEnds(LeftStrip(t));
  }

  lemma {:induction false} LeftStripAround(a: string, t: string)
    requires AllSpace(a) && t != "" && !IsSpace(t[0])
    ensures LeftStrip(a + t) == t
  {
    if a == [] {
      assert a + t == t;
    } else {
      assert (a + t)[0] == a[0] && a[0] in a && (a + t)[1..] == a[1..] + t;
      LeftStripAround(a[1..], t);
    }
  }

  lemma {:induction false} RightStripAround(t: string, b: string)
    requires AllSpace(b) && t != "" && !IsSpace(t[|t| - 1])
    ensures RightStrip(t + b) == t
  {
    if b == [] {
      assert t + b == t;
    } else {
      var front := b[..|b| - 1];
      assert b[|b| - 1] in b && (t + b)[..|t + b| - 1] == t + front;
      RightStripAround(t, front);
    }
  }

  /** Stripping takes the white space around a text, and no more. */
  lemma StripAround(a: string, t: string, b: string)
    requires AllSpace(a) && AllSpace(b) && t != "" && !IsSpace(t[0]) && !IsSpace(t[|t| - 1])
    ensures Strip(a + t + b) == t
  {
    assert a + t + b == a + (t + b) && (t + b)[0] == t[0];
    LeftStripAround(a, t + b);
    RightStripAround(t, b);
  }

  // ---- Occurrences ----

  lemma {:induction false} BeforePrefix(s: string, t: string)
    ensures Before(s, t) <= s
  {
    if !(t <= s) && s != [] {
      BeforePrefix(s[1..], t);
    }
  }

  /** Where an occurrence starts, it can be read back. */
  lemma {:induction false} FoundAt(s: string, t: string)
    requires Contains(s, t)
    ensures |Before(s, t)| + |t| <= |s| && s[|Before(s, t)|..|Before(s, t)| + |t|] == t
  {
    if t <= s {
      assert Before(s, t) == [];
    } else {
      FoundAt(s[1..], t);
      var k := |Before(s[1..], t)|;
      assert s[1..][k..k + |t|] == s[k + 1..k + 1 + |t|];
    }
  }

  predicate OccursAt(s: string, t: string, i: nat) {
    i + |t| <= |s| && s[i..i + |t|] == t
  }

  /** What is before the first occurrence has no occurrence that starts in it. */
  lemma {:induction false} FoundFirst(s: string, t: string, i: nat)
    requires i < |Before(s, t)|
    ensures !OccursAt(s, t, i)
  {
    if i > 0 {
      FoundFirst(s[1..], t, i - 1);
      assert i + |t| <= |s| ==> s[1..][i - 1..i - 1 + |t|] == s[i..i + |t|];
    }
  }

  lemma {:induction false} OccurrenceIsFound(s: string, t: string, i: nat)
    requires OccursAt(s, t, i)
    ensures Contains(s, t) && |Before(s, t)| <= i
  {
    if i > 0 {
      if !(t <= s) {
        assert s[1..][i - 1..i - 1 + |t|] == s[i..i + |t|];
        OccurrenceIsFound(s[1..], t, i - 1);
      }
    } else {
      assert t <= s;
    }
  }
}
