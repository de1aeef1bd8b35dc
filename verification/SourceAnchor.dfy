/** Literal anchors: a piece of a source line that occurs on no other line of its file. */
module SourceAnchor {
  import opened Text
  import opened Comments

  datatype Anchor = NoAnchor | Anchor(text: string)

  /** The lines of the files that can be opened. */
  type Disk = map<string, seq<string>>

  /** How many lines have the text. */
  function Occurrences(src: seq<string>, text: string): nat {
    if src == [] then 0 else (if Contains(src[0], text) then 1 else 0) + Occurrences(src[1..], text)
  }

  /** The text is on line `line`, counted from one, and on no other. */
  predicate OnlyOn(src: seq<string>, line: int, text: string) {
    && 1 <= line <= |src|
    && Contains(src[line - 1], text)
    && forall k :: 0 <= k < |src| && Contains(src[k], text) ==> k == line - 1
  }

  /** The code of a line: without its comment and the white space around it. */
  function Code(l: string): string {
    Strip(Before(l, "//"))
  }

  /** The code of a line is its text, without the white space around it and the comment after it. */
  lemma CodeOfLine(a: string, text: string, b: string, c: string)
    requires text != "" && !IsSpace(text[0]) && !IsSpace(text[|text| - 1]) && NoComment(text)
    requires AllSpace(a) && AllSpace(b) && (c == "" || ("//" <= c && (b == "" ==> text[|text| - 1] != '/')))
    ensures Code(a + text + b + c) == text
  {
    var u := a + text + b;
    SpaceInFront(a, text);
    if c == "" {
      assert u + c == u;
      NoCommentAfter(a + text, b);
      NoCommentIsNotFound(u);
      BeforeAll(u, "//");
    } else {
      SpaceHasNoSlash(a + text, b);
      CommentIsFound(u, c);
    }
    StripAround(a, text, b);
  }

  /** The file has a line `line`, and its code is on no other line. */
  predicate Anchorable(disk: Disk, path: string, line: int) {
    && path in disk
    && 1 <= line <= |disk[path]|
    && Code(disk[path][line - 1]) != ""
    && OnlyOn(disk[path], line, Code(disk[path][line - 1]))
  }

  // ---- Pieces of a line ----

  lemma {:induction false} PrefixContains(s: string, t: string, u: string)
    requires t <= s && Contains(t, u)
    ensures Contains(s, u)
  {
    if !(u <= t) {
      PrefixContains(s[1..], t[1..], u);
    }
  }

  lemma {:induction false} ContainsPiece(s: string, t: string, u: string)
    requires Contains(s, t) && Contains(t, u)
    ensures Contains(s, u)
  {
    if t <= s {
      PrefixContains(s, t, u);
    } else {
      ContainsPiece(s[1..], t, u);
    }
  }

  lemma {:induction false} HasLeftStrip(s: string)
    ensures Contains(s, LeftStrip(s))
  {
    if s != [] && IsSpace(s[0]) {
      HasLeftStrip(s[1..]);
    }
  }

  lemma {:induction false} RightStripPrefix(s: string)
    ensures RightStrip(s) <= s
  {
    if s != [] && IsSpace(s[|s| - 1]) {
      RightStripPrefix(s[..|s| - 1]);
    }
  }

  lemma LineHasCode(l: string)
    ensures Contains(l, Code(l))
  {
    var b := Before(l, "//");
    BeforePrefix(l, "//");
    HasLeftStrip(b);
    RightStripPrefix(LeftStrip(b));
    assert Contains(LeftStrip(b), Code(l));
    ContainsPiece(b, LeftStrip(b), Code(l));
    ContainsPiece(l, b, Code(l));
  }

  // ---- Counting lines ----

  lemma {:induction false} NoneOrSome(src: seq<string>, text: string)
    ensures Occurrences(src, text) == 0 <==> forall k :: 0 <= k < |src| ==> !Contains(src[k], text)
  {
    if src != [] {
      NoneOrSome(src[1..], text);
      assert forall k :: 0 <= k < |src[1..]| ==> src[1..][k] == src[k + 1];
      assert forall k :: 1 <= k < |src| ==> src[k] == src[1..][k - 1];
    }
  }

  /** Exactly one line has the text, and line `k` does, exactly if only line `k` does. */
  lemma {:induction false} CountedOnce(src: seq<string>, text: string, k: nat)
    requires k < |src| && Contains(src[k], text)
    ensures Occurrences(src, text) == 1 <==> OnlyOn(src, k + 1, text)
  {
    var rest := src[1..];
    assert forall j :: 1 <= j < |src| ==> src[j] == rest[j - 1];
    NoneOrSome(rest, text);
    if k > 0 {
      CountedOnce(rest, text, k - 1);
      if OnlyOn(src, k + 1, text) {
        assert forall j :: 0 <= j < |rest| && Contains(rest[j], text) ==> Contains(src[j + 1], text);
      }
      assert Contains(rest[k - 1], text);
    } else if OnlyOn(src, 1, text) {
      forall j | 0 <= j < |rest|
        ensures !Contains(rest[j], text)
      {
        assert rest[j] == src[j + 1];
      }
    }
  }

  /** A longer slice of the code is on the line too, and on no more lines. */
  lemma LongerStaysUnique(src: seq<string>, line: int, short: string, long: string)
    requires OnlyOn(src, line, short) && short <= long && Contains(src[line - 1], long)
    ensures OnlyOn(src, line, long)
  {
    forall k | 0 <= k < |src| && Contains(src[k], long)
      ensures k == line - 1
    {
      ContainsPiece(src[k], long, short);
    }
  }

  /** Where the search for an anchor starts: twelve characters, or through `want`. */
  function Start(code: string, want: string): nat {
    if want != "" && Contains(code, want) then
      var through := |Before(code, want)| + |want|;
      if through > 12 then through else 12
    else 12
  }

  /** A slice of this length has at least twelve characters, and all of `want` if the code has it. */
  predicate Reaches(code: string, want: string, n: nat) {
    12 <= n && (want != "" && Contains(code, want) ==> |Before(code, want)| + |want| <= n)
  }

  /** The search starts with the first slice that reaches far enough. */
  lemma StartReaches(code: string, want: string, n: nat)
    ensures Start(code, want) <= n <==> Reaches(code, want, n)
  {
  }

  lemma PieceContains(code: string, text: string, i: nat, want: string)
    requires text <= code && i + |want| <= |text| && code[i..i + |want|] == want
    ensures Contains(text, want)
  {
    assert text[i..i + |want|] == code[i..i + |want|];
    SliceContains(text, i, |want|);
  }

  /** A slice of the code that reaches far enough has the whole of `want`. */
  lemma GoesThrough(code: string, want: string, text: string)
    requires want != "" && Contains(code, want)
    requires text <= code && (|text| < |code| ==> Reaches(code, want, |text|))
    ensures Contains(text, want)
  {
    FoundAt(code, want);
    PieceContains(code, text, |Before(code, want)|, want);
  }

  lemma {:induction false} SliceContains(s: string, i: nat, n: nat)
    requires i + n <= |s|
    ensures Contains(s, s[i..i + n])
  {
    if i > 0 {
      SliceContains(s[1..], i - 1, n);
      assert s[1..][i - 1..i - 1 + n] == s[i..i + n];
    }
  }

  lemma SliceIsCounted(src: seq<string>, line: int, n: nat)
    requires 1 <= line <= |src| && n <= |Code(src[line - 1])|
    ensures var slice := Code(src[line - 1])[..n];
      Contains(src[line - 1], slice) && (Occurrences(src, slice) == 1 <==> OnlyOn(src, line, slice))
  {
    var l := src[line - 1];
    LineHasCode(l);
    ContainsPiece(l, Code(l), Code(l)[..n]);
    CountedOnce(src, Code(l)[..n], line - 1);
  }

  /** The anchor ends where an identifier ends, or where the code does. */
  method ToWordEnd(code: string, n: nat) returns (m: nat)
    requires n <= |code|
    ensures n <= m <= |code|
    ensures forall k :: n <= k < m ==> IsWord(code[k])
    ensures m < |code| ==> !IsWord(code[m])
  {
    m := n;
    while m < |code| && IsWord(code[m])
      invariant n <= m <= |code|
      invariant forall k :: n <= k < m ==> IsWord(code[k])
    {
      m := m + 1;
    }
  }

  /**
   * The shortest slice of the code that reaches far enough and is on no other line, extended to
   * the end of an identifier; the whole code when it is shorter than that.
   */
  ghost predicate Shortest(src: seq<string>, line: int, want: string, text: string)
    requires 1 <= line <= |src|
  {
    var code := Code(src[line - 1]);
    && text <= code
    && (forall n: nat :: n < |text| && Reaches(code, want, n) && (exists k :: n <= k < |text| && !IsWord(code[k])) ==>
          !OnlyOn(src, line, code[..n]))
    && (|text| < |code| ==> Reaches(code, want, |text|) && !IsWord(code[|text|]))
  }

  lemma NoLonger(src: seq<string>, line: int, want: string, short: string, long: string)
    requires OnlyOn(src, line, short) && Shortest(src, line, want, short) && Shortest(src, line, want, long)
    ensures |short| >= |long|
  {
    assert Code(src[line - 1])[..|short|] == short;
  }

  /** There is one such slice only, so the anchor of a line is settled by the file and the name. */
  lemma OneShortest(src: seq<string>, line: int, want: string, a: string, b: string)
    requires OnlyOn(src, line, a) && Shortest(src, line, want, a)
    requires OnlyOn(src, line, b) && Shortest(src, line, want, b)
    ensures a == b
  {
    NoLonger(src, line, want, a, b);
    NoLonger(src, line, want, b, a);
  }

  /** An anchor that is on no line but the requested one, or none when the whole code repeats. */
  method SrcAnchor(disk: Disk, path: string, line: int, want: string) returns (r: Anchor)
    ensures r.Anchor? <==> Anchorable(disk, path, line)
    ensures r.Anchor? ==> r.text != "" && OnlyOn(disk[path], line, r.text)
    ensures r.Anchor? ==> Shortest(disk[path], line, want, r.text)
    ensures r.Anchor? && want != "" && Contains(Code(disk[path][line - 1]), want) ==> Contains(r.text, want)
  {
    if path !in disk {
      return NoAnchor;
    }
    var src := disk[path];
    if !(1 <= line <= |src|) {
      return NoAnchor;
    }
    var code := Code(src[line - 1]);
    if code == "" {
      return NoAnchor;
    }
    var n := Start(code, want);
    assert code[..|code|] == code;
    while n <= |code|
      invariant Start(code, want) <= n
      invariant forall k :: Start(code, want) <= k < n && k <= |code| ==> !OnlyOn(src, line, code[..k])
    {
      SliceIsCounted(src, line, n);
      if Occurrences(src, code[..n]) == 1 {
        var m := ToWordEnd(code, n);
        forall k: nat {
          StartReaches(code, want, k);
        }
        SliceIsCounted(src, line, m);
        LongerStaysUnique(src, line, code[..n], code[..m]);
        SliceIsCounted(src, line, |code|);
        LongerStaysUnique(src, line, code[..n], code);
        if want != "" && Contains(code, want) {
          GoesThrough(code, want, code[..m]);
        }
        return Anchor(code[..m]);
      }
      n := n + 1;
    }
    SliceIsCounted(src, line, |code|);
    return if Occurrences(src, code) == 1 then Anchor(code) else NoAnchor;
  }
}
