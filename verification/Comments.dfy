/** Texts with a comment after them, from two slashes on. */
module Comments {
  import opened Text

  /** No two slashes in a row: no comment starts in the text. */
  predicate NoComment(text: string) {
    forall i :: 0 <= i < |text| - 1 ==> !(text[i] == '/' && text[i + 1] == '/')
  }

  lemma SlashesOccur(s: string, k: nat)
    ensures OccursAt(s, "//", k) <==> k + 1 < |s| && s[k] == '/' && s[k + 1] == '/'
  {
    if k + 2 <= |s| {
      assert s[k..k + 2] == [s[k], s[k + 1]];
    }
  }

  /** The first two slashes in a row are found. */
  lemma SlashesFound(s: string)
    requires Contains(s, "//")
    ensures var k := |Before(s, "//")|; k + 1 < |s| && s[k] == '/' && s[k + 1] == '/'
  {
    FoundAt(s, "//");
    SlashesOccur(s, |Before(s, "//")|);
  }

  lemma CommentIsFound(u: string, c: string)
    requires "//" <= c && NoComment(u) && (u == "" || u[|u| - 1] != '/')
    ensures Contains(u + c, "//") && Before(u + c, "//") == u
  {
    var s := u + c;
    SlashesOccur(s, |u|);
    OccurrenceIsFound(s, "//", |u|);
    SlashesFound(s);
    assert forall i :: 0 <= i < |u| ==> !(s[i] == '/' && s[i + 1] == '/');
    BeforePrefix(s, "//");
    assert s[..|u|] == u;
  }

  lemma NoCommentIsNotFound(u: string)
    requires NoComment(u)
    ensures !Contains(u, "//")
  {
    if Contains(u, "//") {
      SlashesFound(u);
    }
  }

  lemma SpaceHasNoSlash(text: string, b: string)
    requires NoComment(text) && AllSpace(b) && (b == "" ==> text != "" && text[|text| - 1] != '/')
    ensures NoComment(text + b) && (text + b)[|text + b| - 1] != '/'
  {
    var u := text + b;
    forall i | |text| <= i < |u|
      ensures u[i] != '/'
    {
      assert u[i] == b[i - |text|] && b[i - |text|] in b;
    }
  }

  lemma NotFoundIsNoComment(s: string)
    requires !Contains(s, "//")
    ensures NoComment(s)
  {
    forall i | 0 <= i < |s| - 1
      ensures !(s[i] == '/' && s[i + 1] == '/')
    {
      SlashesOccur(s, i);
      if OccursAt(s, "//", i) {
        OccurrenceIsFound(s, "//", i);
      }
    }
  }

  lemma {:induction false} BeforeAll(u: string, t: string)
    requires !Contains(u, t)
    ensures Before(u, t) == u
  {
    if u != [] {
      BeforeAll(u[1..], t);
    }
  }

  lemma SpaceInFront(a: string, text: string)
    requires AllSpace(a) && NoComment(text)
    ensures NoComment(a + text)
  {
    var u := a + text;
    forall i | 0 <= i < |a|
      ensures u[i] != '/'
    {
      assert u[i] == a[i] && a[i] in a;
    }
    assert forall i :: |a| <= i < |u| ==> u[i] == text[i - |a|];
  }

  lemma NoCommentAfter(text: string, b: string)
    requires NoComment(text) && AllSpace(b)
    ensures NoComment(text + b)
  {
    var u := text + b;
    forall i | |text| <= i < |u|
      ensures u[i] != '/'
    {
      assert u[i] == b[i - |text|] && b[i - |text|] in b;
    }
    assert forall i :: 0 <= i < |text| ==> u[i] == text[i];
  }
}
