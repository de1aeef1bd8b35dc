/** What the lines of a filelist say, written out of their parts, and what the walk makes of them. */
module FilelistLines {
  import opened Text
  import opened Comments
  import opened Filelist

  /** What a line is for. Names are as they are written. */
  datatype Item =
    | Skip
    | Nest(name: string)       // -f <name>
    | IncDir(name: string)     // +incdir+<name>, relative to the filelist
    | IncHere(name: string)    // +incdir+./..., relative to where the simulator runs
    | Directive(text: string)  // any other + or - directive
    | Here(text: string)       // ./..., relative to where the simulator runs
    | File(name: string)

  // ---- How a line is written ----

  /** A text that a line can have: no white space around it, no comment in it. */
  predicate Body(text: string) {
    text != "" && !IsSpace(text[0]) && !IsSpace(text[|text| - 1]) && text[0] != '#' && NoComment(text)
  }

  /** White space, the text, white space, and possibly a comment after it. */
  predicate Wraps(line: string, a: string, text: string, b: string, c: string) {
    && line == a + text + b + c && AllSpace(a) && AllSpace(b)
    && (c == "" || ("//" <= c && (b == "" ==> text != "" && text[|text| - 1] != '/')))
  }

  /** The line has this text, with white space and a comment around it or not. */
  ghost predicate HasText(line: string, text: string) {
    Body(text) && exists a, b, c :: Wraps(line, a, text, b, c)
  }

  /** Nothing but white space and a comment. */
  ghost predicate IsBlank(line: string) {
    exists a, c :: BlankParts(line, a, c)
  }

  predicate BlankParts(line: string, a: string, c: string) {
    line == a + c && AllSpace(a) && (c == "" || "//" <= c || "#" <= c)
  }

  /** How an item is written. */
  ghost predicate Writes(item: Item, text: string) {
    match item
    case Skip => false
    case Nest(name) =>
      name != "" && !IsSpace(name[0]) && exists gap :: AllSpace(gap) && text == "-f " + gap + name
    case IncDir(name) => text == "+incdir+" + name && !("./" <= name)
    case IncHere(name) => text == "+incdir+./" + name
    case Directive(t) => text == t && t != "" && (t[0] == '+' || t[0] == '-') && !("-f " <= t) && !("+incdir+" <= t)
    case Here(t) => text == t && "./" <= t
    case File(name) => text == name && name != "" && name[0] != '+' && name[0] != '-' && !("./" <= name)
  }

  ghost predicate Says(line: string, item: Item) {
    if item == Skip then IsBlank(line) else exists text :: HasText(line, text) && Writes(item, text)
  }

  /** What an item contributes: names relative to the filelist are resolved, everything else stays as written. */
  function Yield(d: Disk, p: Path, item: Item): Entry {
    match item
    case Skip => Nothing
    case Nest(name) => Nested(d.resolve(p, name))
    case IncDir(name) => Emit("+incdir+" + d.resolve(p, name))
    case IncHere(name) => Emit("+incdir+./" + name)
    case Directive(text) => Emit(text)
    case Here(text) => Emit(text)
    case File(name) => Emit(d.resolve(p, name))
  }

  // ---- The text of a line ----

  /** The stripped line, when there is a comment in it. */
  lemma StripKeepsComment(a: string, u: string, c: string)
    requires AllSpace(a) && u != "" && !IsSpace(u[0]) && "//" <= c
    ensures "//" <= RightStrip(c) && Strip(a + u + c) == u + RightStrip(c)
  {
    CommentStays(c);
    var rest := RightParts(c);
    var t := u + RightStrip(c);
    assert a + u + c == a + t + rest;
    assert t[0] == u[0] && t[|t| - 1] == RightStrip(c)[|RightStrip(c)| - 1];
    RightStripEnds(c);
    StripAround(a, t, rest);
  }

  lemma {:induction false} CommentStays(c: string)
    requires "//" <= c
    ensures "//" <= RightStrip(c)
  {
    if IsSpace(c[|c| - 1]) {
      assert c[0] == '/' && c[1] == '/' && |c| > 2;
      CommentStays(c[..|c| - 1]);
    }
  }

  /** The text of a line that has one is what the walk looks at. */
  lemma TextIsCut(a: string, text: string, b: string, c: string)
    requires Body(text) && Wraps(a + text + b + c, a, text, b, c)
    ensures TextOf(a + text + b + c) == text
  {
    var line := a + text + b + c;
    if c == "" {
      assert line == a + text + b;
      StripAround(a, text, b);
      NoCommentIsNotFound(text);
    } else {
      assert line == a + (text + b) + c;
      StripKeepsComment(a, text + b, c);
      SpaceHasNoSlash(text, b);
      CommentIsFound(text + b, RightStrip(c));
      assert (text + b)[0] == text[0];
      StripAround("", text, b);
      assert "" + text + b == text + b;
    }
    NotAComment(text, Strip(line));
  }

  lemma NotAComment(text: string, whole: string)
    requires Body(text) && text <= whole && (|text| == 1 && |whole| > 1 && text[0] == '/' ==> whole[1] != '/')
    ensures whole != "" && !("//" <= whole) && !("#" <= whole)
  {
    assert whole[0] == text[0];
    if |text| > 1 {
      assert whole[1] == text[1];
    }
  }

  lemma {:induction false} SpaceStripsAway(a: string)
    requires AllSpace(a)
    ensures LeftStrip(a) == "" == Strip(a)
  {
    if a != "" {
      assert a[0] in a && forall x :: x in a[1..] ==> x in a;
      SpaceStripsAway(a[1..]);
    }
  }

  lemma {:induction false} FirstStays(c: string)
    requires c != "" && !IsSpace(c[0])
    ensures RightStrip(c) != "" && RightStrip(c)[0] == c[0]
  {
    if IsSpace(c[|c| - 1]) {
      FirstStays(c[..|c| - 1]);
    }
  }

  lemma BlankHasNoText(a: string, c: string)
    requires BlankParts(a + c, a, c)
    ensures TextOf(a + c) == ""
  {
    if c == "" {
      assert a + c == a;
      SpaceStripsAway(a);
    } else {
      LeftStripAround(a, c);
      RightStripEnds(c);
      if "//" <= c {
        CommentStays(c);
      } else {
        FirstStays(c);
      }
    }
  }

  // ---- Every line is blank or has a text ----

  lemma SlashesCut(whole: string)
    requires Contains(whole, "//") && !("//" <= whole) && whole != "" && !IsSpace(whole[0])
    ensures var cut := Before(whole, "//");
      && cut <= whole && "//" <= whole[|cut|..] && cut != "" && cut[0] == whole[0]
      && NoComment(cut) && cut[|cut| - 1] != '/'
  {
    var cut := Before(whole, "//");
    FoundAt(whole, "//");
    BeforePrefix(whole, "//");
    assert whole[|cut|..][..2] == whole[|cut|..|cut| + 2] == "//";
    forall i | 0 <= i < |cut|
      ensures !(whole[i] == '/' && whole[i + 1] == '/')
    {
      FoundFirst(whole, "//", i);
      SlashesOccur(whole, i);
    }
    SlashesOccur(whole, |cut|);
  }

  lemma TextBeforeComment(line: string, a: string, whole: string, z: string, cut: string)
    requires line == a + whole + z && AllSpace(a) && cut <= whole && "//" <= whole[|cut|..]
    requires cut != "" && !IsSpace(cut[0]) && cut[0] != '#' && NoComment(cut) && cut[|cut| - 1] != '/'
    ensures HasText(line, Strip(cut))
  {
    var b := CutIsText(cut);
    var c := whole[|cut|..] + z;
    assert line == a + Strip(cut) + b + c;
    assert Wraps(line, a, Strip(cut), b, c);
  }

  /** What the walk looks at in a line is the line's text, or the line is blank. */
  lemma LineHasText(line: string)
    ensures if TextOf(line) == "" then IsBlank(line) else HasText(line, TextOf(line))
  {
    var a, z := StripParts(line);
    var whole := Strip(line);
    RightStripEnds(LeftStrip(line));
    if whole == "" || "//" <= whole || "#" <= whole {
      BlankLine(line, a, whole, z);
    } else if !Contains(whole, "//") {
      NotFoundIsNoComment(whole);
      assert Wraps(line, a, whole, z, "");
    } else {
      SlashesCut(whole);
      TextBeforeComment(line, a, whole, z, Before(whole, "//"));
    }
  }

  lemma BlankLine(line: string, a: string, whole: string, z: string)
    requires line == a + whole + z && AllSpace(a) && AllSpace(z) && (whole == "" || "//" <= whole || "#" <= whole)
    ensures IsBlank(line)
  {
    if whole == "" {
      assert BlankParts(line, line, "");
    } else {
      assert line == a + (whole + z);
      assert BlankParts(line, a, whole + z);
    }
  }

  lemma CutIsText(cut: string) returns (b: string)
    requires cut != "" && !IsSpace(cut[0]) && cut[0] != '#' && NoComment(cut) && cut[|cut| - 1] != '/'
    ensures cut == Strip(cut) + b && AllSpace(b)
    ensures Body(Strip(cut)) && (b == "" ==> Strip(cut)[|Strip(cut)| - 1] != '/')
  {
    assert LeftStrip(cut) == cut;
    RightStripEnds(cut);
    FirstStays(cut);
    b := RightParts(cut);
    assert forall i :: 0 <= i < |Strip(cut)| ==> Strip(cut)[i] == cut[i];
  }

  // ---- What a line contributes ----

  lemma NestYields(d: Disk, p: Path, line: string, name: string)
    requires Body(TextOf(line)) && Writes(Nest(name), TextOf(line))
    ensures Classify(d, p, line) == Nested(d.resolve(p, name))
  {
    var text := TextOf(line);
    var gap :| AllSpace(gap) && text == "-f " + gap + name;
    assert text[|text| - 1] == name[|name| - 1];
    assert text[3..] == gap + name + "";
    StripAround(gap, name, "");
  }

  lemma TextYields(d: Disk, p: Path, line: string, item: Item)
    requires Body(TextOf(line)) && Writes(item, TextOf(line))
    ensures Classify(d, p, line) == Yield(d, p, item)
  {
    var text := TextOf(line);
    match item
    case Nest(name) => NestYields(d, p, line, name);
    case IncDir(name) => assert text[8..] == name;
    case IncHere(name) =>
      assert text[8..] == "./" + name;
      assert "+incdir+" + ("./" + name) == text;
    case _ =>
  }

  /** A line contributes what it says, whatever white space and comment are around it. */
  lemma LineYields(d: Disk, p: Path, line: string, item: Item)
    requires Says(line, item)
    ensures Classify(d, p, line) == Yield(d, p, item)
  {
    if item == Skip {
      var a, c :| BlankParts(line, a, c);
      BlankHasNoText(a, c);
    } else {
      var text :| HasText(line, text) && Writes(item, text);
      var a, b, c :| Wraps(line, a, text, b, c);
      TextIsCut(a, text, b, c);
      TextYields(d, p, line, item);
    }
  }

  /** Every text is one of the items. */
  lemma TextIsItem(text: string) returns (item: Item)
    requires Body(text)
    ensures item != Skip && Writes(item, text)
  {
    if "-f " <= text {
      var gap := LeftParts(text[3..]);
      var name := LeftStrip(text[3..]);
      assert text == "-f " + gap + name;
      NameIsLeft(text, gap, name);
      item := Nest(name);
    } else if "+incdir+./" <= text {
      assert text == "+incdir+./" + text[10..];
      item := IncHere(text[10..]);
    } else if "+incdir+" <= text {
      assert text == "+incdir+" + text[8..];
      HereOrNot(text);
      item := IncDir(text[8..]);
    } else if text[0] == '+' || text[0] == '-' {
      item := Directive(text);
    } else if "./" <= text {
      item := Here(text);
    } else {
      item := File(text);
    }
  }

  lemma NameIsLeft(text: string, gap: string, name: string)
    requires Body(text) && text == "-f " + gap + name && AllSpace(gap)
    ensures name != ""
  {
    var head := "-f " + gap;
    assert gap != "" ==> gap[|gap| - 1] in gap;
    assert IsSpace(head[|head| - 1]) && text == head + name;
  }

  lemma HereOrNot(text: string)
    requires "+incdir+" <= text
    ensures "+incdir+./" <= text <==> "./" <= text[8..]
  {
    assert "./" <= text[8..] <==> |text| >= 10 && text[8] == '.' && text[9] == '/';
  }

  /** Every line says something, so what it says is all there is to know of it. */
  lemma EveryLineSays(line: string) returns (item: Item)
    ensures Says(line, item)
  {
    LineHasText(line);
    if TextOf(line) == "" {
      item := Skip;
    } else {
      item := TextIsItem(TextOf(line));
    }
  }

  // ---- What a filelist contributes ----

  /** The walk over items: nested filelists that exist are entered, everything else is emitted as it yields. */
  function ItemWalk(d: Disk, p: Path, items: seq<Item>, seen: set<Path>): Walk {
    if items == [] then Walk([], [])
    else
      var w :=
        match Yield(d, p, items[0])
        case Nothing => Walk([], [])
        case Emit(x) => Walk([x], [])
        case Nested(t) => if t in d.lists then Flat(d, t, seen) else Walk([], []);
      var rest := ItemWalk(d, p, items[1..], seen + Elements(w.entered));
      Walk(w.out + rest.out, w.entered + rest.entered)
  }

  /** The lines of a filelist are walked as what they say. */
  lemma {:induction false} WalkOfItems(d: Disk, p: Path, lines: seq<string>, items: seq<Item>, seen: set<Path>)
    requires |lines| == |items| && forall i :: 0 <= i < |lines| ==> Says(lines[i], items[i])
    ensures FlatLines(d, p, lines, seen) == ItemWalk(d, p, items, seen)
  {
    if lines != [] {
      LineYields(d, p, lines[0], items[0]);
      var w := FlatLine(d, p, lines[0], seen);
      WalkOfItems(d, p, lines[1..], items[1..], seen + Elements(w.entered));
    }
  }

  /** Include directories are deduplicated, whatever their names. */
  lemma IncludesAreKeyed(name: string)
    ensures !Passthrough("+incdir+" + name)
  {
  }

  /** What is deduplicated: everything but the directives, as long as resolved names are absolute. */
  lemma OnlyDirectivesPass(d: Disk, p: Path, line: string, item: Item)
    requires Says(line, item) && Classify(d, p, line).Emit? && forall name :: "/" <= d.resolve(p, name)
    ensures Passthrough(Classify(d, p, line).line) <==> item.Directive?
  {
    LineYields(d, p, line, item);
    assert item.IncDir? ==> "+incdir+" <= Yield(d, p, item).line;
    assert item.IncHere? ==> "+incdir+" <= Yield(d, p, item).line by {
      assert "+incdir+./"[..8] == "+incdir+";
    }
  }
}
