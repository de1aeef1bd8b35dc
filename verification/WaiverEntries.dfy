/** Suggested waiver entries, and how they are read back once their reason is filled in. */
module WaiverEntries {
  import opened Text
  import opened Options
  import opened Glob
  import opened BitGlobs
  import opened Coverage
  import opened SourceAnchor
  import opened WaiverRules

  datatype Suggestion = Suggestion(file: string, at: string, types: string, sig: string, why: string)

  /** The reason a suggestion comes with, which must be replaced. */
  const STUB := "unreachable: " + PLACEHOLDER + " "

  /** What a file of waivers is read with. */
  datatype Context = Context(disk: Disk, valid: string -> bool, search: (string, string) -> bool, why: string)

  predicate GivesReason(c: Context) {
    c.why != "" && !Contains(c.why, PLACEHOLDER)
  }

  function Written(s: Suggestion, why: string): Entry {
    Entry(Some(s.file), Some(Value.Text(s.at)), Some(Commas(s.types)), Some(s.sig), Some(why), {})
  }

  // ---- The stub ----

  lemma {:induction false} ContainsMiddle(a: string, b: string, c: string)
    ensures Contains(a + b + c, b)
  {
    var s := a + b + c;
    if a == [] {
      assert b <= s;
    } else {
      ContainsMiddle(a[1..], b, c);
      assert s[1..] == a[1..] + b + c;
    }
  }

  /** A suggestion pasted without a reason of its own is refused. */
  lemma StubIsRefused(s: Suggestion, valid: string -> bool)
    requires s.file != "" && s.why == STUB
    ensures Read(Written(s, s.why), valid) == (None, [StillPlaceholder])
  {
    ContainsMiddle("unreachable: ", PLACEHOLDER, " ");
  }

  // ---- Types ----

  /** The type names of a suggestion for the page. */
  function NamesFor(page: string): seq<string> {
    TypeNames(Some(Commas(TypeOf(page))))
  }

  lemma TypeReads(page: string)
    requires page in ALL_PAGES
    ensures var names := NamesFor(page);
      names == [TypeOf(page)] && Strip(TypeOf(page)) == TypeOf(page) && PageOf(TypeOf(page)) == Some(page)
  {
    CommaSplits(TypeOf(page), "");
    NothingToStrip(TypeOf(page));
  }

  lemma PagesOfType(page: string)
    requires page in ALL_PAGES
    ensures Pages([TypeOf(page)]) == {page} && Unknown([TypeOf(page)]) == []
  {
    TypeReads(page);
    var names := [TypeOf(page)];
    assert names[..0] == [];
    assert page in PagesOf(Strip(names[0]));
  }

  // ---- Locators ----

  /** The text of an anchor's locator, or of a line's. */
  function AtText(anchor: Anchor, line: nat): string {
    match anchor
    case Anchor(text) => "/" + text + "/"
    case NoAnchor => Dec(line)
  }

  lemma DecReads(n: nat)
    ensures ParseInt(Dec(n)) == Some(n)
  {
    var s := Dec(n);
    assert s[0] in s && s[|s| - 1] in s;
    NothingToStrip(s);
    IntOfDec(n);
  }

  function AtOf(anchor: Anchor, line: nat): Locator {
    match anchor
    case Anchor(text) => Literal(text)
    case NoAnchor => Line(line)
  }

  lemma AtReads(anchor: Anchor, line: nat, valid: string -> bool)
    requires anchor.Anchor? ==> anchor.text != ""
    ensures Locate(AtText(anchor, line), valid) == (Some(AtOf(anchor, line)), [])
  {
    if anchor.Anchor? {
      var loc := AtText(anchor, line);
      assert loc[1..|loc| - 1] == anchor.text;
      assert loc[0] == '/' && "re/"[0] == 'r';
    } else {
      DecReads(line);
      var s := Dec(line);
      assert s[0] in s;
    }
  }

  // ---- Reading a suggestion back ----

  function Made(file: string, anchor: Anchor, line: nat, page: string, glob: string): Suggestion {
    Suggestion(file, AtText(anchor, line), TypeOf(page), glob, STUB)
  }

  lemma MadeMisses(c: Context, file: string, anchor: Anchor, line: nat, page: string, glob: string)
    requires GivesReason(c)
    ensures Missing(Written(Made(file, anchor, line, page, glob), c.why)) == if file == "" then [NoFileOrAt] else []
  {
  }

  /** What a suggestion with a file name is read as, whatever its page. */
  lemma MadeReadsAs(c: Context, file: string, anchor: Anchor, line: nat, page: string, glob: string)
    requires GivesReason(c) && file != "" && (anchor.Anchor? ==> anchor.text != "")
    ensures var pages := Pages(NamesFor(page));
      Read(Written(Made(file, anchor, line, page, glob), c.why), c.valid)
        == (if pages == {} then None else Some(Rule(file, AtOf(anchor, line), pages, Some(glob), c.why)),
            Unknown(NamesFor(page)))
  {
    MadeMisses(c, file, anchor, line, page, glob);
    AtReads(anchor, line, c.valid);
  }

  lemma MadeReads(c: Context, file: string, anchor: Anchor, line: nat, page: string, glob: string)
    requires GivesReason(c) && file != "" && page in ALL_PAGES
    requires anchor.Anchor? ==> anchor.text != ""
    ensures Read(Written(Made(file, anchor, line, page, glob), c.why), c.valid)
         == (Some(Rule(file, AtOf(anchor, line), {page}, Some(glob), c.why)), [])
  {
    MadeReadsAs(c, file, anchor, line, page, glob);
    TypeReads(page);
    PagesOfType(page);
  }

  /** The entry is read without complaint. */
  predicate Clean(s: Suggestion, c: Context) {
    var (w, mistakes) := Read(Written(s, c.why), c.valid);
    w.Some? && mistakes == []
  }

  function RuleOf(s: Suggestion, c: Context): Rule
    requires Clean(s, c)
  {
    Read(Written(s, c.why), c.valid).0.value
  }

  /** The entry is read without complaint, and the waiver it is read as covers the point. */
  predicate Waives(s: Suggestion, c: Context, p: Point) {
    Clean(s, c) && Covers(RuleOf(s, c), c.disk, c.search, p)
  }

  /** The pages an entry made for a page is read back as; none if its type is not known. */
  function PagesFor(page: string): set<string> {
    if Unknown(NamesFor(page)) == [] then Pages(NamesFor(page)) else {}
  }

  lemma PagesForKnown(page: string)
    ensures PagesFor(page) <= ALL_PAGES
    ensures page in ALL_PAGES ==> PagesFor(page) == {page}
  {
    PagesAreKnown(NamesFor(page));
    if page in ALL_PAGES {
      TypeReads(page);
      PagesOfType(page);
    }
  }

  lemma MadeIsClean(c: Context, file: string, anchor: Anchor, line: nat, page: string, glob: string)
    requires GivesReason(c) && (anchor.Anchor? ==> anchor.text != "")
    ensures Clean(Made(file, anchor, line, page, glob), c) <==> file != "" && PagesFor(page) != {}
  {
    if file == "" {
      MadeMisses(c, file, anchor, line, page, glob);
    } else {
      MadeReadsAs(c, file, anchor, line, page, glob);
    }
  }

  lemma RuleOfMade(c: Context, file: string, anchor: Anchor, line: nat, page: string, glob: string)
    requires GivesReason(c) && (anchor.Anchor? ==> anchor.text != "")
    requires Clean(Made(file, anchor, line, page, glob), c) && file != ""
    ensures RuleOf(Made(file, anchor, line, page, glob), c)
         == Rule(file, AtOf(anchor, line), PagesFor(page), Some(glob), c.why)
  {
    MadeReadsAs(c, file, anchor, line, page, glob);
  }

  /** What a suggestion waives once it has a reason, whatever it was made for. */
  lemma MadeWaives(c: Context, file: string, anchor: Anchor, line: nat, page: string, glob: string, p: Point)
    requires GivesReason(c) && (anchor.Anchor? ==> anchor.text != "")
    ensures Waives(Made(file, anchor, line, page, glob), c, p) <==>
      && file != "" && file == Basename(p.path)
      && p.page in PagesFor(page)
      && Locates(AtOf(anchor, line), c.disk, c.search, p.path, p.line)
      && (glob != "" ==> Fnmatch(p.sig, glob))
  {
    MadeIsClean(c, file, anchor, line, page, glob);
    if file != "" && PagesFor(page) != {} {
      RuleOfMade(c, file, anchor, line, page, glob);
    }
  }
}
