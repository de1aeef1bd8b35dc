/** Coverage waivers: how an entry of the waiver file is read, and which points a waiver covers. */
module WaiverRules {
  import opened Text
  import opened Options
  import opened Glob
  import opened BitGlobs
  import opened Coverage
  import opened SourceAnchor

  datatype Locator = Line(n: int) | Literal(text: string) | Regex(pattern: string)

  datatype Rule = Rule(file: string, at: Locator, pages: set<string>, sig: Option<string>, why: string)

  /** An entry as written: the values of its known keys, and its other keys. */
  datatype Entry = Entry(file: Option<string>, at: Option<Value>, types: Option<Types>, sig: Option<string>,
                         why: Option<string>, otherKeys: set<string>)

  datatype Value = Text(s: string) | Number(n: int)

  datatype Types = Listed(names: seq<string>) | Commas(text: string)

  datatype Mistake =
    | UnknownKeys | NoFileOrAt | NoWhy | StillPlaceholder | BadRegex | BadLocator | UnknownType(name: string)

  const PLACEHOLDER := "<MECHANISM>"

  // ---- Pages and types ----

  function PageOf(name: string): Option<string> {
    if name == "line" then Some("v_line")
    else if name == "branch" then Some("v_branch")
    else if name == "toggle" then Some("v_toggle")
    else None
  }

  /** The type a page is written as; a page of no known type is written as itself. */
  function TypeOf(page: string): string {
    if page == "v_line" then "line"
    else if page == "v_branch" then "branch"
    else if page == "v_toggle" then "toggle"
    else page
  }

  const ALL_PAGES := {"v_line", "v_branch", "v_toggle"}

  function PagesOf(name: string): set<string> {
    if name == "all" then ALL_PAGES
    else match PageOf(name) case Some(page) => {page} case None => {}
  }

  /** The page of a type is the type's name after `v_`, and no other name but `all` is a type. */
  lemma TypesArePages(name: string)
    ensures PageOf(name).Some? <==> name in {"line", "branch", "toggle"}
    ensures PageOf(name).Some? ==> PageOf(name) == Some("v_" + name) && TypeOf("v_" + name) == name
    ensures forall page :: page in PagesOf("all") <==> exists n :: PageOf(n) == Some(page)
  {
    assert "v_" + "line" == "v_line" && "v_" + "branch" == "v_branch" && "v_" + "toggle" == "v_toggle";
    assert PageOf("line") == Some("v_line") && PageOf("branch") == Some("v_branch");
    assert PageOf("toggle") == Some("v_toggle");
  }

  predicate IsType(name: string) {
    name == "all" || PageOf(name).Some?
  }

  /** `s.split(',')`. */
  function SplitCommas(s: string): (fields: seq<string>)
    ensures fields != []
  {
    if s == [] then [[]]
    else
      var rest := SplitCommas(s[1..]);
      if s[0] == ',' then [[]] + rest else [[s[0]] + rest[0]] + rest[1..]
  }

  /** The type names of an entry; an entry without any is for all pages. */
  function TypeNames(types: Option<Types>): seq<string> {
    match types
    case None => ["all"]
    case Some(Listed(names)) => names
    case Some(Commas(text)) => SplitCommas(text)
  }

  function Pages(names: seq<string>): set<string> {
    set k, page | 0 <= k < |names| && page in PagesOf(Strip(names[k])) :: page
  }

  function Unknown(names: seq<string>): seq<Mistake> {
    if names == [] then []
    else
      var name := Strip(names[|names| - 1]);
      Unknown(names[..|names| - 1]) + if IsType(name) then [] else [UnknownType(name)]
  }

  // ---- Locators ----

  function DigitsValue(s: string): Option<int> {
    if s != [] && forall c :: c in s ==> IsDigit(c) then Some(IntOf(s)) else None
  }

  /** `int(s)`: white space around, an optional sign, decimal digits. */
  function ParseInt(s: string): Option<int> {
    var t := Strip(s);
    if t != [] && t[0] == '-' then
      match DigitsValue(t[1..]) case Some(n) => Some(-n) case None => None
    else if t != [] && t[0] == '+' then DigitsValue(t[1..])
    else DigitsValue(t)
  }

  function Str(v: Value): string {
    match v
    case Text(s) => s
    case Number(n) => if n < 0 then "-" + Dec(-n) else Dec(n)
  }

  /** Delimited by an opening and a final slash, with something between. */
  predicate Quoted(loc: string, open: string) {
    open <= loc && |loc| > |open| + 1 && loc[|loc| - 1] == '/'
  }

  /** The locator an `at` stands for, or what is wrong with it. */
  function Locate(loc: string, valid: string -> bool): (Option<Locator>, seq<Mistake>) {
    if Quoted(loc, "re/") then
      var pattern := loc[3..|loc| - 1];
      if valid(pattern) then (Some(Regex(pattern)), []) else (None, [BadRegex])
    else if Quoted(loc, "/") then (Some(Literal(loc[1..|loc| - 1])), [])
    else
      match ParseInt(loc)
      case Some(n) => (Some(Line(n)), [])
      case None => (None, [BadLocator])
  }

  /** How the three kinds of locators are written. */
  lemma QuotedIsLocator(text: string, valid: string -> bool)
    requires text != ""
    ensures Locate("/" + text + "/", valid) == (Some(Literal(text)), [])
    ensures Locate("re/" + text + "/", valid)
         == if valid(text) then (Some(Regex(text)), []) else (None, [BadRegex])
  {
    var loc := "/" + text + "/";
    assert loc[0] == '/' && "re/"[0] == 'r' && loc[1..|loc| - 1] == text;
    var re := "re/" + text + "/";
    assert re[3..|re| - 1] == text;
  }

  lemma ParsesNumber(s: string, sign: string, digits: string)
    requires Strip(s) == sign + digits && digits != "" && (forall c :: c in digits ==> IsDigit(c))
    requires sign == "" || sign == "+" || sign == "-"
    ensures ParseInt(s) == Some(if sign == "-" then 0 - IntOf(digits) else IntOf(digits))
  {
    var t := Strip(s);
    assert digits[0] in digits;
    assert if sign == "" then t == digits else t[1..] == digits && t[0] == sign[0];
  }

  /** A line's number, with a sign or not and white space around it. */
  lemma NumberIsLocator(a: string, sign: string, digits: string, b: string, valid: string -> bool)
    requires AllSpace(a) && AllSpace(b) && digits != "" && forall c :: c in digits ==> IsDigit(c)
    requires sign == "" || sign == "+" || sign == "-"
    ensures Locate(a + (sign + digits) + b, valid)
         == (Some(Line(if sign == "-" then 0 - IntOf(digits) else IntOf(digits))), [])
  {
    SignedEnds(sign, digits);
    StripAround(a, sign + digits, b);
    NoQuoteAround(a, sign + digits, b);
    ParsesNumber(a + (sign + digits) + b, sign, digits);
  }

  lemma SignedEnds(sign: string, digits: string)
    requires digits != "" && (forall c :: c in digits ==> IsDigit(c)) && (sign == "" || sign == "+" || sign == "-")
    ensures var t := sign + digits;
      t != "" && !IsSpace(t[0]) && !IsSpace(t[|t| - 1]) && t[0] != 'r' && t[0] != '/'
  {
    var t := sign + digits;
    assert digits[0] in digits && digits[|digits| - 1] in digits;
    assert t[|t| - 1] == digits[|digits| - 1] && t[0] == if sign == "" then digits[0] else sign[0];
  }

  lemma BareNumberIsLine(t: string, sign: string, digits: string, m: nat, valid: string -> bool)
    requires t == sign + digits && digits == Dec(m) && (sign == "" || sign == "-")
    ensures Locate(t, valid) == (Some(Line(if sign == "-" then 0 - m else m)), [])
  {
    IntOfDec(m);
    NumberIsLocator("", sign, digits, "", valid);
    NothingAround(t);
  }

  lemma NothingAround(t: string)
    ensures "" + t + "" == t
  {
  }

  lemma StrParts(n: int) returns (sign: string, digits: string)
    ensures Str(Number(n)) == sign + digits
    ensures if n < 0 then sign == "-" && digits == Dec(0 - n) else sign == "" && digits == Dec(n)
  {
    sign := if n < 0 then "-" else "";
    digits := if n < 0 then Dec(0 - n) else Dec(n);
  }

  /** A number that is not a text is the line of that number. */
  lemma NumberIsLine(n: int, t: string, valid: string -> bool)
    requires t == Str(Number(n))
    ensures Locate(t, valid) == (Some(Line(n)), [])
  {
    var sign, digits := StrParts(n);
    BareNumberIsLine(t, sign, digits, if n < 0 then 0 - n else n, valid);
  }

  /** What starts with white space, a sign or a digit does not start a quoted locator. */
  lemma NoQuoteAround(a: string, t: string, b: string)
    requires AllSpace(a) && t != "" && t[0] != 'r' && t[0] != '/'
    ensures !Quoted(a + t + b, "re/") && !Quoted(a + t + b, "/")
  {
    var s := a + t + b;
    assert s[0] == if a == "" then t[0] else a[0];
    assert a != "" ==> a[0] in a;
    assert "re/"[0] == 'r' && "/"[0] == '/';
  }

  /** The names of a list of types are what is between its commas. */
  lemma {:induction false} CommaSplits(name: string, rest: string)
    requires ',' !in name
    ensures SplitCommas(name) == [name] && SplitCommas(name + "," + rest) == [name] + SplitCommas(rest)
  {
    if name == "" {
      assert (name + "," + rest)[1..] == rest;
    } else {
      assert name[0] in name;
      assert (name + "," + rest)[0] == name[0] && (name + "," + rest)[1..] == name[1..] + "," + rest;
      CommaSplits(name[1..], rest);
      assert [name[0]] + name[1..] == name;
    }
  }

  /** An entry without types is for all pages. */
  lemma NoTypesAreAll()
    ensures Pages(TypeNames(None)) == ALL_PAGES && Unknown(TypeNames(None)) == []
  {
    var names := ["all"];
    NothingToStrip("all");
    assert names[..0] == [] && ALL_PAGES == PagesOf(Strip(names[0]));
  }

  // ---- Reading an entry ----

  /** What is wrong with the keys of an entry before its locator and types are looked at. */
  function Missing(e: Entry): seq<Mistake> {
    if e.otherKeys != {} then [UnknownKeys]
    else if e.file.None? || e.file.value == "" || e.at.None? then [NoFileOrAt]
    else if e.why.None? || e.why.value == "" then [NoWhy]
    else if Contains(e.why.value, PLACEHOLDER) then [StillPlaceholder]
    else []
  }

  /** The rule an entry is read as, if any, and the mistakes reported for it. */
  function Read(e: Entry, valid: string -> bool): (Option<Rule>, seq<Mistake>) {
    if Missing(e) != [] then (None, Missing(e))
    else
      var (at, wrong) := Locate(Str(e.at.value), valid);
      var names := TypeNames(e.types);
      if at.None? then (None, wrong)
      else if Pages(names) == {} then (None, Unknown(names))
      else (Some(Rule(e.file.value, at.value, Pages(names), e.sig, e.why.value)), Unknown(names))
  }

  lemma {:induction false} UnknownOrPages(names: seq<string>)
    ensures Pages(names) == {} && Unknown(names) == [] <==> names == []
  {
    if names != [] {
      var front, name := names[..|names| - 1], names[|names| - 1];
      if IsType(Strip(name)) {
        var page :| page in PagesOf(Strip(name));
        assert page in Pages(names);
      }
    }
  }

  /**
   * An entry that is not read is reported, with one exception the tool does not see:
   * an empty list of types drops the entry without a word.
   */
  lemma OnlyNoTypesIsSilent(e: Entry, valid: string -> bool)
    ensures Read(e, valid) == (None, []) <==>
      && Missing(e) == []
      && Locate(Str(e.at.value), valid).0.Some?
      && e.types == Some(Listed([]))
  {
    UnknownOrPages(TypeNames(e.types));
  }

  lemma PagesAreKnown(names: seq<string>)
    ensures Pages(names) <= ALL_PAGES
  {
    forall page | page in Pages(names)
      ensures page in ALL_PAGES
    {
      var k :| 0 <= k < |names| && page in PagesOf(Strip(names[k]));
    }
  }

  lemma LocatesSomething(loc: string, valid: string -> bool)
    ensures var at := Locate(loc, valid).0;
      at.Some? ==>
        && (at.value.Regex? ==> valid(at.value.pattern))
        && (at.value.Literal? ==> at.value.text != "")
  {
  }

  /** A waiver that is read says why, in words that are not the generated stub. */
  lemma ReadSaysWhy(e: Entry, valid: string -> bool)
    requires Read(e, valid).0.Some?
    ensures var w := Read(e, valid).0.value;
      && w.why != "" && !Contains(w.why, PLACEHOLDER) && w.file != ""
      && {} < w.pages <= ALL_PAGES
      && (w.at.Regex? ==> valid(w.at.pattern))
      && (w.at.Literal? ==> w.at.text != "")
  {
    PagesAreKnown(TypeNames(e.types));
    LocatesSomething(Str(e.at.value), valid);
  }

  // ---- Covering a point ----

  /** The text of a line; no text where there is no line. */
  function SrcLine(disk: Disk, path: string, line: nat): string {
    if path in disk && 0 < line <= |disk[path]| then disk[path][line - 1] else ""
  }

  predicate Locates(at: Locator, disk: Disk, search: (string, string) -> bool, path: string, line: nat) {
    match at
    case Line(n) => n == line
    case Literal(text) => Contains(SrcLine(disk, path, line), text)
    case Regex(pattern) => search(pattern, SrcLine(disk, path, line))
  }

  predicate Covers(w: Rule, disk: Disk, search: (string, string) -> bool, p: Point) {
    && w.file == Basename(p.path)
    && p.page in w.pages
    && Locates(w.at, disk, search, p.path, p.line)
    && (w.sig.Some? && w.sig.value != "" ==> Fnmatch(p.sig, w.sig.value))
  }
}
