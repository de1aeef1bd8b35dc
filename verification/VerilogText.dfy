/** The pieces of Verilog text that the constant-bit parser recognises: literals, selects, names and replications. */
module VerilogText {
  import opened Text
  import opened Options
  import opened BitGlobs

  datatype Leaf =
    | Literal(width: nat, text: string)
    | Slice(name: string, msb: nat, lsb: nat)
    | Bit(name: string, index: nat)
    | Whole(name: string)

  // ---- Scanning ----

  /** The end of the run of characters of a class that starts at `i`. */
  function Skip(t: string, i: nat, kind: char -> bool): (j: nat)
    requires i <= |t|
    ensures i <= j <= |t| && (forall k :: i <= k < j ==> kind(t[k])) && (j < |t| ==> !kind(t[j]))
    decreases |t| - i
  {
    if i < |t| && kind(t[i]) then Skip(t, i + 1, kind) else i
  }

  function Spaces(t: string, i: nat): (j: nat)
    requires i <= |t|
    ensures i <= j <= |t| && (forall k :: i <= k < j ==> IsSpace(t[k])) && (j < |t| ==> !IsSpace(t[j]))
  {
    Skip(t, i, IsSpace)
  }

  function Digits(t: string, i: nat): (j: nat)
    requires i <= |t|
    ensures i <= j <= |t| && (forall k :: i <= k < j ==> IsDigit(t[k])) && (j < |t| ==> !IsDigit(t[j]))
  {
    Skip(t, i, IsDigit)
  }

  predicate Is(t: string, i: nat, c: char) {
    i < |t| && t[i] == c
  }

  predicate IsValueDigit(c: char) {
    '0' <= c <= '9' || 'a' <= c <= 'f' || 'A' <= c <= 'F' || c in "_xXzZ?"
  }

  /** The digits, `a` to `f` in either case, the underscore, and the letters for unknown and floating bits. */
  lemma ValueDigitsAre(c: char)
    ensures IsValueDigit(c) <==>
      || 48 <= c as int <= 57 || 97 <= c as int <= 102 || 65 <= c as int <= 70
      || c as int in {63, 88, 90, 95, 120, 122}
  {
    assert forall x :: x in "_xXzZ?" <==> x == '_' || x == 'x' || x == 'X' || x == 'z' || x == 'Z' || x == '?';
  }

  /** The number written between two places. */
  function Number(t: string, i: nat, j: nat): nat
    requires i <= j <= |t| && forall k :: i <= k < j ==> IsDigit(t[k])
  {
    IntOf(t[i..j])
  }

  /** After the tick of a sized literal: an optional sign, a base and at least one digit, to the end. */
  predicate LiteralTail(t: string, i: nat)
    requires i <= |t|
  {
    var a := Spaces(t, i);
    var b := if a < |t| && t[a] in "sS" then a + 1 else a;
    b < |t| && t[b] in "bBoOdDhH" &&
    var c := Spaces(t, b + 1);
    c < |t| && forall k :: c <= k < |t| ==> IsValueDigit(t[k])
  }

  /** Where the number of a sized literal and the white space after it end. */
  function LiteralTick(t: string): (b: nat)
    ensures b <= |t| && forall k :: 0 <= k < b ==> IsSpace(t[k]) || IsDigit(t[k])
  {
    Spaces(t, Digits(t, 0))
  }

  function LiteralOf(t: string): (r: Option<Leaf>)
    ensures r.Some? ==> t != "" && IsDigit(t[0])
    ensures r.Some? ==> Is(t, LiteralTick(t), '\'') && LiteralTail(t, LiteralTick(t) + 1)
  {
    var a := Digits(t, 0);
    var b := LiteralTick(t);
    if a > 0 && Is(t, b, '\'') && LiteralTail(t, b + 1) then Some(Literal(Number(t, 0, a), t)) else None
  }

  datatype Range = Range(msb: nat, lsb: Option<nat>)

  /** Where a number with white space around it ends. */
  function NumberEnd(u: string): (c: nat)
    ensures c <= |u| && forall k :: 0 <= k < c ==> IsSpace(u[k]) || IsDigit(u[k])
  {
    Spaces(u, Digits(u, Spaces(u, 0)))
  }

  /** What is between the brackets of a select: a number, or two with a colon between. */
  function RangeOf(u: string): (r: Option<Range>)
    ensures r.Some? ==>
      var c := NumberEnd(u); c == |u| || (u[c] == ':' && NumberOf(u[c + 1..]).Some?)
  {
    var a := Spaces(u, 0);
    var b := Digits(u, a);
    var c := NumberEnd(u);
    if a == b then None
    else if c == |u| then Some(Range(Number(u, a, b), None))
    else if u[c] == ':' then
      match NumberOf(u[c + 1..]) case Some(n) => Some(Range(Number(u, a, b), Some(n))) case None => None
    else None
  }

  /** A number with white space around it. */
  function NumberOf(u: string): (r: Option<nat>)
    ensures r.Some? ==> NumberEnd(u) == |u|
  {
    var a := Spaces(u, 0);
    var b := Digits(u, a);
    if a < b && NumberEnd(u) == |u| then Some(Number(u, a, b)) else None
  }

  /** Where a name followed by white space ends. */
  function NameEnd(t: string): (b: nat)
    ensures b <= |t| && forall k :: 0 <= k < b ==> IsWord(t[k]) || IsSpace(t[k])
  {
    Spaces(t, Skip(t, 0, IsWord))
  }

  /** After the name and white space, one pair of brackets to the end. */
  predicate Bracketed(t: string) {
    NameEnd(t) < |t| - 1 && t[NameEnd(t)] == '[' && t[|t| - 1] == ']'
  }

  function InBrackets(t: string): string
    requires Bracketed(t)
  {
    t[NameEnd(t) + 1..|t| - 1]
  }

  function SelectOf(t: string): (r: Option<Leaf>)
    ensures r.Some? ==> t != "" && IsWord(t[0]) && Bracketed(t) && RangeOf(InBrackets(t)).Some?
  {
    var a := Skip(t, 0, IsWord);
    if a > 0 && Bracketed(t) then
      match RangeOf(InBrackets(t))
      case None => None
      case Some(Range(i, None)) => Some(Bit(t[..a], i))
      case Some(Range(i, Some(j))) => Some(Slice(t[..a], i, j))
    else None
  }

  function LeafOf(t: string): (r: Option<Leaf>)
    ensures r.Some? ==> t != "" && IsWord(t[0])
  {
    if LiteralOf(t).Some? then LiteralOf(t)
    else if SelectOf(t).Some? then SelectOf(t)
    else if t != "" && Skip(t, 0, IsWord) == |t| then Some(Whole(t))
    else None
  }

  /** Text that begins like the inside of a replication: a number and an opening brace. */
  predicate StartsRepeat(t: string) {
    var a := Spaces(t, 0);
    var b := Digits(t, a);
    a < b && Is(t, Spaces(t, b), '{')
  }

  predicate Braced(t: string) {
    |t| >= 2 && t[0] == '{' && t[|t| - 1] == '}'
  }

  function Inside(t: string): string
    requires Braced(t)
  {
    t[1..|t| - 1]
  }

  /** The start of the run of white space that ends at `i`. */
  function SpacesBack(t: string, i: nat): (j: nat)
    requires i <= |t|
    ensures j <= i && (forall k :: j <= k < i ==> IsSpace(t[k])) && (j > 0 ==> !IsSpace(t[j - 1]))
  {
    if i > 0 && IsSpace(t[i - 1]) then SpacesBack(t, i - 1) else i
  }

  datatype Repetition = Repetition(count: nat, body: string, open: nat, close: nat)

  /** A replication: its count, and the text between its inner braces, with their places inside the outer ones. */
  function RepeatOf(t: string): (r: Option<Repetition>)
    ensures r.Some? ==> Braced(t) && StartsRepeat(Inside(t))
    ensures r.Some? ==> IsRepetition(Inside(t), r.value)
  {
    if !Braced(t) then None
    else
      var u := Inside(t);
      var a := Spaces(u, 0);
      var b := Digits(u, a);
      var c := Spaces(u, b);
      var k := SpacesBack(u, |u|);
      if a < b && Is(u, c, '{') && c + 1 < k && u[k - 1] == '}' then
        Some(Repetition(Number(u, a, b), u[c + 1..k - 1], c, k - 1))
      else None
  }

  predicate IsRepetition(u: string, x: Repetition) {
    && x.open < x.close < |u|
    && u[x.open] == '{' && u[x.close] == '}' && x.body == u[x.open + 1..x.close]
    && (forall k :: 0 <= k < x.open ==> IsSpace(u[k]) || IsDigit(u[k]))
    && (forall k :: x.close < k < |u| ==> IsSpace(u[k]))
  }

  /** Scanning a prefix finds what scanning the whole text finds there. */
  lemma {:induction false} SkipInPrefix(t: string, n: nat, i: nat, kind: char -> bool)
    requires i <= n <= |t| && Skip(t, i, kind) < n
    ensures Skip(t[..n], i, kind) == Skip(t, i, kind)
    decreases n - i
  {
    if i < n && kind(t[i]) {
      SkipInPrefix(t, n, i + 1, kind);
    }
  }
}
