/** The feature modeling language: items, grammar and printed form, as functions on text. */
module FmlSyntax {
  import opened Wrappers

  datatype Result<+T> = Ok(value: T) | Error {
    predicate IsFailure() { Error? }

    function PropagateFailure<U>(): Result<U>
      requires Error?
    {
      Error
    }

    function Extract(): T
      requires Ok?
    {
      value
    }
  }

  /** A feature function descriptor. */
  datatype Feature = Feature(kind: string, name: Option<string>, argument: Option<int>,
                             parameters: seq<(string, string)>, features: seq<Feature>)

  // ----- Characters -----

  predicate IsSpace(c: char) { c == ' ' || 9 <= c as int <= 13 }

  predicate IsDigit(c: char) { '0' <= c <= '9' }

  predicate IsAlpha(c: char) { 'a' <= c <= 'z' || 'A' <= c <= 'Z' }

  predicate IsNameStart(c: char) { IsAlpha(c) || c == '_' || c == '/' }

  predicate IsNameChar(c: char) { IsAlpha(c) || IsDigit(c) || c == '_' || c == '-' || c == '/' }

  predicate IsNumberChar(c: char) { IsDigit(c) || c == '.' }

  predicate IsName(s: string) {
    s != "" && IsNameStart(s[0]) && forall i :: 0 <= i < |s| ==> IsNameChar(s[i])
  }

  predicate QuoteFree(s: string) {
    forall i :: 0 <= i < |s| ==> s[i] != '"'
  }

  // ----- Lexer -----

  /** An item of the text; Bad stands for a string without its closing quote. */
  datatype Item = End | Name(text: string) | Number(text: string) | Str(text: string) | Punct(c: char) | Bad

  function SkipLine(s: string): (r: string)
    ensures |r| <= |s|
  {
    if s == "" || s[0] == '\n' then s else SkipLine(s[1..])
  }

  /** Drops white space and comments. */
  function SkipBlank(s: string): (r: string)
    ensures |r| <= |s|
    decreases |s|
  {
    if s == "" then s
    else if s[0] == '#' then SkipBlank(SkipLine(s[1..]))
    else if IsSpace(s[0]) then SkipBlank(s[1..])
    else s
  }

  /** The length of the longest prefix of name characters. */
  function NameLength(s: string): (n: nat)
    ensures n <= |s|
  {
    if s == "" || !IsNameChar(s[0]) then 0 else 1 + NameLength(s[1..])
  }

  function NumberLength(s: string): (n: nat)
    ensures n <= |s|
  {
    if s == "" || !IsNumberChar(s[0]) then 0 else 1 + NumberLength(s[1..])
  }

  /** The length of the prefix before the next quote. */
  function QuoteLength(s: string): (n: nat)
    ensures n <= |s|
  {
    if s == "" || s[0] == '"' then 0 else 1 + QuoteLength(s[1..])
  }

  /** The item at the start of text that does not begin with a blank, and its length in characters. */
  function LexItem(s: string): (r: (Item, nat))
    ensures r.1 <= |s| && (s != "" ==> r.1 > 0)
  {
    if s == "" then (End, 0)
    else if IsDigit(s[0]) || s[0] == '+' || s[0] == '-' then
      var n := 1 + NumberLength(s[1..]);
      (Number(s[..n]), n)
    else if s[0] == '"' then
      var n := 1 + QuoteLength(s[1..]);
      if n == |s| then (Bad, n) else (Str(s[1..n]), n + 1)
    else if IsNameStart(s[0]) then
      var n := NameLength(s);
      assert n > 0;
      (Name(s[..n]), n)
    else (if s[0] == '\0' then End else Punct(s[0]), 1)
  }

  /** All items up to the end of the text, or up to a string that does not end. */
  function Tokens(s: string): (ts: seq<Item>)
    decreases |s|
  {
    var t := SkipBlank(s);
    var (item, n) := LexItem(t);
    if item == End then []
    else if item == Bad then [Bad]
    else [item] + Tokens(t[n..])
  }

  function Current(ts: seq<Item>): Item {
    if ts == [] then End else ts[0]
  }

  /** Moves to the next item, which is read at once. */
  function Next(ts: seq<Item>): (r: Result<seq<Item>>)
    requires ts != []
    ensures r.Ok? ==> r.value == ts[1..]
  {
    if |ts| > 1 && ts[1] == Bad then Error else Ok(ts[1..])
  }

  // ----- Numbers -----

  function DigitValue(c: char): int { c as int - '0' as int }

  function DigitChar(d: nat): char
    requires d < 10
  {
    ('0' as int + d) as char
  }

  function NatToString(n: nat): (s: string)
    ensures |s| > 0 && forall i :: 0 <= i < |s| ==> IsDigit(s[i])
  {
    if n < 10 then [DigitChar(n)] else NatToString(n / 10) + [DigitChar(n % 10)]
  }

  function IntToString(n: int): string {
    if n < 0 then "-" + NatToString(-n) else NatToString(n)
  }

  function DigitsToNat(s: string): (r: Option<nat>)
  {
    if s == "" then Some(0)
    else if !IsDigit(s[|s| - 1]) then None
    else
      match DigitsToNat(s[..|s| - 1])
      case None => None
      case Some(n) => Some(10 * n + DigitValue(s[|s| - 1]))
  }

  predicate IsInt32(n: int) { -0x8000_0000 <= n < 0x8000_0000 }

  /** An optional sign and decimal digits in the 32-bit range. */
  function ParseInt32(s: string): (r: Option<int>)
    ensures r.Some? ==> IsInt32(r.value)
  {
    var negative := s != "" && s[0] == '-';
    var digits := if negative || (s != "" && s[0] == '+') then s[1..] else s;
    if digits == "" then None
    else
      match DigitsToNat(digits)
      case None => None
      case Some(n) => var v: int := if negative then -(n as int) else n; if IsInt32(v) then Some(v) else None
  }

  // ----- Parser -----

  /** The argument and parameters read so far. */
  datatype Args = Args(argument: Option<int>, parameters: seq<(string, string)>)

  function ParseParameter(a: Args, p: seq<Item>): (r: Result<(Args, seq<Item>)>)
    ensures r.Ok? ==> |r.value.1| < |p|
  {
    match Current(p)
    case Number(text) =>
      var q :- Next(p);
      (match ParseInt32(text)
       case None => Error
       case Some(n) => Ok((a.(argument := Some(n)), q)))
    case Name(text) =>
      var q :- Next(p);
      if Current(q) != Punct('=') then Error
      else
        var v :- Next(q);
        if !(Current(v).Name? || Current(v).Number? || Current(v).Str?) then Error
        else
          var w :- Next(v);
          Ok((a.(parameters := a.parameters + [(text, Current(v).text)]), w))
    case _ => Error
  }

  function ParseList(a: Args, p: seq<Item>): (r: Result<(Args, seq<Item>)>)
    ensures r.Ok? ==> |r.value.1| < |p|
    decreases |p|
  {
    var (b, q) :- ParseParameter(a, p);
    if Current(q) == Punct(',') then
      var n :- Next(q);
      ParseList(b, n)
    else if Current(q) != Punct(')') then Error
    else
      var n :- Next(q);
      Ok((b, n))
  }

  function ParseArgs(p: seq<Item>): (r: Result<(Args, seq<Item>)>)
    ensures r.Ok? ==> |r.value.1| <= |p|
  {
    if Current(p) == Punct('(') then
      var q :- Next(p);
      ParseList(Args(None, []), q)
    else Ok((Args(None, []), p))
  }

  function ParseName(p: seq<Item>): (r: Result<(Option<string>, seq<Item>)>)
    ensures r.Ok? ==> |r.value.1| <= |p|
  {
    if Current(p) == Punct(':') then
      var q :- Next(p);
      if !(Current(q).Name? || Current(q).Str?) then Error
      else
        var w :- Next(q);
        Ok((Some(Current(q).text), w))
    else Ok((None, p))
  }

  /** Parses a feature whose type name has been read already. */
  function ParseFeature(kind: string, p: seq<Item>): (r: Result<(Feature, seq<Item>)>)
    ensures r.Ok? ==> |r.value.1| <= |p|
    decreases |p|, 1
  {
    var (args, q) :- ParseArgs(p);
    var (name, w) :- ParseName(q);
    var (subs, z) :- ParseSubs(w);
    Ok((Feature(kind, name, args.argument, args.parameters, subs), z))
  }

  function ParseSubs(p: seq<Item>): (r: Result<(seq<Feature>, seq<Item>)>)
    ensures r.Ok? ==> |r.value.1| <= |p|
    decreases |p|, 0
  {
    if Current(p) == Punct('.') then
      var q :- Next(p);
      if !Current(q).Name? then Error
      else
        var w :- Next(q);
        var (f, z) :- ParseFeature(Current(q).text, w);
        Ok(([f], z))
    else if Current(p) == Punct('{') then
      var q :- Next(p);
      ParseBlock(q)
    else Ok(([], p))
  }

  function ParseBlock(p: seq<Item>): (r: Result<(seq<Feature>, seq<Item>)>)
    ensures r.Ok? ==> |r.value.1| <= |p|
    decreases |p|, 0
  {
    if Current(p) == Punct('}') then
      var q :- Next(p);
      Ok(([], q))
    else if !Current(p).Name? then Error
    else
      var q :- Next(p);
      var (f, w) :- ParseFeature(Current(p).text, q);
      var (fs, z) :- ParseBlock(w);
      Ok(([f] + fs, z))
  }

  function ParseAll(p: seq<Item>): Result<seq<Feature>>
    decreases |p|
  {
    if p == [] then Ok([])
    else if !Current(p).Name? then Error
    else
      var q :- Next(p);
      if Current(q) == Punct('=') then Error
      else
        var (f, w) :- ParseFeature(Current(p).text, q);
        var fs :- ParseAll(w);
        Ok([f] + fs)
  }

  function Parse(source: string): Result<seq<Feature>> {
    ParseAll(Tokens(source))
  }

  // ----- Printer -----
  // Each function gives the printed form of its first argument followed by the text t.

  function PrintParameter(p: (string, string), t: string): string {
    p.0 + ("=" + ("\"" + (p.1 + ("\"" + t))))
  }

  /** Each parameter comes after a comma, unless it is the first one in the list. */
  function PrintParameters(ps: seq<(string, string)>, first: bool, t: string): string {
    if ps == [] then t
    else
      var rest := PrintParameter(ps[0], PrintParameters(ps[1..], false, t));
      if first then rest else "," + rest
  }

  predicate HasArgument(f: Feature) {
    f.argument.Some? && f.argument.value != 0
  }

  function PrintArgs(f: Feature, t: string): string {
    if HasArgument(f) then
      "(" + (IntToString(f.argument.value) + PrintParameters(f.parameters, false, ")" + t))
    else if f.parameters != [] then "(" + PrintParameters(f.parameters, true, ")" + t)
    else t
  }

  function Print(f: Feature, t: string): string
    decreases f, 1
  {
    f.kind + PrintTail(f, t)
  }

  /** What follows the type name of a feature. */
  function PrintTail(f: Feature, t: string): string
    decreases f, 0
  {
    PrintArgs(f, PrintSubs(f.features, t))
  }

  function PrintSubs(fs: seq<Feature>, t: string): string
    decreases fs, 1
  {
    if |fs| == 0 then t
    else if |fs| == 1 then "." + Print(fs[0], t)
    else " " + ("{" + PrintMore(fs, " " + ("}" + (" " + t))))
  }

  /** Sub-features, each after a space. */
  function PrintMore(fs: seq<Feature>, t: string): string
    decreases fs, 0
  {
    if fs == [] then t else " " + Print(fs[0], PrintMore(fs[1..], t))
  }

  function AsFML(fs: seq<Feature>): string {
    if fs == [] then "" else Print(fs[0], "\n" + AsFML(fs[1..]))
  }
}
