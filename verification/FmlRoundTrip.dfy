/** Printing a feature forest and parsing the text gives the forest back, up to what is not printed. */
module FmlRoundTrip {
  import opened Wrappers
  import opened FmlSyntax
  import opened FmlGrammar
  import opened FmlLayout

  // ----- Which descriptors the text can carry -----

  /** Types and parameter names are lexical names, feature names and values have no quotes, arguments fit 32 bits. */
  predicate Legal(f: Feature) {
    && IsName(f.kind) && (f.name.Some? ==> QuoteFree(f.name.value))
    && (f.argument.Some? ==> IsInt32(f.argument.value))
    && (forall i :: 0 <= i < |f.parameters| ==> LegalParameter(f.parameters[i]))
    && (forall i :: 0 <= i < |f.features| ==> Legal(f.features[i]))
  }

  predicate LegalParameter(p: (string, string)) {
    IsName(p.0) && QuoteFree(p.1)
  }

  predicate LegalAll(fs: seq<Feature>) {
    forall i :: 0 <= i < |fs| ==> Legal(fs[i])
  }

  /** A legal descriptor in which nothing is set that the printer leaves out: feature names and
      explicit zero arguments. */
  predicate Printable(f: Feature) {
    && Legal(f) && f.name == None && f.argument != Some(0)
    && (forall i :: 0 <= i < |f.features| ==> Printable(f.features[i]))
  }

  /** The descriptor without feature names and explicit zero arguments. */
  function Normalize(f: Feature): Feature {
    Feature(f.kind, None, if HasArgument(f) then f.argument else None, f.parameters,
            seq(|f.features|, i requires 0 <= i < |f.features| => Normalize(f.features[i])))
  }

  function NormalizeAll(fs: seq<Feature>): seq<Feature> {
    seq(|fs|, i requires 0 <= i < |fs| => Normalize(fs[i]))
  }

  lemma NormalizeStep(fs: seq<Feature>)
    requires fs != []
    ensures NormalizeAll(fs) == [Normalize(fs[0])] + NormalizeAll(fs[1..])
  {
  }

  lemma {:induction false} PrintableIffNormal(f: Feature)
    requires Legal(f)
    ensures Printable(f) <==> Normalize(f) == f
  {
    forall i | 0 <= i < |f.features|
      ensures Printable(f.features[i]) <==> Normalize(f.features[i]) == f.features[i]
    {
      PrintableIffNormal(f.features[i]);
    }
    var n := Normalize(f);
    if Printable(f) {
      assert n.features == f.features;
    }
    if n == f {
      assert forall i :: 0 <= i < |f.features| ==> n.features[i] == f.features[i];
    }
  }

  // ----- Numbers -----

  lemma {:induction false} NatRoundTrip(n: nat)
    ensures DigitsToNat(NatToString(n)) == Some(n)
  {
    var s := NatToString(n);
    if n < 10 {
      assert s[..0] == "";
    } else {
      NatRoundTrip(n / 10);
      assert s[..|s| - 1] == NatToString(n / 10);
    }
  }

  lemma IntRoundTrip(n: int)
    requires IsInt32(n)
    ensures ParseInt32(IntToString(n)) == Some(n)
  {
    NatRoundTrip(if n < 0 then -n else n);
    if n < 0 {
      assert ("-" + NatToString(-n))[1..] == NatToString(-n);
    }
  }

  lemma IntIsNumber(n: int)
    ensures IsNumberText(IntToString(n))
  {
  }

  // ----- Trees for descriptors -----

  function ParameterEntries(ps: seq<(string, string)>): (es: seq<Entry>)
    ensures |es| == |ps|
  {
    seq(|ps|, i requires 0 <= i < |ps| => Parameter(ps[i].0, Str(ps[i].1)))
  }

  /** The argument if there is one, and the parameters. */
  function Entries(f: Feature): seq<Entry> {
    (if f.argument.Some? then [Argument(IntToString(f.argument.value))] else []) + ParameterEntries(f.parameters)
  }

  /** A tree with everything that the descriptor holds, names and parameter values in quotes. */
  function TreeOf(f: Feature): Tree
    decreases f, 0
  {
    Tree(f.kind, Entries(f), if f.name.None? then None else Some(Str(f.name.value)), SubsOf(f.features))
  }

  function SubsOf(fs: seq<Feature>): Subs
    decreases fs, 1
  {
    if |fs| == 0 then NoSubs else if |fs| == 1 then Dotted(TreeOf(fs[0])) else Block(TreesOf(fs))
  }

  function TreesOf(fs: seq<Feature>): seq<Tree>
    decreases fs, 0
  {
    if fs == [] then [] else [TreeOf(fs[0])] + TreesOf(fs[1..])
  }

  lemma {:induction false} AddParameters(a: Args, ps: seq<(string, string)>)
    ensures AddEntries(a, ParameterEntries(ps)) == Args(a.argument, a.parameters + ps)
    decreases |ps|
  {
    if ps == [] {
      assert a.parameters + ps == a.parameters;
    } else {
      assert ParameterEntries(ps)[1..] == ParameterEntries(ps[1..]);
      AddParameters(Args(a.argument, a.parameters + [ps[0]]), ps[1..]);
      assert a.parameters + [ps[0]] + ps[1..] == a.parameters + ps;
    }
  }

  lemma EntriesMean(f: Feature)
    requires Legal(f)
    ensures forall i :: 0 <= i < |Entries(f)| ==> IsEntry(Entries(f)[i])
    ensures AddEntries(Args(None, []), Entries(f)) == Args(f.argument, f.parameters)
  {
    AddParameters(Args(f.argument, []), f.parameters);
    assert [] + f.parameters == f.parameters;
    if f.argument.Some? {
      IntRoundTrip(f.argument.value);
      FirstEntry(Argument(IntToString(f.argument.value)), ParameterEntries(f.parameters));
    } else {
      assert Entries(f) == ParameterEntries(f.parameters);
    }
  }

  lemma FirstEntry(e: Entry, es: seq<Entry>)
    requires IsEntry(e) && forall i :: 0 <= i < |es| ==> IsEntry(es[i])
    ensures forall i :: 0 <= i < |[e] + es| ==> IsEntry(([e] + es)[i])
    ensures AddEntries(Args(None, []), [e] + es) == AddEntries(AddEntry(Args(None, []), e), es)
  {
    assert ([e] + es)[1..] == es;
  }

  /** The tree of a legal descriptor stands for it. */
  lemma {:induction false} TreeMeans(f: Feature)
    requires Legal(f)
    ensures IsTree(TreeOf(f)) && Meaning(TreeOf(f)) == f
    decreases f, 0
  {
    EntriesMean(f);
    SubsMean(f.features);
  }

  lemma {:induction false} SubsMean(fs: seq<Feature>)
    requires LegalAll(fs)
    ensures IsSubs(SubsOf(fs)) && SubsMeaning(SubsOf(fs)) == fs
    decreases fs, 1
  {
    if |fs| == 1 {
      TreeMeans(fs[0]);
    } else if |fs| > 1 {
      TreesMean(fs);
    }
  }

  lemma {:induction false} TreesMean(fs: seq<Feature>)
    requires LegalAll(fs)
    ensures AreTrees(TreesOf(fs)) && Meanings(TreesOf(fs)) == fs
    decreases fs, 0
  {
    if fs != [] {
      TreeMeans(fs[0]);
      TreesMean(fs[1..]);
      assert TreesOf(fs)[1..] == TreesOf(fs[1..]);
    }
  }

  // ----- Every legal forest can be written -----

  predicate Spellable(items: seq<Item>) {
    forall i :: 0 <= i < |items| ==> CanPrecede(items[i], "")
  }

  predicate SpellableEntry(e: Entry) {
    match e
    case Argument(text) => IsNumberText(text)
    case Parameter(name, value) => IsName(name) && CanPrecede(value, "")
  }

  lemma EntryIsSpellable(e: Entry, p: seq<Item>)
    requires SpellableEntry(e) && Spellable(p)
    ensures Spellable(EntryItems(e, p))
  {
  }

  lemma {:induction false} ListIsSpellable(es: seq<Entry>, p: seq<Item>)
    requires es != [] && Spellable(p) && forall i :: 0 <= i < |es| ==> SpellableEntry(es[i])
    ensures Spellable(ListItems(es, p))
    decreases |es|
  {
    if |es| > 1 {
      ListIsSpellable(es[1..], p);
    }
    EntryIsSpellable(es[0], if |es| == 1 then [Punct(')')] + p else [Punct(',')] + ListItems(es[1..], p));
  }

  lemma EntriesAreSpellable(f: Feature, p: seq<Item>)
    requires Legal(f) && Spellable(p)
    ensures Spellable(EntriesItems(Entries(f), p))
  {
    forall i | 0 <= i < |Entries(f)| ensures SpellableEntry(Entries(f)[i]) {
      if f.argument.Some? && i == 0 {
        IntIsNumber(f.argument.value);
      } else {
        var j := if f.argument.Some? then i - 1 else i;
        assert Entries(f)[i] == Parameter(f.parameters[j].0, Str(f.parameters[j].1));
        assert LegalParameter(f.parameters[j]);
      }
    }
    if Entries(f) != [] {
      ListIsSpellable(Entries(f), p);
    }
  }

  lemma {:induction false} TailIsSpellable(f: Feature, p: seq<Item>)
    requires Legal(f) && Spellable(p)
    ensures Spellable(TailItems(TreeOf(f), p))
    decreases f, 0
  {
    SubsAreSpellable(f.features, p);
    EntriesAreSpellable(f, NameItems(TreeOf(f).name, SubsItems(SubsOf(f.features), p)));
  }

  lemma {:induction false} SubsAreSpellable(fs: seq<Feature>, p: seq<Item>)
    requires LegalAll(fs) && Spellable(p)
    ensures Spellable(SubsItems(SubsOf(fs), p))
    decreases fs, 1
  {
    if |fs| == 1 {
      TailIsSpellable(fs[0], p);
    } else if |fs| > 1 {
      TreesAreSpellable(fs, [Punct('}')] + p);
    }
  }

  lemma {:induction false} TreesAreSpellable(fs: seq<Feature>, p: seq<Item>)
    requires LegalAll(fs) && Spellable(p)
    ensures Spellable(TreesItems(TreesOf(fs), p))
    decreases fs, 0
  {
    if fs != [] {
      TreesAreSpellable(fs[1..], p);
      assert TreesOf(fs)[1..] == TreesOf(fs[1..]);
      TailIsSpellable(fs[0], TreesItems(TreesOf(fs[1..]), p));
    }
  }

  /** A legal forest, feature names and zero arguments included, has a text that is parsed as that forest. */
  lemma LegalCanBeWritten(fs: seq<Feature>) returns (source: string)
    requires LegalAll(fs)
    ensures Parse(source) == Ok(fs)
  {
    TreesMean(fs);
    TreesAreSpellable(fs, []);
    var ws := SpacedOut(TreesItems(TreesOf(fs), []));
    source := Text(ws, "");
    assert Derives(ItemsOf(ws), fs);
    ParsesIffWritten(source, fs);
  }

  // ----- Reading the printed form -----

  lemma LexBlank(c: char, t: string)
    requires IsSpace(c)
    ensures Tokens([c] + t) == Tokens(t)
  {
    assert ([c] + t)[1..] == t;
  }

  lemma LexParameter(p: (string, string), t: string)
    requires LegalParameter(p)
    ensures Tokens(PrintParameter(p, t)) == EntryItems(Parameter(p.0, Str(p.1)), Tokens(t))
  {
    var quoted := "\"" + (p.1 + ("\"" + t));
    ItemIsRead(Name(p.0), "=" + quoted);
    ItemIsRead(Punct('='), quoted);
    ItemIsRead(Str(p.1), t);
  }

  lemma {:induction false} LexParameters(ps: seq<(string, string)>, t: string)
    requires ps != [] && forall i :: 0 <= i < |ps| ==> LegalParameter(ps[i])
    ensures Tokens(PrintParameters(ps, true, ")" + t)) == ListItems(ParameterEntries(ps), Tokens(t))
    decreases |ps|
  {
    var more := PrintParameters(ps[1..], false, ")" + t);
    LexParameter(ps[0], more);
    assert ParameterEntries(ps)[1..] == ParameterEntries(ps[1..]);
    if |ps| == 1 {
      ItemIsRead(Punct(')'), t);
    } else {
      LexParameters(ps[1..], t);
      ItemIsRead(Punct(','), PrintParameters(ps[1..], true, ")" + t));
    }
  }

  lemma LexArgument(f: Feature, t: string)
    requires Legal(f) && HasArgument(f)
    ensures Tokens(PrintArgs(f, t)) == EntriesItems(Entries(f), Tokens(t))
  {
    var number, more := IntToString(f.argument.value), PrintParameters(f.parameters, false, ")" + t);
    ItemIsRead(Punct('('), number + more);
    IntIsNumber(f.argument.value);
    ItemIsRead(Number(number), more);
    assert Entries(f)[1..] == ParameterEntries(f.parameters);
    if f.parameters == [] {
      ItemIsRead(Punct(')'), t);
    } else {
      LexParameters(f.parameters, t);
      ItemIsRead(Punct(','), PrintParameters(f.parameters, true, ")" + t));
    }
  }

  lemma LexArgs(f: Feature, t: string)
    requires Legal(f)
    ensures Tokens(PrintArgs(f, t)) == EntriesItems(Entries(Normalize(f)), Tokens(t))
  {
    if HasArgument(f) {
      LexArgument(f, t);
    } else {
      assert Entries(Normalize(f)) == ParameterEntries(f.parameters);
      if f.parameters != [] {
        ItemIsRead(Punct('('), PrintParameters(f.parameters, true, ")" + t));
        LexParameters(f.parameters, t);
      }
    }
  }

  /** The text ends or goes on with a blank. */
  predicate Stops(t: string) {
    t == "" || IsSpace(t[0])
  }

  lemma {:induction false} LexTail(f: Feature, t: string)
    requires Legal(f) && Stops(t)
    ensures Tokens(PrintTail(f, t)) == TailItems(TreeOf(Normalize(f)), Tokens(t))
    decreases f, 0
  {
    LexSubs(f.features, t);
    LexArgs(f, PrintSubs(f.features, t));
    assert Normalize(f).features == NormalizeAll(f.features);
  }

  lemma LexFeature(f: Feature, t: string)
    requires Legal(f) && Stops(t)
    ensures Tokens(Print(f, t)) == [Name(f.kind)] + TailItems(TreeOf(Normalize(f)), Tokens(t))
    decreases f, 1
  {
    LexTail(f, t);
    ItemIsRead(Name(f.kind), PrintTail(f, t));
  }

  lemma LexBlock(fs: seq<Feature>, t: string)
    requires |fs| > 1
    requires Tokens(PrintMore(fs, " " + ("}" + (" " + t)))) ==
             TreesItems(TreesOf(NormalizeAll(fs)), Tokens(" " + ("}" + (" " + t))))
    ensures Tokens(PrintSubs(fs, t)) == SubsItems(SubsOf(NormalizeAll(fs)), Tokens(t))
  {
    var close := " " + ("}" + (" " + t));
    LexBlank(' ', t);
    ItemIsRead(Punct('}'), " " + t);
    LexBlank(' ', "}" + (" " + t));
    ItemIsRead(Punct('{'), PrintMore(fs, close));
    LexBlank(' ', "{" + PrintMore(fs, close));
  }

  lemma {:induction false} LexSubs(fs: seq<Feature>, t: string)
    requires LegalAll(fs) && Stops(t)
    ensures Tokens(PrintSubs(fs, t)) == SubsItems(SubsOf(NormalizeAll(fs)), Tokens(t))
    decreases fs, 1
  {
    if |fs| == 1 {
      LexFeature(fs[0], t);
      ItemIsRead(Punct('.'), Print(fs[0], t));
    } else if |fs| > 1 {
      LexMore(fs, " " + ("}" + (" " + t)));
      LexBlock(fs, t);
    }
  }

  lemma {:induction false} LexMore(fs: seq<Feature>, t: string)
    requires LegalAll(fs) && Stops(t)
    ensures Tokens(PrintMore(fs, t)) == TreesItems(TreesOf(NormalizeAll(fs)), Tokens(t))
    decreases fs, 0
  {
    if fs != [] {
      var rest := PrintMore(fs[1..], t);
      LexMore(fs[1..], t);
      LexFeature(fs[0], rest);
      LexBlank(' ', Print(fs[0], rest));
      NormalizeStep(fs);
    }
  }

  /** The items read from the printed form of a legal forest. */
  lemma {:induction false} LexForest(fs: seq<Feature>)
    requires LegalAll(fs)
    ensures Tokens(AsFML(fs)) == TreesItems(TreesOf(NormalizeAll(fs)), [])
  {
    if fs != [] {
      LexForest(fs[1..]);
      LexBlank('\n', AsFML(fs[1..]));
      LexFeature(fs[0], "\n" + AsFML(fs[1..]));
      NormalizeStep(fs);
    }
  }

  lemma {:induction false} NormalizedIsLegal(f: Feature)
    requires Legal(f)
    ensures Legal(Normalize(f))
  {
    forall i | 0 <= i < |f.features| ensures Legal(Normalize(f).features[i]) {
      NormalizedIsLegal(f.features[i]);
    }
  }

  /** Printing a legal forest and parsing the text gives the forest back, except that feature
      names and explicit zero arguments are lost. */
  lemma ParsePrinted(fs: seq<Feature>)
    requires LegalAll(fs)
    ensures Parse(AsFML(fs)) == Ok(NormalizeAll(fs))
  {
    LexForest(fs);
    forall i | 0 <= i < |fs| ensures Legal(NormalizeAll(fs)[i]) {
      NormalizedIsLegal(fs[i]);
    }
    TreesMean(NormalizeAll(fs));
    TreesAreParsed(TreesOf(NormalizeAll(fs)));
  }

  // ----- What the parser can produce -----

  predicate LegalItem(item: Item) {
    (item.Name? ==> IsName(item.text)) && (item.Name? || item.Number? || item.Str? ==> QuoteFree(item.text))
  }

  predicate LegalItems(ts: seq<Item>) {
    forall i :: 0 <= i < |ts| ==> LegalItem(ts[i])
  }

  lemma LexItemIsLegal(s: string)
    ensures LegalItem(LexItem(s).0)
  {
    NamePrefix(s);
    if s != "" {
      NumberPrefix(s[1..]);
      QuotePrefix(s[1..]);
      assert forall i :: 1 <= i < |s| ==> s[i] == s[1..][i - 1];
    }
  }

  lemma {:induction false} TokensAreLegal(s: string)
    ensures LegalItems(Tokens(s))
    decreases |s|
  {
    var t := SkipBlank(s);
    var (item, n) := LexItem(t);
    LexItemIsLegal(t);
    if item != End && item != Bad {
      TokensAreLegal(t[n..]);
    }
  }

  predicate LegalArgs(a: Args) {
    && (a.argument.Some? ==> IsInt32(a.argument.value))
    && forall i :: 0 <= i < |a.parameters| ==> LegalParameter(a.parameters[i])
  }

  lemma {:induction false} ListIsLegal(a: Args, p: seq<Item>)
    requires LegalArgs(a) && LegalItems(p) && ParseList(a, p).Ok?
    ensures LegalArgs(ParseList(a, p).value.0) && LegalItems(ParseList(a, p).value.1)
    decreases |p|
  {
    var (b, q) := ParseParameter(a, p).value;
    assert LegalArgs(b) && LegalItems(q);
    if Current(q) == Punct(',') {
      ListIsLegal(b, Next(q).value);
    }
  }

  lemma {:induction false} FeatureIsLegal(kind: string, p: seq<Item>)
    requires IsName(kind) && LegalItems(p) && ParseFeature(kind, p).Ok?
    ensures Legal(ParseFeature(kind, p).value.0) && LegalItems(ParseFeature(kind, p).value.1)
    decreases |p|, 1
  {
    if Current(p) == Punct('(') {
      ListIsLegal(Args(None, []), Next(p).value);
    }
    var (args, q) := ParseArgs(p).value;
    var (name, w) := ParseName(q).value;
    SubsAreLegal(w);
  }

  lemma {:induction false} SubsAreLegal(p: seq<Item>)
    requires LegalItems(p) && ParseSubs(p).Ok?
    ensures LegalAll(ParseSubs(p).value.0) && LegalItems(ParseSubs(p).value.1)
    decreases |p|, 0
  {
    if Current(p) == Punct('.') {
      var q := Next(p).value;
      FeatureIsLegal(Current(q).text, Next(q).value);
    } else if Current(p) == Punct('{') {
      BlockIsLegal(Next(p).value);
    }
  }

  lemma {:induction false} BlockIsLegal(p: seq<Item>)
    requires LegalItems(p) && ParseBlock(p).Ok?
    ensures LegalAll(ParseBlock(p).value.0) && LegalItems(ParseBlock(p).value.1)
    decreases |p|, 0
  {
    if Current(p) != Punct('}') {
      FeatureIsLegal(Current(p).text, Next(p).value);
      BlockIsLegal(ParseFeature(Current(p).text, Next(p).value).value.1);
    }
  }

  lemma {:induction false} ParsedItemsAreLegal(p: seq<Item>)
    requires LegalItems(p) && ParseAll(p).Ok?
    ensures LegalAll(ParseAll(p).value)
    decreases |p|
  {
    if p != [] {
      FeatureIsLegal(Current(p).text, Next(p).value);
      ParsedItemsAreLegal(ParseFeature(Current(p).text, Next(p).value).value.1);
    }
  }

  /** Whatever the text, a successful parse yields a legal forest. */
  lemma ParsedIsLegal(source: string)
    requires Parse(source).Ok?
    ensures LegalAll(Parse(source).value)
  {
    TokensAreLegal(source);
    ParsedItemsAreLegal(Tokens(source));
  }

  lemma NormalIffPrintable(fs: seq<Feature>)
    requires LegalAll(fs)
    ensures NormalizeAll(fs) == fs <==> forall i :: 0 <= i < |fs| ==> Printable(fs[i])
  {
    var ns := NormalizeAll(fs);
    forall i | 0 <= i < |fs| ensures Printable(fs[i]) <==> ns[i] == fs[i] {
      PrintableIffNormal(fs[i]);
    }
    if forall i :: 0 <= i < |fs| ==> Printable(fs[i]) {
      assert forall i :: 0 <= i < |fs| ==> ns[i] == fs[i];
    }
  }

  /** The parser's results are exactly the legal forests. */
  lemma ParsedIffLegal(fs: seq<Feature>)
    ensures LegalAll(fs) <==> exists source :: Parse(source) == Ok(fs)
  {
    if LegalAll(fs) {
      var source := LegalCanBeWritten(fs);
    }
    forall source | Parse(source) == Ok(fs) ensures LegalAll(fs) {
      ParsedIsLegal(source);
    }
  }

  /** A forest survives printing and parsing exactly when it is printable. */
  lemma RoundTripIffPrintable(fs: seq<Feature>)
    ensures Parse(AsFML(fs)) == Ok(fs) <==> forall i :: 0 <= i < |fs| ==> Printable(fs[i])
  {
    if Parse(AsFML(fs)) == Ok(fs) {
      ParsedIsLegal(AsFML(fs));
      ParsePrinted(fs);
      NormalIffPrintable(fs);
    } else if LegalAll(fs) {
      ParsePrinted(fs);
      NormalIffPrintable(fs);
    }
  }

  // ----- The printed form of one forest -----

  const C := Feature("c", None, None, [], [])
  const D := Feature("d", Some("n"), Some(0), [], [])
  const B := Feature("b", None, None, [("r", "s")], [C, D])
  const A := Feature("a", None, Some(-12), [("p", "v"), ("q", "w")], [B])

  lemma PrintTwo(t: string)
    ensures PrintMore([C, D], t) == " c d" + t
  {
    assert PrintMore([D], t) == " d" + t by {
      assert [D][1..] == [] && PrintMore([], t) == t && Print(D, t) == "d" + t;
    }
    assert [C, D][1..] == [D] && Print(C, " d" + t) == "c d" + t;
  }

  lemma PrintBlock(t: string)
    ensures PrintSubs([C, D], t) == " { c d } " + t
  {
    PrintTwo(" " + ("}" + (" " + t)));
  }

  lemma PrintB(t: string)
    ensures Print(B, t) == "b(r=\"s\")" + (" { c d } " + t)
  {
    PrintBlock(t);
    var rest := ")" + (" { c d } " + t);
    assert PrintParameters([("r", "s")], true, rest) == "r=\"s\"" + rest by {
      assert [("r", "s")][1..] == [] && PrintParameters([], false, rest) == rest;
    }
  }

  lemma PrintPair(t: string)
    ensures PrintParameters([("p", "v"), ("q", "w")], false, t) == ",p=\"v\",q=\"w\"" + t
  {
    assert PrintParameters([("q", "w")], false, t) == ",q=\"w\"" + t by {
      assert [("q", "w")][1..] == [] && PrintParameters([], false, t) == t;
    }
    assert [("p", "v"), ("q", "w")][1..] == [("q", "w")];
  }

  lemma PrintNumber()
    ensures IntToString(-12) == "-12"
  {
    assert NatToString(12) == NatToString(1) + "2" && NatToString(1) == "1";
  }

  lemma PrintArgument(t: string)
    ensures PrintArgs(A, t) == "(-12" + (",p=\"v\",q=\"w\"" + (")" + t))
  {
    PrintNumber();
    PrintPair(")" + t);
    var rest := ",p=\"v\",q=\"w\"" + (")" + t);
    assert "(" + ("-12" + rest) == "(-12" + rest;
  }

  /** Argument and parameters, a dotted sub-feature, and several sub-features in braces. */
  lemma PrintedFeature(t: string)
    ensures Print(A, t) ==
            "a" + ("(-12" + (",p=\"v\",q=\"w\"" + (")" + ("." + ("b(r=\"s\")" + (" { c d } " + t))))))
  {
    PrintB(t);
    PrintArgument("." + Print(B, t));
    assert PrintSubs([B], t) == "." + Print(B, t);
  }

  /** One line for each feature. */
  lemma PrintedForest()
    ensures AsFML([A, C]) == Print(A, "\n" + "c\n")
  {
    assert AsFML([C]) == "c\n" by {
      assert [C][1..] == [] && AsFML([]) == "" && Print(C, "\n" + "") == "c" + ("\n" + "");
    }
    assert [A, C][1..] == [C];
  }
}
