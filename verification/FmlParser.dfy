/** The feature model parser and printer as they work on their text, proved against the grammar. */
module FmlParser {
  import opened Wrappers
  import opened FmlSyntax

  lemma TokensFrom(s: string, t: string, item: Item, n: nat)
    requires t == SkipBlank(s) && LexItem(t) == (item, n)
    ensures n <= |t|
    ensures Tokens(s) == if item == End then [] else if item == Bad then [Bad] else [item] + Tokens(t[n..])
  {
  }

  /** What is left of a parameter list after one of its parameters. */
  ghost function AfterParameter(a: Args, p: seq<Item>): Result<(Args, seq<Item>)> {
    if Current(p) == Punct(',') then
      var n :- Next(p);
      ParseList(a, n)
    else if Current(p) != Punct(')') then Error
    else
      var n :- Next(p);
      Ok((a, n))
  }

  ghost function Prepend(fs: seq<Feature>, r: Result<(seq<Feature>, seq<Item>)>): Result<(seq<Feature>, seq<Item>)> {
    match r
    case Error => Error
    case Ok((gs, p)) => Ok((fs + gs, p))
  }

  lemma PrependNone(r: Result<(seq<Feature>, seq<Item>)>, q: Result<seq<Feature>>)
    ensures Prepend([], r) == r && PrependAll([], q) == q
  {
    assert r.Ok? ==> [] + r.value.0 == r.value.0;
    assert q.Ok? ==> [] + q.value == q.value;
  }

  lemma ListUnfolds(a: Args, p: seq<Item>)
    ensures ParseParameter(a, p).Error? ==> ParseList(a, p).Error?
    ensures ParseParameter(a, p).Ok? ==>
              var (b, q) := ParseParameter(a, p).value; ParseList(a, p) == AfterParameter(b, q)
  {
  }

  lemma PrependOne(fs: seq<Feature>, f: Feature, r: Result<(seq<Feature>, seq<Item>)>)
    ensures r.Ok? ==> Prepend(fs, Ok(([f] + r.value.0, r.value.1))) == Prepend(fs + [f], r)
  {
    if r.Ok? {
      assert fs + ([f] + r.value.0) == fs + [f] + r.value.0;
    }
  }

  ghost function PrependAll(fs: seq<Feature>, r: Result<seq<Feature>>): Result<seq<Feature>> {
    match r
    case Error => Error
    case Ok(gs) => Ok(fs + gs)
  }

  lemma PrependAllOne(fs: seq<Feature>, f: Feature, r: Result<seq<Feature>>)
    ensures r.Ok? ==> PrependAll(fs, Ok([f] + r.value)) == PrependAll(fs + [f], r)
  {
    if r.Ok? {
      assert fs + ([f] + r.value) == fs + [f] + r.value;
    }
  }

  class FMLParser {
    var source: string
    var current: nat
    var item: Item

    /** The items that are still to be consumed, the current one first. */
    ghost function Ahead(): seq<Item>
      requires current <= |source|
      reads this
    {
      if item == End then [] else [item] + Tokens(source[current..])
    }

    ghost predicate Ready()
      reads this
    {
      current <= |source| && item != Bad
    }

    constructor (source: string)
      ensures this.source == source && current == 0
    {
      this.source, current, item := source, 0, End;
    }

    // ----- Lexer -----

    method SkipBlanks()
      requires current <= |source|
      modifies this`current
      ensures current <= |source| && source[current..] == SkipBlank(old(source[current..]))
    {
      ghost var start := source[current..];
      while current < |source|
        invariant current <= |source| && SkipBlank(source[current..]) == SkipBlank(start)
      {
        ghost var here := source[current..];
        if source[current] == '#' {
          while current < |source| && source[current] != '\n'
            invariant current <= |source| && |source[current..]| <= |here|
            invariant SkipBlank(SkipLine(source[current..])) == SkipBlank(start)
            invariant source[current..] == here || |source[current..]| < |here|
          {
            assert source[current..][1..] == source[current + 1..];
            current := current + 1;
          }
        } else if IsSpace(source[current]) {
          while current < |source| && IsSpace(source[current])
            invariant current <= |source| && SkipBlank(source[current..]) == SkipBlank(start)
            invariant source[current..] == here || |source[current..]| < |here|
          {
            assert source[current..][1..] == source[current + 1..];
            current := current + 1;
          }
        } else {
          break;
        }
      }
    }

    method ScanNumber()
      requires current <= |source|
      modifies this`current
      ensures current == old(current) + NumberLength(old(source[current..]))
    {
      while current < |source| && IsNumberChar(source[current])
        invariant old(current) <= current <= |source|
        invariant current + NumberLength(source[current..]) == old(current) + NumberLength(old(source[current..]))
      {
        assert source[current..][1..] == source[current + 1..];
        current := current + 1;
      }
    }

    method ScanName()
      requires current <= |source|
      modifies this`current
      ensures current == old(current) + NameLength(old(source[current..]))
    {
      while current < |source| && IsNameChar(source[current])
        invariant old(current) <= current <= |source|
        invariant current + NameLength(source[current..]) == old(current) + NameLength(old(source[current..]))
      {
        assert source[current..][1..] == source[current + 1..];
        current := current + 1;
      }
    }

    method ScanQuote()
      requires current <= |source|
      modifies this`current
      ensures current == old(current) + QuoteLength(old(source[current..]))
    {
      while current < |source| && source[current] != '"'
        invariant old(current) <= current <= |source|
        invariant current + QuoteLength(source[current..]) == old(current) + QuoteLength(old(source[current..]))
      {
        assert source[current..][1..] == source[current + 1..];
        current := current + 1;
      }
    }

    /** Reads one item of text that does not begin with a blank. */
    method ReadItem()
      requires current <= |source|
      modifies this`current, this`item
      ensures (item, current - old(current)) == LexItem(old(source[current..]))
    {
      if current == |source| {
        item := End;
        return;
      }
      var c := source[current];
      if IsDigit(c) || c == '+' || c == '-' {
        ReadNumber();
      } else if c == '"' {
        ReadString();
      } else if IsNameStart(c) {
        ReadName();
      } else {
        item := if c == '\0' then End else Punct(c);
        current := current + 1;
      }
    }

    method ReadNumber()
      requires current < |source| && (IsDigit(source[current]) || source[current] == '+' || source[current] == '-')
      modifies this`current, this`item
      ensures (item, current - old(current)) == LexItem(old(source[current..]))
    {
      ghost var t := source[current..];
      var start := current;
      assert t[1..] == source[start + 1..];
      current := current + 1;
      ScanNumber();
      item := Number(source[start..current]);
      assert source[start..current] == t[..current - start];
    }

    method ReadString()
      requires current < |source| && source[current] == '"'
      modifies this`current, this`item
      ensures (item, current - old(current)) == LexItem(old(source[current..]))
    {
      ghost var t := source[current..];
      var start := current;
      assert t[1..] == source[start + 1..];
      current := current + 1;
      ScanQuote();
      if current == |source| {
        item := Bad;
        return;
      }
      item := Str(source[start + 1..current]);
      assert source[start + 1..current] == t[1..current - start];
      current := current + 1;
    }

    method ReadName()
      requires current < |source| && IsNameStart(source[current])
      modifies this`current, this`item
      ensures (item, current - old(current)) == LexItem(old(source[current..]))
    {
      ghost var t := source[current..];
      var start := current;
      ScanName();
      item := Name(source[start..current]);
      assert source[start..current] == t[..current - start];
    }

    /** Reads the next item. A string without its closing quote is an error. */
    method NextItem() returns (ok: bool)
      requires current <= |source|
      modifies this`current, this`item
      ensures current <= |source|
      ensures ok <==> Current(Tokens(old(source[current..]))) != Bad
      ensures ok ==> Ready() && Ahead() == Tokens(old(source[current..]))
    {
      ghost var s := source[current..];
      SkipBlanks();
      ghost var t := source[current..];
      ghost var start := current;
      ReadItem();
      TokensFrom(s, t, item, current - start);
      assert t[current - start..] == source[current..];
      return item != Bad;
    }

    /** Moves past the current item. */
    method Consume() returns (ok: bool)
      requires Ready() && item != End
      modifies this`current, this`item
      ensures current <= |source|
      ensures ok <==> Next(old(Ahead())).Ok?
      ensures ok ==> Ready() && Next(old(Ahead())) == Ok(Ahead())
    {
      ghost var ahead := Ahead();
      assert ahead[1..] == Tokens(source[current..]);
      ok := NextItem();
    }

    // ----- Parser -----

    method ParseParameterInto(a: Args) returns (r: Result<Args>)
      requires Ready()
      modifies this`current, this`item
      ensures current <= |source|
      ensures r.Ok? ==> Ready() && ParseParameter(a, old(Ahead())) == Ok((r.value, Ahead()))
      ensures r.Error? ==> ParseParameter(a, old(Ahead())).Error?
    {
      if item.Number? {
        var text := item.text;
        var ok := Consume();
        if !ok { return Error; }
        var argument := ParseInt32(text);
        if argument.None? { return Error; }
        return Ok(a.(argument := argument));
      } else if item.Name? {
        var name := item.text;
        var ok := Consume();
        if !ok || item != Punct('=') { return Error; }
        ok := Consume();
        if !ok || !(item.Name? || item.Number? || item.Str?) { return Error; }
        var value := item.text;
        ok := Consume();
        if !ok { return Error; }
        return Ok(a.(parameters := a.parameters + [(name, value)]));
      } else {
        return Error;
      }
    }

    method ParseArguments() returns (r: Result<Args>)
      requires Ready()
      modifies this`current, this`item
      ensures current <= |source|
      ensures r.Ok? ==> Ready() && ParseArgs(old(Ahead())) == Ok((r.value, Ahead()))
      ensures r.Error? ==> ParseArgs(old(Ahead())).Error?
    {
      if item != Punct('(') {
        return Ok(Args(None, []));
      }
      var ok := Consume();
      if !ok { return Error; }
      ghost var start := Ahead();
      var parameter := ParseParameterInto(Args(None, []));
      ListUnfolds(Args(None, []), start);
      if parameter.Error? { return Error; }
      var args := parameter.value;
      while item == Punct(',')
        invariant Ready() && ParseList(Args(None, []), start) == AfterParameter(args, Ahead())
        decreases |Ahead()|
      {
        ok := Consume();
        if !ok { return Error; }
        ListUnfolds(args, Ahead());
        parameter := ParseParameterInto(args);
        if parameter.Error? { return Error; }
        args := parameter.value;
      }
      if item != Punct(')') { return Error; }
      ok := Consume();
      if !ok { return Error; }
      return Ok(args);
    }

    method ParseFeatureName() returns (r: Result<Option<string>>)
      requires Ready()
      modifies this`current, this`item
      ensures current <= |source|
      ensures r.Ok? ==> Ready() && ParseName(old(Ahead())) == Ok((r.value, Ahead()))
      ensures r.Error? ==> ParseName(old(Ahead())).Error?
    {
      if item != Punct(':') {
        return Ok(None);
      }
      var ok := Consume();
      if !ok || !(item.Name? || item.Str?) { return Error; }
      var name := item.text;
      ok := Consume();
      if !ok { return Error; }
      return Ok(Some(name));
    }

    method ParseFeatureOf(kind: string) returns (r: Result<Feature>)
      requires Ready()
      modifies this`current, this`item
      ensures current <= |source|
      ensures r.Ok? ==> Ready() && ParseFeature(kind, old(Ahead())) == Ok((r.value, Ahead()))
      ensures r.Error? ==> ParseFeature(kind, old(Ahead())).Error?
      decreases |Ahead()|, 1
    {
      var args := ParseArguments();
      if args.Error? { return Error; }
      var name := ParseFeatureName();
      if name.Error? { return Error; }
      var subs := ParseSubFeatures();
      if subs.Error? { return Error; }
      return Ok(Feature(kind, name.value, args.value.argument, args.value.parameters, subs.value));
    }

    method ParseSubFeatures() returns (r: Result<seq<Feature>>)
      requires Ready()
      modifies this`current, this`item
      ensures current <= |source|
      ensures r.Ok? ==> Ready() && ParseSubs(old(Ahead())) == Ok((r.value, Ahead()))
      ensures r.Error? ==> ParseSubs(old(Ahead())).Error?
      decreases |Ahead()|, 0
    {
      if item == Punct('.') {
        var ok := Consume();
        if !ok || !item.Name? { return Error; }
        var kind := item.text;
        ok := Consume();
        if !ok { return Error; }
        var f := ParseFeatureOf(kind);
        if f.Error? { return Error; }
        return Ok([f.value]);
      } else if item == Punct('{') {
        var ok := Consume();
        if !ok { return Error; }
        r := ParseFeatureBlock();
      } else {
        return Ok([]);
      }
    }

    method ParseFeatureBlock() returns (r: Result<seq<Feature>>)
      requires Ready()
      modifies this`current, this`item
      ensures current <= |source|
      ensures r.Ok? ==> Ready() && ParseBlock(old(Ahead())) == Ok((r.value, Ahead()))
      ensures r.Error? ==> ParseBlock(old(Ahead())).Error?
      decreases |Ahead()|, 0
    {
      ghost var start := Ahead();
      var features: seq<Feature> := [];
      PrependNone(ParseBlock(start), Error);
      while item != Punct('}')
        invariant Ready() && |Ahead()| <= |start|
        invariant ParseBlock(start) == Prepend(features, ParseBlock(Ahead()))
        decreases |Ahead()|
      {
        if !item.Name? { return Error; }
        var kind := item.text;
        var ok := Consume();
        if !ok { return Error; }
        var f := ParseFeatureOf(kind);
        if f.Error? { return Error; }
        PrependOne(features, f.value, ParseBlock(Ahead()));
        features := features + [f.value];
      }
      var ok := Consume();
      if !ok { return Error; }
      assert features + [] == features;
      return Ok(features);
    }

    /** Parses a whole feature model. */
    method ParseModel() returns (r: Result<seq<Feature>>)
      requires current == 0
      modifies this`current, this`item
      ensures r == Parse(source)
    {
      assert source[0..] == source;
      var ok := NextItem();
      if !ok { return Error; }
      var features: seq<Feature> := [];
      PrependNone(Error, ParseAll(Ahead()));
      while item != End
        invariant Ready()
        invariant Parse(source) == PrependAll(features, ParseAll(Ahead()))
        decreases |Ahead()|
      {
        if !item.Name? { return Error; }
        var kind := item.text;
        ok := Consume();
        if !ok || item == Punct('=') { return Error; }
        var f := ParseFeatureOf(kind);
        if f.Error? { return Error; }
        PrependAllOne(features, f.value, ParseAll(Ahead()));
        features := features + [f.value];
      }
      assert features + [] == features;
      return Ok(features);
    }
  }

  // ----- Printer -----

  lemma Associate(a: string, b: string, c: string)
    ensures a + b + c == a + (b + c)
  {
  }

  lemma ParameterAppended(r: string, p: (string, string), t: string)
    ensures r + p.0 + "=" + "\"" + p.1 + "\"" + t == r + PrintParameter(p, t)
  {
    Associate(r + p.0 + "=" + "\"" + p.1, "\"", t);
    Associate(r + p.0 + "=" + "\"", p.1, "\"" + t);
    Associate(r + p.0 + "=", "\"", p.1 + ("\"" + t));
    Associate(r + p.0, "=", "\"" + (p.1 + ("\"" + t)));
    Associate(r, p.0, "=" + ("\"" + (p.1 + ("\"" + t))));
  }

  method AppendParameters(ps: seq<(string, string)>, noArgument: bool, output: string) returns (r: string)
    ensures forall t :: r + t == output + PrintParameters(ps, noArgument, t)
  {
    var first := noArgument;
    r := output;
    assert ps[0..] == ps;
    for i := 0 to |ps|
      invariant forall t :: r + PrintParameters(ps[i..], first, t) == output + PrintParameters(ps, noArgument, t)
    {
      ghost var before, wasFirst := r, first;
      if !first { r := r + ","; }
      ghost var comma := r;
      r := r + ps[i].0 + "=" + "\"" + ps[i].1 + "\"";
      first := false;
      assert ps[i..][1..] == ps[i + 1..];
      forall t ensures r + PrintParameters(ps[i + 1..], false, t) == before + PrintParameters(ps[i..], wasFirst, t) {
        var rest := PrintParameters(ps[i + 1..], false, t);
        ParameterAppended(comma, ps[i], rest);
        Associate(before, ",", PrintParameter(ps[i], rest));
      }
    }
    assert ps[|ps|..] == [];
  }

  /** Appends the type name, argument and parameters of a feature. */
  method ToFMLFunction(f: Feature, output: string) returns (r: string)
    ensures forall t :: r + t == output + (f.kind + PrintArgs(f, t))
  {
    r := output + f.kind;
    ghost var named := r;
    if HasArgument(f) || |f.parameters| > 0 {
      r := r + "(";
      ghost var paren := r;
      if HasArgument(f) {
        r := r + IntToString(f.argument.value);
      }
      ghost var begun := r;
      r := AppendParameters(f.parameters, !HasArgument(f), r);
      ghost var listed := r;
      r := r + ")";
      forall t ensures r + t == named + PrintArgs(f, t) {
        var ps := PrintParameters(f.parameters, !HasArgument(f), ")" + t);
        Associate(listed, ")", t);
        if HasArgument(f) {
          Associate(paren, IntToString(f.argument.value), ps);
          Associate(named, "(", IntToString(f.argument.value) + ps);
        } else {
          Associate(named, "(", ps);
        }
      }
    }
    forall t ensures named + PrintArgs(f, t) == output + (f.kind + PrintArgs(f, t)) {
      Associate(output, f.kind, PrintArgs(f, t));
    }
  }

  /** Appends a feature with its sub-features, dotted or in braces. */
  method ToFML(f: Feature, output: string) returns (r: string)
    ensures forall t :: r + t == output + Print(f, t)
    decreases f
  {
    var head := ToFMLFunction(f, output);
    r := head;
    if |f.features| == 1 {
      r := ToFML(f.features[0], head + ".");
      forall t ensures r + t == head + PrintSubs(f.features, t) {
        Associate(head, ".", Print(f.features[0], t));
      }
    } else if |f.features| > 1 {
      r := head + " { ";
      ghost var brace := head + " {";
      forall t ensures r + Print(f.features[0], PrintMore(f.features[1..], t)) == brace + PrintMore(f.features, t) {
        Associate(brace, " ", Print(f.features[0], PrintMore(f.features[1..], t)));
        assert brace + " " == r;
      }
      for i := 0 to |f.features|
        invariant i == 0 ==> r == head + " { "
        invariant i > 0 ==> forall t :: r + PrintMore(f.features[i..], t) == brace + PrintMore(f.features, t)
      {
        ghost var before := r;
        if i > 0 { r := r + " "; }
        ghost var spaced := r;
        r := ToFML(f.features[i], r);
        assert f.features[i..][1..] == f.features[i + 1..];
        forall t ensures r + PrintMore(f.features[i + 1..], t) == brace + PrintMore(f.features, t) {
          var rest := PrintMore(f.features[i + 1..], t);
          assert r + rest == spaced + Print(f.features[i], rest);
          if i > 0 {
            Associate(before, " ", Print(f.features[i], rest));
          }
        }
      }
      assert f.features[|f.features|..] == [];
      ghost var listed := r;
      r := r + " } ";
      forall t ensures r + t == head + PrintSubs(f.features, t) {
        CloseBlock(head, listed, f.features, t);
      }
    }
    assert forall t :: head + PrintSubs(f.features, t) == output + Print(f, t);
  }

  lemma CloseBlock(head: string, listed: string, fs: seq<Feature>, t: string)
    requires |fs| > 1 && forall u :: listed + u == head + " {" + PrintMore(fs, u)
    ensures listed + " } " + t == head + PrintSubs(fs, t)
  {
    var close := " " + ("}" + (" " + t));
    assert " } " + t == close;
    Associate(listed, " } ", t);
    var more := PrintMore(fs, close);
    assert head + " {" + more == head + (" " + ("{" + more));
  }

  method PrintForest(fs: seq<Feature>) returns (r: string)
    ensures r == AsFML(fs)
  {
    r := "";
    assert fs[0..] == fs;
    for i := 0 to |fs|
      invariant r + AsFML(fs[i..]) == AsFML(fs)
    {
      ghost var before := r;
      r := ToFML(fs[i], r);
      ghost var printed := r;
      r := r + "\n";
      assert fs[i..][1..] == fs[i + 1..];
      Associate(printed, "\n", AsFML(fs[i + 1..]));
    }
    assert fs[|fs|..] == [];
  }
}
