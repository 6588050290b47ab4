/** The grammar of the feature modeling language over items: the parser accepts exactly its sentences. */
module FmlGrammar {
  import opened Wrappers
  import opened FmlSyntax

  // ----- Syntax trees -----

  /** An entry of a parameter list, with the items it is written with. */
  datatype Entry = Argument(text: string) | Parameter(name: string, value: Item)

  /** A feature as it is written: its type, the entries in parentheses if there are any, its name, its sub-features. */
  datatype Tree = Tree(kind: string, entries: seq<Entry>, name: Option<Item>, subs: Subs)

  datatype Subs = NoSubs | Dotted(sub: Tree) | Block(trees: seq<Tree>)

  predicate IsEntry(e: Entry) {
    match e
    case Argument(text) => ParseInt32(text).Some?
    case Parameter(_, value) => value.Name? || value.Number? || value.Str?
  }

  predicate IsTree(t: Tree) {
    && (forall i :: 0 <= i < |t.entries| ==> IsEntry(t.entries[i]))
    && (t.name.Some? ==> t.name.value.Name? || t.name.value.Str?)
    && IsSubs(t.subs)
  }

  predicate IsSubs(s: Subs) {
    match s
    case NoSubs => true
    case Dotted(sub) => IsTree(sub)
    case Block(trees) => forall i :: 0 <= i < |trees| ==> IsTree(trees[i])
  }

  predicate AreTrees(ts: seq<Tree>) {
    forall i :: 0 <= i < |ts| ==> IsTree(ts[i])
  }

  // ----- The items of a tree, followed by the items p -----

  function EntryItems(e: Entry, p: seq<Item>): seq<Item> {
    match e
    case Argument(text) => [Number(text)] + p
    case Parameter(name, value) => [Name(name)] + ([Punct('=')] + ([value] + p))
  }

  /** Entries with commas between them, and the closing parenthesis. */
  function ListItems(es: seq<Entry>, p: seq<Item>): seq<Item>
    requires es != []
  {
    EntryItems(es[0], if |es| == 1 then [Punct(')')] + p else [Punct(',')] + ListItems(es[1..], p))
  }

  function EntriesItems(es: seq<Entry>, p: seq<Item>): seq<Item> {
    if es == [] then p else [Punct('(')] + ListItems(es, p)
  }

  function NameItems(name: Option<Item>, p: seq<Item>): seq<Item> {
    if name.None? then p else [Punct(':')] + ([name.value] + p)
  }

  /** What follows the type of a feature. */
  function TailItems(t: Tree, p: seq<Item>): seq<Item>
    decreases t
  {
    EntriesItems(t.entries, NameItems(t.name, SubsItems(t.subs, p)))
  }

  function SubsItems(s: Subs, p: seq<Item>): seq<Item>
    decreases s
  {
    match s
    case NoSubs => p
    case Dotted(sub) => [Punct('.')] + ([Name(sub.kind)] + TailItems(sub, p))
    case Block(trees) => [Punct('{')] + TreesItems(trees, [Punct('}')] + p)
  }

  function TreesItems(ts: seq<Tree>, p: seq<Item>): seq<Item>
    decreases ts
  {
    if ts == [] then p else [Name(ts[0].kind)] + TailItems(ts[0], TreesItems(ts[1..], p))
  }

  // ----- The descriptors that trees stand for -----

  /** The last argument counts, and parameters stay in their order. */
  function AddEntry(a: Args, e: Entry): Args
    requires IsEntry(e)
  {
    match e
    case Argument(text) => Args(ParseInt32(text), a.parameters)
    case Parameter(name, value) => Args(a.argument, a.parameters + [(name, value.text)])
  }

  function AddEntries(a: Args, es: seq<Entry>): Args
    requires forall i :: 0 <= i < |es| ==> IsEntry(es[i])
    decreases |es|
  {
    if es == [] then a else AddEntries(AddEntry(a, es[0]), es[1..])
  }

  function Meaning(t: Tree): Feature
    requires IsTree(t)
    decreases t
  {
    var args := AddEntries(Args(None, []), t.entries);
    Feature(t.kind, if t.name.None? then None else Some(t.name.value.text), args.argument, args.parameters,
            SubsMeaning(t.subs))
  }

  function SubsMeaning(s: Subs): seq<Feature>
    requires IsSubs(s)
    decreases s
  {
    match s
    case NoSubs => []
    case Dotted(sub) => [Meaning(sub)]
    case Block(trees) => Meanings(trees)
  }

  function Meanings(ts: seq<Tree>): seq<Feature>
    requires AreTrees(ts)
    decreases ts
  {
    if ts == [] then [] else [Meaning(ts[0])] + Meanings(ts[1..])
  }

  // ----- The parser accepts every tree -----

  lemma Step(item: Item, ts: seq<Item>)
    requires Current(ts) != Bad
    ensures Current([item] + ts) == item && Next([item] + ts) == Ok(ts)
  {
    assert ([item] + ts)[1..] == ts;
  }

  lemma EntryIsParsed(a: Args, e: Entry, p: seq<Item>)
    requires IsEntry(e) && Current(p) != Bad
    ensures ParseParameter(a, EntryItems(e, p)) == Ok((AddEntry(a, e), p)) && Current(EntryItems(e, p)) != Bad
  {
    match e
    case Argument(text) => Step(Number(text), p);
    case Parameter(name, value) =>
      Step(value, p);
      Step(Punct('='), [value] + p);
      Step(Name(name), [Punct('=')] + ([value] + p));
  }

  lemma {:induction false} ListIsParsed(a: Args, es: seq<Entry>, p: seq<Item>)
    requires es != [] && (forall i :: 0 <= i < |es| ==> IsEntry(es[i])) && Current(p) != Bad
    ensures ParseList(a, ListItems(es, p)) == Ok((AddEntries(a, es), p)) && Current(ListItems(es, p)) != Bad
    decreases |es|
  {
    if |es| == 1 {
      Step(Punct(')'), p);
      EntryIsParsed(a, es[0], [Punct(')')] + p);
      assert AddEntries(AddEntry(a, es[0]), es[1..]) == AddEntry(a, es[0]);
    } else {
      var rest := ListItems(es[1..], p);
      ListIsParsed(AddEntry(a, es[0]), es[1..], p);
      Step(Punct(','), rest);
      EntryIsParsed(a, es[0], [Punct(',')] + rest);
    }
  }

  lemma EntriesAreParsed(es: seq<Entry>, p: seq<Item>)
    requires (forall i :: 0 <= i < |es| ==> IsEntry(es[i])) && Current(p) !in {Punct('('), Bad}
    ensures ParseArgs(EntriesItems(es, p)) == Ok((AddEntries(Args(None, []), es), p))
    ensures Current(EntriesItems(es, p)) != Bad
  {
    if es != [] {
      ListIsParsed(Args(None, []), es, p);
      Step(Punct('('), ListItems(es, p));
    }
  }

  lemma NameIsParsed(name: Option<Item>, p: seq<Item>)
    requires (name.Some? ==> name.value.Name? || name.value.Str?) && Current(p) !in {Punct(':'), Punct('('), Bad}
    ensures ParseName(NameItems(name, p)) == Ok((if name.None? then None else Some(name.value.text), p))
    ensures Current(NameItems(name, p)) !in {Punct('('), Bad}
  {
    if name.Some? {
      Step(name.value, p);
      Step(Punct(':'), [name.value] + p);
    }
  }

  /** Items that can come after a complete feature. */
  predicate Follows(p: seq<Item>) {
    Current(p) == End || Current(p).Name? || Current(p) == Punct('}')
  }

  lemma {:induction false} TailIsParsed(t: Tree, p: seq<Item>)
    requires IsTree(t) && Follows(p)
    ensures ParseFeature(t.kind, TailItems(t, p)) == Ok((Meaning(t), p)) && Current(TailItems(t, p)) != Bad
    decreases t
  {
    SubsAreParsed(t.subs, p);
    var q := SubsItems(t.subs, p);
    NameIsParsed(t.name, q);
    EntriesAreParsed(t.entries, NameItems(t.name, q));
  }

  lemma {:induction false} SubsAreParsed(s: Subs, p: seq<Item>)
    requires IsSubs(s) && Follows(p)
    ensures ParseSubs(SubsItems(s, p)) == Ok((SubsMeaning(s), p))
    ensures Current(SubsItems(s, p)) !in {Punct('('), Punct(':'), Bad}
    decreases s
  {
    match s
    case NoSubs =>
    case Dotted(sub) =>
      TailIsParsed(sub, p);
      Step(Name(sub.kind), TailItems(sub, p));
      Step(Punct('.'), [Name(sub.kind)] + TailItems(sub, p));
    case Block(trees) =>
      BlockIsParsed(trees, p);
      Step(Punct('{'), TreesItems(trees, [Punct('}')] + p));
  }

  lemma {:induction false} BlockIsParsed(ts: seq<Tree>, p: seq<Item>)
    requires AreTrees(ts) && Follows(p)
    ensures ParseBlock(TreesItems(ts, [Punct('}')] + p)) == Ok((Meanings(ts), p))
    ensures Follows(TreesItems(ts, [Punct('}')] + p))
    decreases ts
  {
    if ts == [] {
      Step(Punct('}'), p);
    } else {
      var rest := TreesItems(ts[1..], [Punct('}')] + p);
      BlockIsParsed(ts[1..], p);
      TailIsParsed(ts[0], rest);
      Step(Name(ts[0].kind), TailItems(ts[0], rest));
    }
  }

  lemma TailIsNoAssignment(t: Tree, p: seq<Item>)
    requires Follows(p)
    ensures Current(TailItems(t, p)) != Punct('=')
  {
  }

  lemma {:induction false} TreesAreParsed(ts: seq<Tree>)
    requires AreTrees(ts)
    ensures ParseAll(TreesItems(ts, [])) == Ok(Meanings(ts)) && Follows(TreesItems(ts, []))
  {
    if ts != [] {
      var rest := TreesItems(ts[1..], []);
      TreesAreParsed(ts[1..]);
      TailIsParsed(ts[0], rest);
      TailIsNoAssignment(ts[0], rest);
      Step(Name(ts[0].kind), TailItems(ts[0], rest));
    }
  }

  // ----- The parser accepts nothing else -----

  lemma Read(p: seq<Item>)
    requires p != [] && Next(p).Ok?
    ensures p == [Current(p)] + Next(p).value
  {
  }

  lemma ParsedEntry(a: Args, p: seq<Item>) returns (e: Entry)
    requires ParseParameter(a, p).Ok?
    ensures IsEntry(e) && ParseParameter(a, p).value.0 == AddEntry(a, e)
    ensures p == EntryItems(e, ParseParameter(a, p).value.1)
  {
    Read(p);
    var q := Next(p).value;
    if Current(p).Number? {
      e := Argument(p[0].text);
    } else {
      Read(q);
      var v := Next(q).value;
      Read(v);
      e := Parameter(p[0].text, v[0]);
    }
  }

  lemma {:induction false} ParsedList(a: Args, p: seq<Item>) returns (es: seq<Entry>)
    requires ParseList(a, p).Ok?
    ensures es != [] && (forall i :: 0 <= i < |es| ==> IsEntry(es[i])) && ParseList(a, p).value.0 == AddEntries(a, es)
    ensures p == ListItems(es, ParseList(a, p).value.1)
    decreases |p|
  {
    var e := ParsedEntry(a, p);
    var (b, q) := ParseParameter(a, p).value;
    Read(q);
    if Current(q) == Punct(',') {
      var rest := ParsedList(b, Next(q).value);
      es := [e] + rest;
      assert es[1..] == rest;
    } else {
      es := [e];
      assert es[1..] == [];
      assert AddEntries(AddEntry(a, e), es[1..]) == AddEntry(a, e);
    }
  }

  lemma ParsedEntries(p: seq<Item>) returns (es: seq<Entry>)
    requires ParseArgs(p).Ok?
    ensures (forall i :: 0 <= i < |es| ==> IsEntry(es[i])) && ParseArgs(p).value.0 == AddEntries(Args(None, []), es)
    ensures p == EntriesItems(es, ParseArgs(p).value.1)
  {
    if Current(p) == Punct('(') {
      Read(p);
      es := ParsedList(Args(None, []), Next(p).value);
    } else {
      es := [];
    }
  }

  lemma ParsedName(p: seq<Item>) returns (name: Option<Item>)
    requires ParseName(p).Ok?
    ensures name.Some? ==> name.value.Name? || name.value.Str?
    ensures ParseName(p).value.0 == if name.None? then None else Some(name.value.text)
    ensures p == NameItems(name, ParseName(p).value.1)
  {
    name := None;
    if Current(p) == Punct(':') {
      Read(p);
      Read(Next(p).value);
      name := Some(Next(p).value[0]);
    }
  }

  lemma {:induction false} ParsedTail(kind: string, p: seq<Item>) returns (t: Tree)
    requires ParseFeature(kind, p).Ok?
    ensures IsTree(t) && t.kind == kind && ParseFeature(kind, p).value.0 == Meaning(t)
    ensures p == TailItems(t, ParseFeature(kind, p).value.1)
    decreases |p|, 1
  {
    var es := ParsedEntries(p);
    var q := ParseArgs(p).value.1;
    var name := ParsedName(q);
    var w := ParseName(q).value.1;
    var subs := ParsedSubs(w);
    t := Tree(kind, es, name, subs);
  }

  lemma {:induction false} ParsedSubs(p: seq<Item>) returns (s: Subs)
    requires ParseSubs(p).Ok?
    ensures IsSubs(s) && ParseSubs(p).value.0 == SubsMeaning(s) && p == SubsItems(s, ParseSubs(p).value.1)
    decreases |p|, 0
  {
    s := NoSubs;
    if Current(p) == Punct('.') {
      Read(p);
      var q := Next(p).value;
      Read(q);
      var sub := ParsedTail(Current(q).text, Next(q).value);
      s := Dotted(sub);
    } else if Current(p) == Punct('{') {
      Read(p);
      var trees := ParsedBlock(Next(p).value);
      s := Block(trees);
    }
  }

  lemma {:induction false} ParsedBlock(p: seq<Item>) returns (ts: seq<Tree>)
    requires ParseBlock(p).Ok?
    ensures AreTrees(ts) && ParseBlock(p).value.0 == Meanings(ts)
    ensures p == TreesItems(ts, [Punct('}')] + ParseBlock(p).value.1)
    decreases |p|, 0
  {
    Read(p);
    if Current(p) == Punct('}') {
      ts := [];
    } else {
      var t := ParsedTail(Current(p).text, Next(p).value);
      var rest := ParsedBlock(ParseFeature(Current(p).text, Next(p).value).value.1);
      ts := [t] + rest;
      assert ts[1..] == rest;
    }
  }

  lemma {:induction false} ParsedTrees(p: seq<Item>) returns (ts: seq<Tree>)
    requires ParseAll(p).Ok?
    ensures AreTrees(ts) && ParseAll(p).value == Meanings(ts) && p == TreesItems(ts, [])
    decreases |p|
  {
    ts := [];
    if p != [] {
      Read(p);
      var t := ParsedTail(Current(p).text, Next(p).value);
      var rest := ParsedTrees(ParseFeature(Current(p).text, Next(p).value).value.1);
      ts := [t] + rest;
      assert ts[1..] == rest;
    }
  }

  lemma {:induction false} ListHasNoBad(es: seq<Entry>, p: seq<Item>)
    requires es != [] && (forall i :: 0 <= i < |es| ==> IsEntry(es[i])) && Bad !in p
    ensures Bad !in ListItems(es, p)
    decreases |es|
  {
    if |es| > 1 {
      ListHasNoBad(es[1..], p);
    }
  }

  lemma {:induction false} TailHasNoBad(t: Tree, p: seq<Item>)
    requires IsTree(t) && Bad !in p
    ensures Bad !in TailItems(t, p)
    decreases t
  {
    match t.subs {
      case NoSubs =>
      case Dotted(sub) => TailHasNoBad(sub, p);
      case Block(trees) => TreesHaveNoBad(trees, [Punct('}')] + p);
    }
    var q := NameItems(t.name, SubsItems(t.subs, p));
    assert Bad !in q;
    if t.entries != [] {
      ListHasNoBad(t.entries, q);
    }
  }

  lemma {:induction false} TreesHaveNoBad(ts: seq<Tree>, p: seq<Item>)
    requires AreTrees(ts) && Bad !in p
    ensures Bad !in TreesItems(ts, p)
    decreases ts
  {
    if ts != [] {
      TreesHaveNoBad(ts[1..], p);
      TailHasNoBad(ts[0], TreesItems(ts[1..], p));
    }
  }

  /** The items are those of trees that stand for the features. */
  ghost predicate Derives(p: seq<Item>, fs: seq<Feature>) {
    exists ts :: AreTrees(ts) && p == TreesItems(ts, []) && fs == Meanings(ts)
  }

  /** The parser accepts exactly the sentences of the grammar, with their meaning. */
  lemma ParsesIffDerives(p: seq<Item>, fs: seq<Feature>)
    ensures ParseAll(p) == Ok(fs) <==> Derives(p, fs)
  {
    if ParseAll(p) == Ok(fs) {
      var ts := ParsedTrees(p);
    }
    if Derives(p, fs) {
      var ts :| AreTrees(ts) && p == TreesItems(ts, []) && fs == Meanings(ts);
      TreesAreParsed(ts);
    }
  }
}
