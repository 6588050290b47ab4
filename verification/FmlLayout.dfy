/** The texts of the feature modeling language: which items a text with blanks and comments is read as. */
module FmlLayout {
  import opened Wrappers
  import opened FmlSyntax
  import opened FmlGrammar

  // ----- Written items -----

  /** White space, or a comment up to the end of its line. */
  datatype Piece = Space(c: char) | Comment(text: string)

  predicate IsPiece(p: Piece) {
    if p.Space? then IsSpace(p.c) else '\n' !in p.text
  }

  predicate IsGap(g: seq<Piece>) {
    forall i :: 0 <= i < |g| ==> IsPiece(g[i])
  }

  function GapText(g: seq<Piece>, t: string): string {
    if g == [] then t
    else
      var rest := GapText(g[1..], t);
      if g[0].Space? then [g[0].c] + rest else ['#'] + (g[0].text + (['\n'] + rest))
  }

  /** Characters that are items of their own. */
  predicate IsMark(c: char) {
    !IsSpace(c) && !IsDigit(c) && !IsNameStart(c) && c !in {'#', '+', '-', '"', '\0'}
  }

  predicate IsNumberText(s: string) {
    && s != "" && (IsDigit(s[0]) || s[0] == '+' || s[0] == '-')
    && forall i :: 1 <= i < |s| ==> IsNumberChar(s[i])
  }

  /** The item can be written, and is not longer if the text t comes after it. */
  predicate CanPrecede(x: Item, t: string) {
    match x
    case Name(text) => IsName(text) && (t == "" || !IsNameChar(t[0]))
    case Number(text) => IsNumberText(text) && (t == "" || !IsNumberChar(t[0]))
    case Str(text) => QuoteFree(text)
    case Punct(c) => IsMark(c)
    case _ => false
  }

  function ItemText(x: Item, t: string): string {
    match x
    case Name(text) => text + t
    case Number(text) => text + t
    case Str(text) => ['"'] + (text + (['"'] + t))
    case Punct(c) => [c] + t
    case _ => t
  }

  /** An item with the blanks before it. */
  datatype Word = Word(gap: seq<Piece>, item: Item)

  function Text(ws: seq<Word>, end: string): string {
    if ws == [] then end else GapText(ws[0].gap, ItemText(ws[0].item, Text(ws[1..], end)))
  }

  function ItemsOf(ws: seq<Word>): seq<Item> {
    if ws == [] then [] else [ws[0].item] + ItemsOf(ws[1..])
  }

  /** Blanks, and then the end of the text, a NUL character or a comment that ends with the text. */
  ghost predicate IsEnd(end: string) {
    exists g, u :: IsGap(g) && end == GapText(g, u) && Ends(u)
  }

  predicate Ends(u: string) {
    u == "" || u[0] == '\0' || (u[0] == '#' && '\n' !in u)
  }

  /** Each item comes after blanks and can come before the rest of the text. */
  ghost predicate Written(ws: seq<Word>, end: string) {
    if ws == [] then IsEnd(end)
    else IsGap(ws[0].gap) && CanPrecede(ws[0].item, Text(ws[1..], end)) && Written(ws[1..], end)
  }

  // ----- What is written is read -----

  lemma {:induction false} SkipLineTo(text: string, t: string)
    requires '\n' !in text
    ensures SkipLine(text + (['\n'] + t)) == ['\n'] + t
  {
    if text == "" {
      assert text + (['\n'] + t) == ['\n'] + t;
    } else {
      assert (text + (['\n'] + t))[1..] == text[1..] + (['\n'] + t);
      SkipLineTo(text[1..], t);
    }
  }

  lemma {:induction false} GapIsSkipped(g: seq<Piece>, t: string)
    requires IsGap(g)
    ensures SkipBlank(GapText(g, t)) == SkipBlank(t)
  {
    if g != [] {
      var rest := GapText(g[1..], t);
      GapIsSkipped(g[1..], t);
      if g[0].Space? {
        assert ([g[0].c] + rest)[1..] == rest;
      } else {
        var line := g[0].text + (['\n'] + rest);
        assert (['#'] + line)[1..] == line && (['\n'] + rest)[1..] == rest;
        SkipLineTo(g[0].text, rest);
      }
    }
  }

  lemma GapHasNoItems(g: seq<Piece>, t: string)
    requires IsGap(g)
    ensures Tokens(GapText(g, t)) == Tokens(t)
  {
    GapIsSkipped(g, t);
  }

  lemma {:induction false} OpenCommentIsSkipped(u: string)
    requires '\n' !in u
    ensures SkipLine(u) == ""
  {
    if u != "" {
      OpenCommentIsSkipped(u[1..]);
    }
  }

  lemma EndHasNoItems(end: string)
    requires IsEnd(end)
    ensures Tokens(end) == []
  {
    var g, u :| IsGap(g) && end == GapText(g, u) && Ends(u);
    GapHasNoItems(g, u);
    if u != "" && u[0] == '#' {
      OpenCommentIsSkipped(u[1..]);
    }
  }

  lemma {:induction false} NameLengthOf(name: string, t: string)
    requires (forall i :: 0 <= i < |name| ==> IsNameChar(name[i])) && (t == "" || !IsNameChar(t[0]))
    ensures NameLength(name + t) == |name|
  {
    if name == "" {
      assert name + t == t;
    } else {
      assert (name + t)[1..] == name[1..] + t;
      NameLengthOf(name[1..], t);
    }
  }

  lemma {:induction false} NumberLengthOf(digits: string, t: string)
    requires (forall i :: 0 <= i < |digits| ==> IsNumberChar(digits[i])) && (t == "" || !IsNumberChar(t[0]))
    ensures NumberLength(digits + t) == |digits|
  {
    if digits == "" {
      assert digits + t == t;
    } else {
      assert (digits + t)[1..] == digits[1..] + t;
      NumberLengthOf(digits[1..], t);
    }
  }

  lemma {:induction false} QuoteLengthOf(v: string, t: string)
    requires QuoteFree(v)
    ensures QuoteLength(v + (['"'] + t)) == |v|
  {
    if v == "" {
      assert v + (['"'] + t) == ['"'] + t;
    } else {
      assert (v + (['"'] + t))[1..] == v[1..] + (['"'] + t);
      QuoteLengthOf(v[1..], t);
    }
  }

  lemma NameIsItem(name: string, t: string)
    requires IsName(name) && (t == "" || !IsNameChar(t[0]))
    ensures var s := name + t; SkipBlank(s) == s && LexItem(s) == (Name(name), |name|) && s[|name|..] == t
  {
    NameLengthOf(name, t);
    assert (name + t)[..|name|] == name;
  }

  lemma NumberIsItem(text: string, t: string)
    requires IsNumberText(text) && (t == "" || !IsNumberChar(t[0]))
    ensures var s := text + t; SkipBlank(s) == s && LexItem(s) == (Number(text), |text|) && s[|text|..] == t
  {
    assert (text + t)[1..] == text[1..] + t;
    NumberLengthOf(text[1..], t);
    assert (text + t)[..|text|] == text;
  }

  lemma StringIsItem(v: string, t: string)
    requires QuoteFree(v)
    ensures var s := ['"'] + (v + (['"'] + t));
            SkipBlank(s) == s && LexItem(s) == (Str(v), |v| + 2) && |v| + 2 <= |s| && s[|v| + 2..] == t
  {
    var s := ['"'] + (v + (['"'] + t));
    assert s[1..] == v + (['"'] + t);
    QuoteLengthOf(v, t);
    assert s[1..1 + |v|] == v;
  }

  lemma MarkIsItem(c: char, t: string)
    requires IsMark(c)
    ensures var s := [c] + t; SkipBlank(s) == s && LexItem(s) == (Punct(c), 1) && s[1..] == t
  {
  }

  /** A text that starts with an item, and not with a blank, has that item first. */
  lemma LexAs(s: string, item: Item, n: nat, t: string)
    requires SkipBlank(s) == s && LexItem(s) == (item, n) && item != End && item != Bad && n <= |s| && s[n..] == t
    ensures Tokens(s) == [item] + Tokens(t)
  {
  }

  lemma ItemIsRead(x: Item, t: string)
    requires CanPrecede(x, t)
    ensures Tokens(ItemText(x, t)) == [x] + Tokens(t)
  {
    var s := ItemText(x, t);
    match x
    case Name(text) =>
      NameIsItem(text, t);
      LexAs(s, x, |text|, t);
    case Number(text) =>
      NumberIsItem(text, t);
      LexAs(s, x, |text|, t);
    case Str(text) =>
      StringIsItem(text, t);
      LexAs(s, x, |text| + 2, t);
    case Punct(c) =>
      MarkIsItem(c, t);
      LexAs(s, x, 1, t);
  }

  lemma {:induction false} WrittenIsRead(ws: seq<Word>, end: string)
    requires Written(ws, end)
    ensures Tokens(Text(ws, end)) == ItemsOf(ws)
    decreases |ws|
  {
    if ws == [] {
      EndHasNoItems(end);
    } else {
      var t := Text(ws[1..], end);
      WrittenIsRead(ws[1..], end);
      GapHasNoItems(ws[0].gap, ItemText(ws[0].item, t));
      ItemIsRead(ws[0].item, t);
    }
  }

  // ----- What is read is written -----

  lemma Associates(c: char, s: string, t: string)
    ensures [c] + s + t == [c] + (s + t)
  {
  }

  lemma {:induction false} LineIsSplit(s: string) returns (text: string)
    ensures '\n' !in text && s == text + SkipLine(s)
    ensures SkipLine(s) == "" || SkipLine(s)[0] == '\n'
  {
    if s == "" || s[0] == '\n' {
      text := "";
    } else {
      var rest := LineIsSplit(s[1..]);
      text := [s[0]] + rest;
      Associates(s[0], rest, SkipLine(s[1..]));
      assert s == [s[0]] + s[1..];
    }
  }

  lemma CommentBefore(text: string, g: seq<Piece>, u: string)
    ensures GapText([Comment(text)] + g, u) == ['#'] + (text + (['\n'] + GapText(g, u)))
  {
    assert ([Comment(text)] + g)[1..] == g;
  }

  lemma BlankBefore(c: char, g: seq<Piece>, u: string)
    ensures GapText([Space(c)] + g, u) == [c] + GapText(g, u)
  {
    assert ([Space(c)] + g)[1..] == g;
  }

  lemma OpenCommentEnds(s: string)
    requires s != "" && s[0] == '#' && '\n' !in s[1..]
    ensures Ends(s)
  {
    assert s == ['#'] + s[1..];
  }

  lemma FirstAndRest(s: string, c: char)
    requires s != "" && s[0] == c
    ensures s == [c] + s[1..]
  {
  }

  /** Blanks are pieces, and what they end in is no blank. */
  lemma {:induction false} BlankIsGap(s: string) returns (g: seq<Piece>, u: string)
    ensures IsGap(g) && s == GapText(g, u)
    ensures u == SkipBlank(s) || (SkipBlank(s) == "" && Ends(u))
    decreases |s|
  {
    g, u := [], s;
    if s != "" && s[0] == '#' {
      var line := SkipLine(s[1..]);
      if line != "" {
        var text := LineIsSplit(s[1..]);
        var rest, v := BlankIsGap(line[1..]);
        g, u := [Comment(text)] + rest, v;
        CommentBefore(text, rest, v);
        FirstAndRest(line, '\n');
        FirstAndRest(s, '#');
      } else {
        var text := LineIsSplit(s[1..]);
        assert s[1..] == text;
        OpenCommentEnds(s);
      }
    } else if s != "" && IsSpace(s[0]) {
      var rest, v := BlankIsGap(s[1..]);
      g, u := [Space(s[0])] + rest, v;
      BlankBefore(s[0], rest, v);
      FirstAndRest(s, s[0]);
    }
  }

  lemma {:induction false} NamePrefix(s: string)
    ensures forall i :: 0 <= i < NameLength(s) ==> IsNameChar(s[i])
    ensures NameLength(s) == |s| || !IsNameChar(s[NameLength(s)])
  {
    if s != "" && IsNameChar(s[0]) {
      NamePrefix(s[1..]);
      assert forall i :: 1 <= i < |s| ==> s[i] == s[1..][i - 1];
    }
  }

  lemma {:induction false} NumberPrefix(s: string)
    ensures forall i :: 0 <= i < NumberLength(s) ==> IsNumberChar(s[i])
    ensures NumberLength(s) == |s| || !IsNumberChar(s[NumberLength(s)])
  {
    if s != "" && IsNumberChar(s[0]) {
      NumberPrefix(s[1..]);
      assert forall i :: 1 <= i < |s| ==> s[i] == s[1..][i - 1];
    }
  }

  lemma {:induction false} QuotePrefix(s: string)
    ensures forall i :: 0 <= i < QuoteLength(s) ==> s[i] != '"'
    ensures QuoteLength(s) == |s| || s[QuoteLength(s)] == '"'
  {
    if s != "" && s[0] != '"' {
      QuotePrefix(s[1..]);
      assert forall i :: 1 <= i < |s| ==> s[i] == s[1..][i - 1];
    }
  }

  lemma LexedNumberIsWritten(s: string)
    requires s != "" && LexItem(s).0.Number?
    ensures var (x, n) := LexItem(s); CanPrecede(x, s[n..]) && s == ItemText(x, s[n..])
  {
    var n := LexItem(s).1;
    NumberPrefix(s[1..]);
    forall i | 1 <= i < n ensures IsNumberChar(s[..n][i]) {
      assert s[i] == s[1..][i - 1];
    }
    assert n < |s| ==> s[n..][0] == s[1..][n - 1];
    assert s == s[..n] + s[n..];
  }

  lemma LexedNameIsWritten(s: string)
    requires s != "" && LexItem(s).0.Name?
    ensures var (x, n) := LexItem(s); CanPrecede(x, s[n..]) && s == ItemText(x, s[n..])
  {
    var n := LexItem(s).1;
    NamePrefix(s);
    assert s == s[..n] + s[n..];
  }

  lemma LexedStringIsWritten(s: string)
    requires s != "" && LexItem(s).0.Str?
    ensures var (x, n) := LexItem(s); CanPrecede(x, s[n..]) && s == ItemText(x, s[n..])
  {
    var n := LexItem(s).1;
    QuotePrefix(s[1..]);
    assert s == ['"'] + (s[1..n - 1] + (['"'] + s[n..]));
  }

  lemma LexedIsWritten(s: string)
    requires s != "" && SkipBlank(s) == s && !LexItem(s).0.End? && !LexItem(s).0.Bad?
    ensures var (x, n) := LexItem(s); CanPrecede(x, s[n..]) && s == ItemText(x, s[n..])
  {
    match LexItem(s).0
    case Name(_) => LexedNameIsWritten(s);
    case Number(_) => LexedNumberIsWritten(s);
    case Str(_) => LexedStringIsWritten(s);
    case Punct(_) => assert s == [s[0]] + s[1..];
  }

  lemma BlankStays(s: string)
    ensures SkipBlank(SkipBlank(s)) == SkipBlank(s)
    decreases |s|
  {
    if s != "" && s[0] == '#' {
      BlankStays(SkipLine(s[1..]));
    } else if s != "" && IsSpace(s[0]) {
      BlankStays(s[1..]);
    }
  }

  lemma PrependWord(w: Word, ws: seq<Word>, end: string)
    requires Written(ws, end) && IsGap(w.gap) && CanPrecede(w.item, Text(ws, end))
    ensures Written([w] + ws, end) && ItemsOf([w] + ws) == [w.item] + ItemsOf(ws)
    ensures Text([w] + ws, end) == GapText(w.gap, ItemText(w.item, Text(ws, end)))
  {
    assert ([w] + ws)[1..] == ws;
  }

  lemma {:induction false} ReadIsWritten(s: string) returns (ws: seq<Word>, end: string)
    requires Bad !in Tokens(s)
    ensures Written(ws, end) && s == Text(ws, end) && Tokens(s) == ItemsOf(ws)
    decreases |s|
  {
    var t := SkipBlank(s);
    var (item, n) := LexItem(t);
    var g, u := BlankIsGap(s);
    if item == End {
      ws, end := [], s;
      assert Ends(u);
    } else {
      BlankStays(s);
      LexedIsWritten(t);
      assert forall x :: x in Tokens(t[n..]) ==> x in Tokens(s);
      ws, end := ReadIsWritten(t[n..]);
      PrependWord(Word(g, item), ws, end);
      ws := [Word(g, item)] + ws;
    }
  }

  lemma SpaceBefore(t: string)
    ensures GapText([Space(' ')], t) == " " + t
  {
    assert [Space(' ')][1..] == [] && GapText([], t) == t;
  }

  /** Items can be written with a space before each of them. */
  lemma {:induction false} SpacedOut(items: seq<Item>) returns (ws: seq<Word>)
    requires forall i :: 0 <= i < |items| ==> CanPrecede(items[i], "")
    ensures Written(ws, "") && ItemsOf(ws) == items
    ensures Text(ws, "") == "" || Text(ws, "")[0] == ' '
  {
    ws := [];
    if items == [] {
      assert GapText([], "") == "" && Ends("");
    } else {
      var rest := SpacedOut(items[1..]);
      var w := Word([Space(' ')], items[0]);
      SpaceBefore(ItemText(items[0], Text(rest, "")));
      PrependWord(w, rest, "");
      ws := [w] + rest;
    }
  }

  /** The text is written with blanks and comments anywhere between the items of trees that stand for the features. */
  ghost predicate Writes(source: string, fs: seq<Feature>) {
    exists ws, end :: Written(ws, end) && source == Text(ws, end) && Derives(ItemsOf(ws), fs)
  }

  /** The parser accepts exactly the texts that the grammar and the rules for items describe, with their meaning:
      types, arguments, parameters, names and sub-features at any nesting. */
  lemma ParsesIffWritten(source: string, fs: seq<Feature>)
    ensures Parse(source) == Ok(fs) <==> Writes(source, fs)
  {
    ParsesIffDerives(Tokens(source), fs);
    if Parse(source) == Ok(fs) {
      var ts :| AreTrees(ts) && Tokens(source) == TreesItems(ts, []) && fs == Meanings(ts);
      TreesHaveNoBad(ts, []);
      var ws, end := ReadIsWritten(source);
    }
    if Writes(source, fs) {
      var ws, end :| Written(ws, end) && source == Text(ws, end) && Derives(ItemsOf(ws), fs);
      WrittenIsRead(ws, end);
    }
  }
}
