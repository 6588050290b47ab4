/** Words as spans of characters, and what the binary segmenter makes of a sequence of starts. */
module Segmentation {

  // ----- Characters and tokens -----

  /** A character by its code point and the number of trail bytes that follow its first byte. */
  datatype Char = Char(code: int, trail: nat) {
    function Width(): nat { trail + 1 }
  }
  type Text = seq<Char>

  const LINE_SEPARATOR := 0x2028
  const PARAGRAPH_SEPARATOR := 0x2029

  predicate InBreakChars(code: int) {
    || code == LINE_SEPARATOR || code == PARAGRAPH_SEPARATOR
    || code == 0x0020 || code == 0x00a0 || code == 0x1680 || code == 0x180e || 0x2000 <= code <= 0x200a
    || code == 0x202f || code == 0x205f || code == 0x3000 || code == 0xe5e5
  }

  predicate IsBreak(c: Char) {
    c.code == '\n' as int || c.code == '\t' as int || InBreakChars(c.code)
  }

  datatype BreakLevel = NoBreak | SpaceBreak | LineBreak | SentenceBreak

  function LevelOf(c: Char): BreakLevel {
    if c.code == '\n' as int || c.code == LINE_SEPARATOR then LineBreak
    else if c.code == PARAGRAPH_SEPARATOR then SentenceBreak
    else if c.code == '\t' as int || InBreakChars(c.code) then SpaceBreak
    else NoBreak
  }

  /** The break level of a token that follows a character: at most a line break. */
  function LevelAfter(c: Char): BreakLevel {
    if !IsBreak(c) then NoBreak else if LevelOf(c) == SentenceBreak then LineBreak else LevelOf(c)
  }

  /** A token with its first and last byte. */
  datatype Token = Token(start: int, end: int, word: Text, level: BreakLevel)

  /** The number of bytes before character c. */
  function Offset(text: Text, c: nat): nat
    requires c <= |text|
  {
    if c == 0 then 0 else Offset(text, c - 1) + text[c - 1].Width()
  }

  function ByteSize(text: Text): nat {
    Offset(text, |text|)
  }

  function FirstByte(text: Text, c: nat): int
    requires c < |text|
  {
    Offset(text, c)
  }

  function LastByte(text: Text, c: nat): int
    requires c < |text|
  {
    Offset(text, c + 1) - 1
  }

  lemma {:induction false} OffsetGrows(text: Text, a: nat, b: nat)
    requires a < b <= |text|
    ensures Offset(text, a) < Offset(text, b)
  {
    if a < b - 1 {
      OffsetGrows(text, a, b - 1);
    }
  }

  /** Byte positions order characters. */
  lemma OffsetOrders(text: Text, a: nat, b: nat)
    requires a <= |text| && b <= |text|
    ensures Offset(text, a) < Offset(text, b) <==> a < b
  {
    if a < b {
      OffsetGrows(text, a, b);
    } else if b < a {
      OffsetGrows(text, b, a);
    }
  }

  /** The token is character c of the text. */
  predicate IsCharToken(text: Text, c: nat, t: Token)
    requires c < |text|
  {
    t.start == FirstByte(text, c) && t.end == LastByte(text, c) && t.word == [text[c]]
  }

  /** The sentence has one token for every character. */
  predicate CharTokens(text: Text, cs: seq<Token>) {
    |cs| == |text| && forall c {:trigger cs[c]} :: 0 <= c < |text| ==> IsCharToken(text, c, cs[c])
  }

  // ----- Words -----

  /** The characters from .. to - 1 of a text. */
  datatype Span = Span(from: nat, to: nat)

  /** The characters from a to b - 1 that are not break characters. */
  function Solid(text: Text, a: nat, b: nat): Text
    requires a <= b <= |text|
    decreases b
  {
    if a == b then [] else if IsBreak(text[b - 1]) then Solid(text, a, b - 1) else Solid(text, a, b - 1) + [text[b - 1]]
  }

  /** The token is the word spanned by the given characters, neither of whose ends is a break. */
  predicate Spells(text: Text, t: Token, s: Span) {
    && s.from < s.to <= |text|
    && t.start == Offset(text, s.from) && t.end == Offset(text, s.to) - 1 && t.word == Solid(text, s.from, s.to)
    && !IsBreak(text[s.from]) && !IsBreak(text[s.to - 1])
  }

  predicate Inside(s: Span, c: nat) {
    s.from <= c < s.to
  }

  predicate Disjoint(spans: seq<Span>, n: nat) {
    && (forall k :: 0 <= k < |spans| ==> spans[k].from < spans[k].to <= n)
    && forall j, k :: 0 <= j < k < |spans| ==> spans[j].to <= spans[k].from
  }

  predicate Covered(spans: seq<Span>, c: nat) {
    exists k :: 0 <= k < |spans| && Inside(spans[k], c)
  }

  predicate Covers(text: Text, spans: seq<Span>, n: nat)
    requires n <= |text|
  {
    forall c: nat {:trigger Covered(spans, c)} :: c < n && !IsBreak(text[c]) ==> Covered(spans, c)
  }

  /** The tokens are words in order, without overlap, and only break characters lie outside them. */
  predicate Segments(text: Text, n: nat, ts: seq<Token>, spans: seq<Span>)
    requires n <= |text|
  {
    && |spans| == |ts| && Disjoint(spans, n) && Covers(text, spans, n)
    && forall k {:trigger Spells(text, ts[k], spans[k])} :: 0 <= k < |ts| ==> Spells(text, ts[k], spans[k])
  }

  ghost predicate WellSegmented(text: Text, ts: seq<Token>) {
    exists spans :: Segments(text, |text|, ts, spans)
  }

  predicate SameSpans(xs: seq<Token>, ys: seq<Token>) {
    |xs| == |ys| && forall k :: 0 <= k < |xs| ==>
      xs[k].start == ys[k].start && xs[k].end == ys[k].end && xs[k].word == ys[k].word
  }

  /** Every token has the break level of the character before it, a line break at most. */
  predicate Levelled(text: Text, ts: seq<Token>, spans: seq<Span>) {
    |spans| == |ts| && forall k :: 0 <= k < |ts| ==>
      spans[k].from <= |text| && IsLevelAt(text, spans[k].from, ts[k].level)
  }

  predicate IsLevelAt(text: Text, c: nat, level: BreakLevel)
    requires c <= |text|
  {
    if c == 0 || !IsBreak(text[c - 1]) then level == NoBreak
    else if text[c - 1].code in {'\n' as int, LINE_SEPARATOR, PARAGRAPH_SEPARATOR} then level == LineBreak
    else level == SpaceBreak
  }

  function LevelAt(text: Text, c: nat): BreakLevel
    requires c <= |text|
  {
    if c == 0 then NoBreak else LevelAfter(text[c - 1])
  }

  /** All words of the tokens, one after the other. */
  function Spelled(ts: seq<Token>): Text {
    if ts == [] then [] else Spelled(ts[..|ts| - 1]) + ts[|ts| - 1].word
  }

  // ----- What the starts make of the characters -----

  /** The tokens after the first i characters, a new one beginning at every start. */
  function Merge(text: Text, starts: seq<int>, i: nat): seq<Token>
    requires i <= |text|
  {
    if i == 0 then [] else Extend(text, starts, i - 1, Merge(text, starts, i - 1))
  }

  /** Adds character c: breaks are dropped, the very first word needs no start. */
  function Extend(text: Text, starts: seq<int>, c: nat, ts: seq<Token>): seq<Token>
    requires c < |text|
  {
    var end := Offset(text, c + 1) - 1;
    if IsBreak(text[c]) then ts
    else if c in starts || ts == [] then ts + [Token(Offset(text, c), end, [text[c]], LevelAt(text, c))]
    else
      var m := |ts| - 1;
      ts[m := ts[m].(end := end, word := ts[m].word + [text[c]])]
  }

  lemma SpelledNew(ts: seq<Token>, t: Token)
    ensures Spelled(ts + [t]) == Spelled(ts) + t.word
  {
    assert (ts + [t])[..|ts|] == ts;
  }

  lemma SpelledLonger(ts: seq<Token>, t: Token, x: Char)
    requires ts != [] && t.word == ts[|ts| - 1].word + [x]
    ensures Spelled(ts[|ts| - 1 := t]) == Spelled(ts) + [x]
  {
    var m := |ts| - 1;
    assert ts == ts[..m] + [ts[m]] && ts[m := t] == ts[..m] + [t];
    SpelledNew(ts[..m], ts[m]);
    SpelledNew(ts[..m], t);
  }

  /** A word without breaks is the text it spans. */
  lemma {:induction false} BreakFreeWord(text: Text, a: nat, b: nat)
    requires a <= b <= |text| && forall c {:trigger IsBreak(text[c])} :: a <= c < b ==> !IsBreak(text[c])
    ensures Solid(text, a, b) == text[a..b]
    decreases b
  {
    if a < b {
      BreakFreeWord(text, a, b - 1);
      assert !IsBreak(text[b - 1]) && text[a..b] == text[a..b - 1] + [text[b - 1]];
    }
  }

  /** Whatever the starts, no character other than a break is lost, added or moved. */
  lemma {:induction false} MergeSpellsText(text: Text, starts: seq<int>, i: nat)
    requires i <= |text|
    ensures Spelled(Merge(text, starts, i)) == Solid(text, 0, i)
  {
    if i > 0 {
      MergeSpellsText(text, starts, i - 1);
      var ts, ts' := Merge(text, starts, i - 1), Merge(text, starts, i);
      if !IsBreak(text[i - 1]) {
        if i - 1 in starts || ts == [] {
          SpelledNew(ts, ts'[|ts|]);
        } else {
          SpelledLonger(ts, ts'[|ts| - 1], text[i - 1]);
        }
      }
    }
  }

  lemma SolidOne(text: Text, c: nat)
    requires c < |text| && !IsBreak(text[c])
    ensures Solid(text, c, c + 1) == [text[c]]
  {
    assert Solid(text, c, c) == [];
  }

  lemma CoversMore(text: Text, spans: seq<Span>, c: nat, spans': seq<Span>)
    requires c < |text| && Covers(text, spans, c) && |spans'| >= |spans|
    requires forall k :: 0 <= k < |spans| ==> spans'[k].from == spans[k].from && spans'[k].to >= spans[k].to
    requires !IsBreak(text[c]) ==> spans' != [] && Inside(spans'[|spans'| - 1], c)
    ensures Covers(text, spans', c + 1)
  {
    forall d: nat | d < c + 1 && !IsBreak(text[d]) ensures Covered(spans', d) {
      if d < c {
        assert Covered(spans, d);
        var k :| 0 <= k < |spans| && Inside(spans[k], d);
        assert Inside(spans'[k], d);
      }
    }
  }

  lemma StartSegments(text: Text, c: nat, ts: seq<Token>, spans: seq<Span>, t: Token)
    requires c < |text| && Segments(text, c, ts, spans) && !IsBreak(text[c])
    requires t.start == Offset(text, c) && t.end == Offset(text, c + 1) - 1 && t.word == [text[c]]
    ensures Segments(text, c + 1, ts + [t], spans + [Span(c, c + 1)])
  {
    SolidOne(text, c);
    var ts', spans' := ts + [t], spans + [Span(c, c + 1)];
    CoversMore(text, spans, c, spans');
    assert Spells(text, t, Span(c, c + 1));
    forall k | 0 <= k < |ts'| ensures Spells(text, ts'[k], spans'[k]) {
      if k < |ts| {
        assert Spells(text, ts[k], spans[k]);
      }
    }
  }

  lemma {:induction false} OnlyBreaks(text: Text, a: nat, b: nat, c: nat)
    requires a <= b <= c <= |text| && forall d :: b <= d < c ==> IsBreak(text[d])
    ensures Solid(text, a, c) == Solid(text, a, b)
    decreases c
  {
    if b < c {
      OnlyBreaks(text, a, b, c - 1);
    }
  }

  lemma SpellsLonger(text: Text, t: Token, s: Span, c: nat, t': Token)
    requires Spells(text, t, s) && s.to <= c < |text| && !IsBreak(text[c])
    requires forall d :: s.to <= d < c ==> IsBreak(text[d])
    requires t'.start == t.start && t'.end == Offset(text, c + 1) - 1 && t'.word == t.word + [text[c]]
    ensures Spells(text, t', Span(s.from, c + 1))
  {
    OnlyBreaks(text, s.from, s.to, c);
  }

  lemma AppendSegments(text: Text, c: nat, ts: seq<Token>, spans: seq<Span>, t: Token)
    requires c < |text| && Segments(text, c, ts, spans) && !IsBreak(text[c]) && ts != []
    requires Spells(text, t, Span(spans[|ts| - 1].from, c + 1))
    ensures Segments(text, c + 1, ts[|ts| - 1 := t], spans[|ts| - 1 := Span(spans[|ts| - 1].from, c + 1)])
  {
    var m := |ts| - 1;
    var ts', spans' := ts[m := t], spans[m := Span(spans[m].from, c + 1)];
    CoversMore(text, spans, c, spans');
    forall k | 0 <= k < |ts'| ensures Spells(text, ts'[k], spans'[k]) {
      if k < m {
        assert Spells(text, ts[k], spans[k]);
      }
    }
  }

  /** After the last word there are only breaks. */
  lemma RestIsBreaks(text: Text, c: nat, ts: seq<Token>, spans: seq<Span>)
    requires c <= |text| && Segments(text, c, ts, spans) && ts != []
    ensures forall d :: spans[|ts| - 1].to <= d < c ==> IsBreak(text[d])
  {
    forall d | spans[|ts| - 1].to <= d < c ensures IsBreak(text[d]) {
      forall k | 0 <= k < |spans| ensures !Inside(spans[k], d) {
        assert k < |ts| - 1 ==> spans[k].to <= spans[|ts| - 1].from;
      }
      assert !Covered(spans, d);
    }
  }

  predicate Begins(spans: seq<Span>, c: nat) {
    exists k :: 0 <= k < |spans| && spans[k].from == c
  }

  /** Words begin exactly at the starts that are no breaks, and at the first character that is none. */
  predicate BeginAtStarts(text: Text, starts: seq<int>, n: nat, spans: seq<Span>)
    requires n <= |text|
  {
    forall c: nat {:trigger Begins(spans, c)} :: c < n ==>
      (Begins(spans, c) <==> !IsBreak(text[c]) && (c in starts || forall d :: 0 <= d < c ==> IsBreak(text[d])))
  }

  /** There is no word yet exactly if there were only breaks. */
  lemma NoWordIffBreaks(text: Text, c: nat, ts: seq<Token>, spans: seq<Span>)
    requires c <= |text| && Segments(text, c, ts, spans)
    ensures ts == [] <==> forall d :: 0 <= d < c ==> IsBreak(text[d])
  {
    if ts == [] {
      forall d | 0 <= d < c ensures IsBreak(text[d]) {
        assert !Covered(spans, d);
      }
    } else {
      assert Spells(text, ts[0], spans[0]);
      assert !IsBreak(text[spans[0].from]);
    }
  }

  lemma BeginsOneMore(text: Text, starts: seq<int>, c: nat, ts: seq<Token>, spans: seq<Span>, spans': seq<Span>)
    requires c < |text| && Segments(text, c, ts, spans) && BeginAtStarts(text, starts, c, spans)
    requires if !IsBreak(text[c]) && (c in starts || ts == []) then spans' == spans + [Span(c, c + 1)]
             else |spans'| == |spans| && forall k :: 0 <= k < |spans| ==> spans'[k].from == spans[k].from
    ensures BeginAtStarts(text, starts, c + 1, spans')
  {
    NoWordIffBreaks(text, c, ts, spans);
    forall d: nat | d < c + 1
      ensures Begins(spans', d) <==> !IsBreak(text[d]) && (d in starts || forall e :: 0 <= e < d ==> IsBreak(text[e]))
    {
      if d < c {
        assert Begins(spans, d) <==> Begins(spans', d) by {
          if k :| 0 <= k < |spans| && spans[k].from == d {
            assert spans'[k].from == d;
          }
        }
      } else if !IsBreak(text[c]) && (c in starts || ts == []) {
        assert spans'[|spans|].from == c;
      }
    }
  }

  /** A character extends a segmentation: breaks are left out, others begin a word or go on with the last. */
  lemma ExtendSegments(text: Text, starts: seq<int>, c: nat, ts: seq<Token>, spans: seq<Span>)
      returns (spans': seq<Span>)
    requires c < |text| && Segments(text, c, ts, spans) && Levelled(text, ts, spans)
    ensures Segments(text, c + 1, Extend(text, starts, c, ts), spans')
    ensures Levelled(text, Extend(text, starts, c, ts), spans')
    ensures if !IsBreak(text[c]) && (c in starts || ts == []) then spans' == spans + [Span(c, c + 1)]
            else |spans'| == |spans| && forall k :: 0 <= k < |spans| ==> spans'[k].from == spans[k].from
  {
    var ts' := Extend(text, starts, c, ts);
    if IsBreak(text[c]) {
      spans' := spans;
      CoversMore(text, spans, c, spans);
    } else if c in starts || ts == [] {
      StartSegments(text, c, ts, spans, ts'[|ts|]);
      spans' := spans + [Span(c, c + 1)];
    } else {
      var m := |ts| - 1;
      assert Spells(text, ts[m], spans[m]);
      RestIsBreaks(text, c, ts, spans);
      SpellsLonger(text, ts[m], spans[m], c, ts'[m]);
      AppendSegments(text, c, ts, spans, ts'[m]);
      spans' := spans[m := Span(spans[m].from, c + 1)];
    }
  }

  /** Whatever the starts, the tokens made are words in order that leave out only breaks, begin exactly at the starts
      and at the first character that is no break, and have the break level of the character before them. */
  lemma {:induction false} MergeSegments(text: Text, starts: seq<int>, i: nat) returns (spans: seq<Span>)
    requires i <= |text|
    ensures Segments(text, i, Merge(text, starts, i), spans) && Levelled(text, Merge(text, starts, i), spans)
    ensures BeginAtStarts(text, starts, i, spans)
  {
    spans := [];
    if i > 0 {
      var before := MergeSegments(text, starts, i - 1);
      spans := ExtendSegments(text, starts, i - 1, Merge(text, starts, i - 1), before);
      BeginsOneMore(text, starts, i - 1, Merge(text, starts, i - 1), before, spans);
    }
  }

  // ----- Gold starts -----

  predicate Interior(spans: seq<Span>, c: nat) {
    exists k :: 0 <= k < |spans| && spans[k].from < c < spans[k].to
  }

  /** There is a start at every character that does not continue a word. */
  predicate GoldStarts(spans: seq<Span>, n: nat, starts: seq<int>) {
    forall c: nat {:trigger Interior(spans, c)} :: c < n ==> (c in starts <==> !Interior(spans, c))
  }

  function Min(a: nat, b: nat): nat {
    if a < b then a else b
  }

  /** The token o holds what the first i characters contribute to the word t. */
  predicate Partly(text: Text, t: Token, s: Span, i: nat, o: Token)
    requires i <= |text|
  {
    && s.from < i && s.from < s.to && o.start == t.start && (s.to <= i ==> o.end == t.end)
    && o.word == Solid(text, s.from, Min(s.to, i))
  }

  /** The words begun before character i have been rebuilt up to it, and no others. */
  predicate Rebuilt(text: Text, ts: seq<Token>, spans: seq<Span>, i: nat, out: seq<Token>)
    requires |ts| == |spans| && i <= |text|
  {
    && |out| <= |spans| && (|out| < |spans| ==> spans[|out|].from >= i)
    && forall k {:trigger Partly(text, ts[k], spans[k], i, out[k])} :: 0 <= k < |out| ==>
         Partly(text, ts[k], spans[k], i, out[k])
  }

  lemma PartlyNext(text: Text, t: Token, s: Span, i: nat, o: Token)
    requires i < |text| && Spells(text, t, s) && Partly(text, t, s, i, o) && (s.to <= i || IsBreak(text[i]))
    ensures Partly(text, t, s, i + 1, o)
  {
    assert IsBreak(text[i]) ==> s.to != i + 1;
  }

  /** A character that is not a break begins the next word or goes on with the last one. */
  lemma FindWord(text: Text, ts: seq<Token>, spans: seq<Span>, c: nat, out: seq<Token>) returns (k: nat)
    requires Segments(text, |text|, ts, spans) && c < |text| && Rebuilt(text, ts, spans, c, out) && !IsBreak(text[c])
    ensures k < |spans| && Inside(spans[k], c)
    ensures if spans[k].from == c then k == |out| && !Interior(spans, c) else k == |out| - 1 && Interior(spans, c)
  {
    assert Covered(spans, c);
    k :| 0 <= k < |spans| && Inside(spans[k], c);
    if k < |out| {
      assert Partly(text, ts[k], spans[k], c, out[k]);
      assert Partly(text, ts[|out| - 1], spans[|out| - 1], c, out[|out| - 1]);
    }
    forall j | 0 <= j < |spans| && j != k ensures !Inside(spans[j], c) {
      assert if j < k then spans[j].to <= spans[k].from else spans[k].to <= spans[j].from;
    }
  }

  lemma RebuildStep(text: Text, ts: seq<Token>, spans: seq<Span>, starts: seq<int>, c: nat, out: seq<Token>)
    requires Segments(text, |text|, ts, spans) && GoldStarts(spans, |text|, starts)
    requires c < |text| && Rebuilt(text, ts, spans, c, out)
    ensures Rebuilt(text, ts, spans, c + 1, Extend(text, starts, c, out))
  {
    var out' := Extend(text, starts, c, out);
    var m := |out|;
    if IsBreak(text[c]) {
      if m < |spans| {
        assert Spells(text, ts[m], spans[m]);
      }
      forall k | 0 <= k < m ensures Partly(text, ts[k], spans[k], c + 1, out'[k]) {
        assert Partly(text, ts[k], spans[k], c, out[k]) && Spells(text, ts[k], spans[k]);
        PartlyNext(text, ts[k], spans[k], c, out[k]);
      }
    } else {
      var k := FindWord(text, ts, spans, c, out);
      assert Spells(text, ts[k], spans[k]);
      assert k < m ==> Partly(text, ts[k], spans[k], c, out[k]);
      SolidOne(text, c);
      assert Partly(text, ts[k], spans[k], c + 1, out'[k]);
      assert |out'| == k + 1 && forall j :: 0 <= j < k ==> out'[j] == out[j];
      forall j | 0 <= j < k ensures Partly(text, ts[j], spans[j], c + 1, out'[j]) {
        assert Partly(text, ts[j], spans[j], c, out[j]) && Spells(text, ts[j], spans[j]);
        assert spans[j].to <= spans[k].from;
        PartlyNext(text, ts[j], spans[j], c, out[j]);
      }
    }
  }

  lemma {:induction false} GoldRebuilds(text: Text, ts: seq<Token>, spans: seq<Span>, starts: seq<int>, i: nat)
    requires Segments(text, |text|, ts, spans) && GoldStarts(spans, |text|, starts) && i <= |text|
    ensures Rebuilt(text, ts, spans, i, Merge(text, starts, i))
  {
    if i > 0 {
      GoldRebuilds(text, ts, spans, starts, i - 1);
      RebuildStep(text, ts, spans, starts, i - 1, Merge(text, starts, i - 1));
    }
  }

  /** With the starts of a segmentation, its tokens come back. */
  lemma GoldRecovers(text: Text, ts: seq<Token>, spans: seq<Span>, starts: seq<int>)
    requires Segments(text, |text|, ts, spans) && GoldStarts(spans, |text|, starts)
    ensures SameSpans(Merge(text, starts, |text|), ts)
  {
    var n, out := |text|, Merge(text, starts, |text|);
    GoldRebuilds(text, ts, spans, starts, n);
    forall k | 0 <= k < |out|
      ensures out[k].start == ts[k].start && out[k].end == ts[k].end && out[k].word == ts[k].word
    {
      assert Spells(text, ts[k], spans[k]) && Partly(text, ts[k], spans[k], n, out[k]);
    }
  }

  // ----- From bytes to starts -----

  /** Fills ids up to length n with a value. */
  function Pad(ids: seq<int>, n: int, value: int): (r: seq<int>)
    ensures |r| == if |ids| >= n then |ids| else n
    ensures forall b :: 0 <= b < |r| ==> r[b] == if b < |ids| then ids[b] else value
  {
    if |ids| >= n then ids else ids + seq(n - |ids|, _ => value)
  }

  /** The token of every byte up to the end of token k - 1, or -1. */
  function TokenIds(ts: seq<Token>, k: nat): seq<int>
    requires k <= |ts|
  {
    if k == 0 then [] else Pad(Pad(TokenIds(ts, k - 1), ts[k - 1].start, -1), ts[k - 1].end + 1, k - 1)
  }

  /** The token of every byte of the text, or -1. */
  function ByteIds(text: Text, ts: seq<Token>): seq<int> {
    Pad(TokenIds(ts, |ts|), ByteSize(text), -1)
  }

  /** Character c is taken to begin a word. */
  predicate Splits(text: Text, ids: seq<int>, c: nat)
    requires 0 < c < |text| && |ids| >= ByteSize(text)
  {
    OffsetOrders(text, c, |text|);
    OffsetOrders(text, 0, c);
    var first, before := ids[Offset(text, c)], ids[Offset(text, c) - 1];
    first == -1 || first != before
  }

  predicate ByteOrdered(ts: seq<Token>) {
    && (forall k :: 0 <= k < |ts| ==> 0 <= ts[k].start <= ts[k].end)
    && forall j, k :: 0 <= j < k < |ts| ==> ts[j].end < ts[k].start
  }

  /** The bytes of each of the first k tokens have its number, all others -1. */
  predicate Numbered(ts: seq<Token>, k: nat, ids: seq<int>)
    requires k <= |ts|
  {
    && (forall b :: 0 <= b < |ids| ==> IsIdOf(ts, k, b, ids[b]))
    && forall j :: 0 <= j < k ==> ts[j].end < |ids|
  }

  predicate IsIdOf(ts: seq<Token>, k: nat, b: nat, id: int)
    requires k <= |ts|
  {
    -1 <= id < k && forall j :: 0 <= j < k ==> (id == j <==> ts[j].start <= b <= ts[j].end)
  }

  lemma {:induction false} TokenIdsNumber(ts: seq<Token>, k: nat)
    requires ByteOrdered(ts) && k <= |ts|
    ensures |TokenIds(ts, k)| == if k == 0 then 0 else ts[k - 1].end + 1
    ensures Numbered(ts, k, TokenIds(ts, k))
  {
    if k > 0 {
      TokenIdsNumber(ts, k - 1);
      var before, ids := TokenIds(ts, k - 1), TokenIds(ts, k);
      forall b | 0 <= b < |ids| ensures IsIdOf(ts, k, b, ids[b]) {
        if b < |before| {
          assert ids[b] == before[b] && IsIdOf(ts, k - 1, b, before[b]);
        } else {
          NewId(ts, k, b, ids[b]);
        }
      }
    }
  }

  lemma NewId(ts: seq<Token>, k: nat, b: nat, id: int)
    requires ByteOrdered(ts) && 0 < k <= |ts| && b <= ts[k - 1].end && id == (if b < ts[k - 1].start then -1 else k - 1)
    requires k > 1 ==> ts[k - 2].end < b
    ensures IsIdOf(ts, k, b, id)
  {
    forall j | 0 <= j < k ensures id == j <==> ts[j].start <= b <= ts[j].end {
      assert j < k - 2 ==> ts[j].end < ts[k - 2].start;
    }
  }

  predicate Reaches(t: Token, b: nat) {
    b < t.start || b <= t.end
  }

  /** Token k is the first of the first n tokens that reaches the byte. */
  predicate FirstReaches(ts: seq<Token>, n: nat, b: nat, k: nat)
    requires n <= |ts|
  {
    k < n && Reaches(ts[k], b) && forall j :: 0 <= j < k ==> !Reaches(ts[j], b)
  }

  /** For any tokens, also ones that overlap or are out of order: a byte belongs to the first token that reaches it, or
      to none if that begins behind it. */
  ghost predicate BelongsTo(ts: seq<Token>, n: nat, b: nat, id: int)
    requires n <= |ts|
  {
    exists k: nat :: FirstReaches(ts, n, b, k) && id == if b < ts[k].start then -1 else k
  }

  lemma {:induction false} TokenIdsBelong(ts: seq<Token>, n: nat)
    requires n <= |ts|
    ensures forall b :: 0 <= b < |TokenIds(ts, n)| ==> BelongsTo(ts, n, b, TokenIds(ts, n)[b])
    ensures forall b: nat, k :: b >= |TokenIds(ts, n)| && 0 <= k < n ==> !Reaches(ts[k], b)
  {
    if n > 0 {
      TokenIdsBelong(ts, n - 1);
      var before, ids := TokenIds(ts, n - 1), TokenIds(ts, n);
      forall b | 0 <= b < |ids| ensures BelongsTo(ts, n, b, ids[b]) {
        if b < |before| {
          assert BelongsTo(ts, n - 1, b, before[b]);
          var k: nat :| FirstReaches(ts, n - 1, b, k) && before[b] == if b < ts[k].start then -1 else k;
          assert FirstReaches(ts, n, b, k);
        } else {
          assert FirstReaches(ts, n, b, n - 1);
        }
      }
    }
  }

  lemma SegmentsAreOrdered(text: Text, ts: seq<Token>, spans: seq<Span>)
    requires Segments(text, |text|, ts, spans)
    ensures ByteOrdered(ts) && forall k :: 0 <= k < |ts| ==> ts[k].end < ByteSize(text)
  {
    forall k | 0 <= k < |ts| ensures 0 <= ts[k].start <= ts[k].end < ByteSize(text) {
      assert Spells(text, ts[k], spans[k]);
      OffsetGrows(text, spans[k].from, spans[k].to);
      OffsetOrders(text, |text|, spans[k].to);
    }
    forall j, k | 0 <= j < k < |ts| ensures ts[j].end < ts[k].start {
      assert Spells(text, ts[j], spans[j]) && Spells(text, ts[k], spans[k]);
      OffsetOrders(text, spans[k].from, spans[j].to);
    }
  }

  /** Two neighbouring bytes are in one token exactly when their characters are in one word. */
  lemma BytesInside(text: Text, t: Token, s: Span, c: nat)
    requires Spells(text, t, s) && 0 < c < |text|
    ensures s.from < c < s.to <==> t.start < Offset(text, c) <= t.end
  {
    OffsetOrders(text, s.from, c);
    OffsetOrders(text, c, s.to);
  }

  lemma SplitsIffNotInterior(text: Text, ts: seq<Token>, spans: seq<Span>, ids: seq<int>, c: nat)
    requires Segments(text, |text|, ts, spans) && 0 < c < |text|
    requires |ids| >= ByteSize(text) && Numbered(ts, |ts|, ids)
    ensures Splits(text, ids, c) <==> !Interior(spans, c)
  {
    var b := Offset(text, c);
    OffsetOrders(text, 0, c);
    OffsetOrders(text, c, |text|);
    if Interior(spans, c) {
      var k :| 0 <= k < |spans| && spans[k].from < c < spans[k].to;
      assert Spells(text, ts[k], spans[k]);
      BytesInside(text, ts[k], spans[k], c);
    }
    if !Splits(text, ids, c) {
      var k := ids[b];
      assert Spells(text, ts[k], spans[k]);
      BytesInside(text, ts[k], spans[k], c);
    }
  }

  /** The starts the gold actions make: the first character and every one taken to begin a word. */
  predicate SplitStarts(text: Text, ts: seq<Token>, starts: seq<int>) {
    var ids := ByteIds(text, ts);
    forall c: nat {:trigger c in starts} :: c < |text| ==> (c in starts <==> c == 0 || Splits(text, ids, c))
  }

  /** Converting tokens to characters, following the gold actions and joining the characters again
      gives back exactly the well segmented documents. */
  lemma RoundTripIffWellSegmented(text: Text, ts: seq<Token>, starts: seq<int>)
    requires SplitStarts(text, ts, starts)
    ensures SameSpans(Merge(text, starts, |text|), ts) <==> WellSegmented(text, ts)
  {
    var out := Merge(text, starts, |text|);
    if SameSpans(out, ts) {
      var spans := MergeSegments(text, starts, |text|);
      forall k | 0 <= k < |ts| ensures Spells(text, ts[k], spans[k]) {
        assert Spells(text, out[k], spans[k]);
      }
      assert Segments(text, |text|, ts, spans);
    }
    if WellSegmented(text, ts) {
      var spans :| Segments(text, |text|, ts, spans);
      SegmentsAreOrdered(text, ts, spans);
      TokenIdsNumber(ts, |ts|);
      var ids := ByteIds(text, ts);
      assert Numbered(ts, |ts|, ids);
      forall c: nat | c < |text| ensures c in starts <==> !Interior(spans, c) {
        if c > 0 {
          SplitsIffNotInterior(text, ts, spans, ids, c);
        }
      }
      GoldRecovers(text, ts, spans, starts);
    }
  }
}
