/** The binary segmenter: from annotated tokens to character tokens, START/MERGE actions and back. */
module Segmenter {
  import opened ParserStates
  import opened Segmentation

  const START := 0
  const MERGE := 1

  // ----- To character tokens -----

  predicate BeginsChar(text: Text, b: int) {
    exists c :: 0 <= c < |text| && b == FirstByte(text, c)
  }

  predicate EndsChar(text: Text, b: int) {
    exists c :: 0 <= c < |text| && b == LastByte(text, c)
  }

  /** Every token begins and ends with a whole character. */
  predicate Aligned(text: Text, ts: seq<Token>) {
    forall k :: 0 <= k < |ts| ==> BeginsChar(text, ts[k].start) && EndsChar(text, ts[k].end)
  }

  lemma WellSegmentedIsAligned(text: Text, ts: seq<Token>)
    requires WellSegmented(text, ts)
    ensures Aligned(text, ts)
  {
    var spans: seq<Span> :| Segments(text, |text|, ts, spans);
    forall k | 0 <= k < |ts| ensures BeginsChar(text, ts[k].start) && EndsChar(text, ts[k].end) {
      assert Spells(text, ts[k], spans[k]);
      assert ts[k].start == FirstByte(text, spans[k].from) && ts[k].end == LastByte(text, spans[k].to - 1);
    }
  }

  method DocTokensConsistent(text: Text, ts: seq<Token>) returns (ok: bool)
    ensures ok <==> Aligned(text, ts)
  {
    var starts: set<int>, ends: set<int> := {}, {};
    for c := 0 to |text|
      invariant forall b :: b in starts <==> exists d :: 0 <= d < c && b == FirstByte(text, d)
      invariant forall b :: b in ends <==> exists d :: 0 <= d < c && b == LastByte(text, d)
    {
      starts, ends := starts + {FirstByte(text, c)}, ends + {LastByte(text, c)};
    }
    for k := 0 to |ts|
      invariant forall j :: 0 <= j < k ==> BeginsChar(text, ts[j].start) && EndsChar(text, ts[j].end)
    {
      if ts[k].start !in starts || ts[k].end !in ends {
        return false;
      }
    }
    return true;
  }

  method FillTo(ids: seq<int>, n: int, value: int) returns (r: seq<int>)
    ensures r == Pad(ids, n, value)
  {
    r := ids;
    while |r| < n
      invariant |ids| <= |r| && (|ids| >= n ==> r == ids) && (|ids| < n ==> |r| <= n)
      invariant forall b :: 0 <= b < |r| ==> r[b] == if b < |ids| then ids[b] else value
    {
      r := r + [value];
    }
  }

  /** The token every byte of the text is in, or -1. */
  method ByteTokens(text: Text, ts: seq<Token>) returns (ids: seq<int>)
    ensures ids == ByteIds(text, ts)
  {
    ids := [];
    for k := 0 to |ts|
      invariant ids == TokenIds(ts, k)
    {
      ids := FillTo(ids, ts[k].start, -1);
      ids := FillTo(ids, ts[k].end + 1, k);
    }
    ids := FillTo(ids, ByteSize(text), -1);
  }

  /** Characters marked with whether they begin a word. */
  predicate MarkedChars(text: Text, ts: seq<Token>, cs: seq<Token>) {
    var ids := ByteIds(text, ts);
    && CharTokens(text, cs)
    && forall c {:trigger cs[c]} :: 0 <= c < |cs| ==>
         cs[c].level == if c == 0 || Splits(text, ids, c) then SpaceBreak else NoBreak
  }

  method SetCharsAsTokens(text: Text) returns (cs: seq<Token>)
    ensures CharTokens(text, cs)
  {
    cs := [];
    for c := 0 to |text|
      invariant |cs| == c
      invariant forall d {:trigger cs[d]} :: 0 <= d < c ==> IsCharToken(text, d, cs[d])
    {
      cs := cs + [Token(FirstByte(text, c), LastByte(text, c), [text[c]], SpaceBreak)];
    }
  }

  /** The break levels that tell which characters begin a word, the first one always doing so. */
  method SplitLevels(text: Text, ids: seq<int>) returns (levels: seq<BreakLevel>)
    requires |ids| >= ByteSize(text) && text != []
    ensures |levels| == |text|
    ensures forall c {:trigger levels[c]} :: 0 <= c < |text| ==>
              levels[c] == if c == 0 || Splits(text, ids, c) then SpaceBreak else NoBreak
  {
    levels := [SpaceBreak];
    for c := 1 to |text|
      invariant |levels| == c
      invariant forall d {:trigger levels[d]} :: 0 <= d < c ==>
                  levels[d] == if d == 0 || Splits(text, ids, d) then SpaceBreak else NoBreak
    {
      levels := levels + [if Splits(text, ids, c) then SpaceBreak else NoBreak];
    }
  }

  /** Turns the characters of the text into tokens whose break levels tell where its tokens begin;
      refuses tokens that do not consist of whole characters. */
  method ConvertToCharTokenDoc(text: Text, ts: seq<Token>) returns (ok: bool, cs: seq<Token>)
    requires text != [] || ts != []
    ensures ok <==> Aligned(text, ts)
    ensures ok ==> text != [] && MarkedChars(text, ts, cs)
  {
    cs := [];
    ok := DocTokensConsistent(text, ts);
    if !ok {
      return;
    }
    assert ts != [] ==> BeginsChar(text, ts[0].start);
    var ids := ByteTokens(text, ts);
    var levels := SplitLevels(text, ids);
    cs := SetCharsAsTokens(text);
    for c := 0 to |cs|
      invariant CharTokens(text, cs) && forall d :: 0 <= d < c ==> cs[d].level == levels[d]
    {
      cs := cs[c := cs[c].(level := levels[c])];
    }
  }

  // ----- Transitions -----

  predicate IsStart(action: int) {
    action < 0 || action == START
  }

  predicate StartsAt(actions: seq<int>, c: nat) {
    c < |actions| && IsStart(actions[c])
  }

  /** The characters at which the actions start a word. */
  function StartsOf(actions: seq<int>): seq<int> {
    if actions == [] then []
    else
      var n := |actions| - 1;
      StartsOf(actions[..n]) + if IsStart(actions[n]) then [n] else []
  }

  lemma {:induction false} InStarts(actions: seq<int>, c: int)
    ensures c in StartsOf(actions) <==> 0 <= c < |actions| && IsStart(actions[c])
    ensures |StartsOf(actions)| <= |actions|
  {
    if actions != [] {
      InStarts(actions[..|actions| - 1], c);
    }
  }

  method PerformAction(action: int, state: ParserState)
    requires state.Valid() && state.next < state.gold.Size() && |state.stack| <= state.next
    modifies state
    ensures state.Valid()
    ensures state.View() == old(state.View()).(next := old(state.next) + 1,
                              stack := old(state.stack) + if IsStart(action) then [old(state.next)] else [])
  {
    if IsStart(action) {
      state.Push(state.next);
    }
    state.Advance();
  }

  function GoldAction(cs: seq<Token>, next: nat): int
    requires next < |cs|
  {
    if next == 0 then START else if cs[next].level != NoBreak then START else MERGE
  }

  /** Performs the given actions on a fresh state. */
  method PerformAll(actions: seq<int>, state: ParserState)
    requires state.Valid() && state.next == 0 && state.stack == [] && |actions| <= state.gold.Size()
    modifies state
    ensures state.Valid() && state.next == |actions| && state.stack == StartsOf(actions)
  {
    for i := 0 to |actions|
      invariant state.Valid() && state.next == i && state.stack == StartsOf(actions[..i])
    {
      InStarts(actions[..i], 0);
      PerformAction(actions[i], state);
      assert actions[..i + 1][..i] == actions[..i];
    }
    assert actions[..|actions|] == actions;
  }

  /** Performs the gold actions on a fresh state until all characters are consumed. */
  method FollowGold(cs: seq<Token>, state: ParserState) returns (actions: seq<int>)
    requires state.Valid() && state.next == 0 && state.stack == [] && |cs| == state.gold.Size()
    modifies state
    ensures state.Valid() && state.EndOfInput() && state.stack == StartsOf(actions)
    ensures |actions| == |cs| && forall c :: 0 <= c < |cs| ==> actions[c] == GoldAction(cs, c)
    ensures forall c :: 0 <= c < |cs| ==> (actions[c] == START <==> c == 0 || cs[c].level != NoBreak)
    ensures forall c :: 0 <= c < |cs| ==> actions[c] == START || actions[c] == MERGE
  {
    actions := [];
    while !state.EndOfInput()
      invariant state.Valid() && state.next == |actions| && state.stack == StartsOf(actions)
      invariant forall c :: 0 <= c < |actions| ==> actions[c] == GoldAction(cs, c)
      decreases |cs| - |actions|
    {
      var action := GoldAction(cs, state.next);
      InStarts(actions, 0);
      PerformAction(action, state);
      assert (actions + [action])[..|actions|] == actions;
      actions := actions + [action];
    }
  }

  // ----- Back to tokens -----

  method MarkStarts(state: ParserState, n: nat) returns (isStarts: seq<bool>)
    requires forall s :: s in state.stack ==> 0 <= s < n
    ensures |isStarts| == n && forall c :: 0 <= c < n ==> (isStarts[c] <==> c in state.stack)
  {
    isStarts := seq(n, _ => false);
    var size := |state.stack|;
    for i := 0 to size
      invariant |isStarts| == n
      invariant forall c :: 0 <= c < n ==> (isStarts[c] <==> c in state.stack[size - i..])
    {
      assert state.Stack(i) == state.stack[size - 1 - i] && state.stack[size - 1 - i] in state.stack;
      assert state.stack[size - 1 - i..] == [state.stack[size - 1 - i]] + state.stack[size - i..];
      isStarts := isStarts[state.Stack(i) := true];
    }
  }

  /** Joins the character tokens into words at the starts on the stack. */
  method AddParseToDocument(state: ParserState, cs: seq<Token>, ghost text: Text) returns (words: seq<Token>)
    requires CharTokens(text, cs) && forall s :: s in state.stack ==> 0 <= s < |cs|
    ensures words == Merge(text, state.stack, |text|)
  {
    words := [];
    var isStarts := MarkStarts(state, |cs|);
    var level, isFirst := NoBreak, true;
    for c := 0 to |cs|
      invariant words == Merge(text, state.stack, c) && level == LevelAt(text, c) && isFirst == (words == [])
    {
      var t := cs[c];
      var isBreak := IsBreak(t.word[0]);
      if isStarts[c] || isFirst {
        if !isBreak {
          words := words + [Token(t.start, t.end, t.word, level)];
          isFirst := false;
        }
      } else if !isBreak {
        var m := |words| - 1;
        words := words[m := words[m].(word := words[m].word + t.word, end := t.end)];
      }
      level := if isBreak then LevelOf(t.word[0]) else NoBreak;
      if level == SentenceBreak {
        level := LineBreak;
      }
    }
  }

  // ----- Whole runs -----

  /** The parser state of a sentence without tree annotation. */
  method NewState(n: nat) returns (state: ParserState)
    ensures fresh(state) && state.Valid() && state.gold.Size() == n && state.next == 0 && state.stack == []
  {
    state := new ParserState(Gold(seq(n, _ => -1), seq(n, _ => ""), map[]));
  }

  /** Whatever actions are taken, the words are spans in order that leave out only break characters, begin where an
      action starts one and at the first character that is no break, spell exactly the other characters and have the
      break level of the character before them. */
  method SegmentBy(text: Text, cs: seq<Token>, actions: seq<int>) returns (words: seq<Token>, ghost spans: seq<Span>)
    requires CharTokens(text, cs) && |actions| <= |cs|
    ensures Segments(text, |text|, words, spans) && Levelled(text, words, spans)
    ensures forall c: nat {:trigger Begins(spans, c)} :: c < |text| ==>
              (Begins(spans, c) <==>
               !IsBreak(text[c]) && (StartsAt(actions, c) || forall d :: 0 <= d < c ==> IsBreak(text[d])))
    ensures Spelled(words) == Solid(text, 0, |text|)
  {
    var state := NewState(|cs|);
    PerformAll(actions, state);
    forall s | s in state.stack ensures 0 <= s < |cs| {
      InStarts(actions, s);
    }
    words := AddParseToDocument(state, cs, text);
    spans := MergeSegments(text, state.stack, |text|);
    forall c: nat | c < |text| ensures c in state.stack <==> StartsAt(actions, c) {
      InStarts(actions, c);
    }
    MergeSpellsText(text, state.stack, |text|);
  }

  /** The gold round trip recovers the tokens of exactly the well segmented documents. */
  method GoldRoundTrip(text: Text, ts: seq<Token>) returns (ok: bool, words: seq<Token>)
    requires text != [] || ts != []
    ensures ok <==> Aligned(text, ts)
    ensures ok && SameSpans(words, ts) <==> WellSegmented(text, ts)
    ensures ok ==> Spelled(words) == Solid(text, 0, |text|)
  {
    var cs;
    words := [];
    ok, cs := ConvertToCharTokenDoc(text, ts);
    if WellSegmented(text, ts) {
      WellSegmentedIsAligned(text, ts);
    }
    if !ok {
      return;
    }
    var state := NewState(|cs|);
    var actions := FollowGold(cs, state);
    forall c | c in state.stack || 0 <= c < |cs| ensures 0 <= c < |cs| && (c in state.stack <==> IsStart(actions[c])) {
      InStarts(actions, c);
    }
    words := AddParseToDocument(state, cs, text);
    RoundTripIffWellSegmented(text, ts, state.stack);
    MergeSpellsText(text, state.stack, |text|);
  }
}
