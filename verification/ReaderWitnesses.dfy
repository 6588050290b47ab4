/** Corpora on which the decoding reader does not give back everything, or stops. */
module ReaderWitnesses {
  import opened Wrappers
  import opened TransitionSystems
  import opened DecodedReader
  import opened ReaderRuns
  import opened ReaderCompleteness
  import opened ParserStates
  import ArcStandard
  import opened ArcStandardSystem

  // ----- A finished state in a slot breaks the next call -----

  lemma HaltedCannotAct<S(!new)>(system: System<S>, row: seq<real>, x: S)
    requires Halts(system) && system.isFinal(x)
    ensures Act(system, row, x).None?
  {
  }

  /** A call that finds a finished state in a slot fails a check. */
  lemma FinishedSlotFails<S(!new)>(t: Task<S>, v: View<S>, rows: seq<seq<real>>, i: nat)
    requires Halts(t.system) && Shaped(t, v) && i < |v.states| && Finished(t, v, i)
    ensures Next(t, v, rows).None?
  {
    if Perform(t, v, rows, i).Some? {
      PerformKeepsLater(t, v, rows, i, i);
      HaltedCannotAct(t.system, Row(rows, Loaded(v.states, i)), v.states[i].value);
    }
    PerformStops(t, v, rows, i + 1, |v.states|);
  }

  lemma {:induction false} EmptyPerforms<S>(t: Task<S>, slots: nat, rows: seq<seq<real>>, n: nat)
    requires n <= slots
    ensures Perform(t, Start(slots), rows, n) == Some(Start(slots))
  {
    if n > 0 {
      EmptyPerforms(t, slots, rows, n - 1);
    }
  }

  lemma {:induction false} EmptySkips<S>(t: Task<S>, slots: nat, n: nat)
    requires n <= slots
    ensures SkipAllFinal(t, Start(slots), n) == Start(slots)
  {
    if n > 0 {
      EmptySkips(t, slots, n - 1);
    }
  }

  /** The first call loads the first sentences of the corpus. */
  lemma FirstCallLoads<S>(t: Task<S>, slots: nat, rows: seq<seq<real>>)
    ensures var v := Next(t, Start(slots), rows);
            v == Some(Refill(t, Start(slots), slots)) && Begun(t, v.value, slots, [])
  {
    EmptyPerforms(t, slots, rows, slots);
    EmptySkips(t, slots, slots);
    RefillBegins(t, Start(slots), slots);
  }

  lemma {:induction false} RunStops<S>(t: Task<S>, slots: nat, inputs: seq<seq<seq<real>>>, n: nat)
    requires n <= |inputs| && Run(t, slots, inputs[..n]).None?
    ensures Run(t, slots, inputs).None?
    decreases |inputs|
  {
    if n == |inputs| {
      assert inputs[..n] == inputs;
    } else {
      var before := inputs[..|inputs| - 1];
      assert before[..n] == inputs[..n];
      RunStops(t, slots, before, n);
    }
  }

  lemma RunOnce<S>(t: Task<S>, slots: nat, a: seq<seq<real>>)
    requires Next(t, Start(slots), a).Some?
    ensures Run(t, slots, [a]) == Some(History(Next(t, Start(slots), a).value, Output(t, Start(slots), a)))
  {
    var none: seq<seq<seq<real>>> := [];
    RunNothing(t, slots, none);
    RunOneMore(t, slots, none, a);
    assert none + [a] == [a] && [] + Output(t, Start(slots), a) == Output(t, Start(slots), a);
  }

  lemma RunNothing<S>(t: Task<S>, slots: nat, none: seq<seq<seq<real>>>)
    requires none == []
    ensures Run(t, slots, none) == Some(History(Start(slots), []))
  {
  }

  lemma SecondCallFails<S>(t: Task<S>, slots: nat, a: seq<seq<real>>, b: seq<seq<real>>, v: View<S>)
    requires Next(t, Start(slots), a) == Some(v) && Next(t, v, b).None?
    ensures Run(t, slots, [a, b]).None?
  {
    RunOnce(t, slots, a);
    RunOneMore(t, slots, [a], b);
    assert [a] + [b] == [a, b];
  }

  lemma FirstCallLoadsFinished<S>(t: Task<S>, slots: nat, a: seq<seq<real>>, p: nat) returns (v: View<S>)
    requires p < slots && p < |t.corpus| && t.system.isFinal(t.init(t.corpus[p]))
    ensures Next(t, Start(slots), a) == Some(v) && p < |v.states| && Finished(t, v, p)
  {
    FirstCallLoads(t, slots, a);
    v := Next(t, Start(slots), a).value;
    assert v.states[p] == Some(t.init(t.corpus[p]));
  }

  /** If one of the sentences loaded first is finished from the start, every run fails at its second call. */
  lemma FirstSentencesMustBeginUnfinished<S(!new)>(t: Task<S>, slots: nat, inputs: seq<seq<seq<real>>>, p: nat)
    requires Halts(t.system) && p < slots && p < |t.corpus| && t.system.isFinal(t.init(t.corpus[p])) && |inputs| >= 2
    ensures Run(t, slots, inputs).None?
  {
    var v := FirstCallLoadsFinished(t, slots, inputs[0], p);
    FinishedSlotFails(t, v, inputs[1], p);
    SecondCallFails(t, slots, inputs[0], inputs[1], v);
    assert inputs[..2] == [inputs[0], inputs[1]];
    RunStops(t, slots, inputs, 2);
  }

  // ----- Decoding short sentences with the arc-standard system -----

  /** A sentence without annotation. */
  function Unannotated(n: nat): Gold {
    Gold(seq(n, _ => -1), seq(n, _ => ""), map[ROOT_LABEL := 0])
  }

  function InitialParse(s: Sentence): Parse {
    ParseState(Unannotated(|s.tokens|), ArcStandard.Init(Unannotated(|s.tokens|)))
  }

  function Decoding(corpus: seq<Sentence>): Task<Parse> {
    Task(Transitions(), InitialParse, corpus)
  }

  /** The parse of a single token before its shift, before its right arc, and at its end. */
  const READY: Parse := ParseState(Gold([-1], [""], map[ROOT_LABEL := 0]), Config(0, [-1], [-1], [0]))
  const SHIFTED: Parse := READY.(config := Config(1, [-1, 0], [-1], [0]))
  const PARSED: Parse := READY.(config := Config(1, [-1], [-1], [0]))

  /** Scores for a shift and the arcs of one label. */
  const ROW: seq<real> := [0.0, 0.0, 0.0]

  lemma SingleTokenStarts(s: Sentence)
    requires |s.tokens| == 1
    ensures InitialParse(s) == READY
  {
    assert Unannotated(1).heads == [-1] && Unannotated(1).labels == [""];
    assert ArcStandard.Init(Unannotated(1)).head == [-1] && ArcStandard.Init(Unannotated(1)).arcLabel == [0];
  }

  lemma NoTokenIsFinished(s: Sentence)
    requires s.tokens == []
    ensures ArcStandard.IsFinal(InitialParse(s).config)
  {
  }

  lemma ReadyShifts()
    ensures Act(Transitions(), ROW, READY) == Some(SHIFTED)
  {
    var t := Transitions();
    assert Best(t, ROW, READY, 0) == -1;
    assert Best(t, ROW, READY, 1) == 0;
    assert Best(t, ROW, READY, 2) == 0;
    assert ArcStandard.Step(READY.config, 0) == SHIFTED.config;
  }

  lemma ShiftedParses()
    ensures Act(Transitions(), ROW, SHIFTED) == Some(PARSED)
  {
    var t := Transitions();
    assert Best(t, ROW, SHIFTED, 0) == -1;
    assert Best(t, ROW, SHIFTED, 1) == -1;
    assert Best(t, ROW, SHIFTED, 2) == -1;
    assert Best(t, ROW, SHIFTED, 3) == 2;
    assert ArcStandard.Step(SHIFTED.config, 2) == PARSED.config;
  }

  // ----- Calls one after the other -----

  /** A call gives the next reader and an output. */
  predicate Gives<S(==)>(t: Task<S>, v: View<S>, rows: seq<seq<real>>, w: View<S>, out: seq<Doc<S>>) {
    Shaped(t, v) && Next(t, v, rows) == Some(w) && Output(t, v, rows) == out
  }

  /** Some calls lead to a reader that has given back the documents. */
  ghost predicate Comes<S>(t: Task<S>, slots: nat, v: View<S>, out: seq<Doc<S>>) {
    exists inputs :: Run(t, slots, inputs) == Some(History(v, out))
  }

  lemma ComesToStart<S>(t: Task<S>, slots: nat)
    ensures Comes(t, slots, Start(slots), [])
  {
    RunNothing(t, slots, []);
  }

  lemma OneMoreCall<S>(t: Task<S>, slots: nat, v: View<S>, out: seq<Doc<S>>, rows: seq<seq<real>>, w: View<S>,
                       more: seq<Doc<S>>)
    requires Comes(t, slots, v, out) && Gives(t, v, rows, w, more)
    ensures Comes(t, slots, w, out + more)
  {
    var inputs :| Run(t, slots, inputs) == Some(History(v, out));
    RunOneMore(t, slots, inputs, rows);
  }

  /** A call that gives back nothing. */
  lemma OneSilentCall<S>(t: Task<S>, slots: nat, v: View<S>, out: seq<Doc<S>>, rows: seq<seq<real>>, w: View<S>)
    requires Comes(t, slots, v, out) && Gives(t, v, rows, w, [])
    ensures Comes(t, slots, w, out)
  {
    OneMoreCall(t, slots, v, out, rows, w, []);
    assert out + [] == out;
  }

  /** A call of a reader with one slot, step by step. */
  lemma OneSlotCall<S>(t: Task<S>, v: View<S>, rows: seq<seq<real>>, w: View<S>, x: View<S>)
    requires Shaped(t, v) && |v.states| == 1 && Perform(t, v, rows, 1) == Some(w)
    requires SkipFinal(t, w, 0) == x
    ensures x.batch.size != 0 ==>
              Next(t, v, rows) == Some(Emit(x)) && Output(t, v, rows) == Drain(x.docids, x.parses).out
    ensures x.batch.size == 0 ==>
              var y := LoadNext(t, x.(batch := x.batch.(position := 0), epochs := x.epochs + 1), 0);
              Next(t, v, rows) == Some(Emit(y)) && Output(t, v, rows) == Drain(y.docids, y.parses).out
  {
    assert SkipAllFinal(t, w, 1) == SkipFinal(t, SkipAllFinal(t, w, 0), 0);
    if x.batch.size == 0 {
      assert Refill(t, x, 1) == LoadNext(t, Refill(t, x, 0), 0);
    }
  }

  const ROWS: seq<seq<real>> := [ROW]

  lemma OneSlotActs<S>(t: Task<S>, v: View<S>, x: S, y: S)
    requires Shaped(t, v) && v.states == [Some(x)] && Act(t.system, ROW, x) == Some(y)
    ensures Perform(t, v, ROWS, 1) == Some(PutState(t, v, 0, y))
  {
    assert Perform(t, v, ROWS, 0) == Some(v);
    assert Row(ROWS, Loaded(v.states, 0)) == ROW;
  }

  /** A call that shifts the token in the one slot and emits nothing. */
  lemma OneSlotShifts(t: Task<Parse>, v: View<Parse>)
    requires t.system == Transitions() && Shaped(t, v) && v.states == [Some(READY)] && v.batch.size != 0
    requires v.docids != [] && v.docids[|v.docids| - 1] !in v.parses
    ensures Gives(t, v, ROWS, v.(states := [Some(SHIFTED)]), [])
  {
    ReadyShifts();
    OneSlotActs(t, v, READY, SHIFTED);
    var w := v.(states := [Some(SHIFTED)]);
    assert PutState(t, v, 0, SHIFTED) == w;
    OneSlotCall(t, v, ROWS, w, w);
  }

  // ----- A sentence that is finished from the start -----

  const A := Sentence("a", ["x"])
  const B := Sentence("b", [])
  const C := Sentence("c", ["z"])

  function Blocked(): Task<Parse> {
    Decoding([A, B, C])
  }

  const BLOCKED1: View<Parse> := View(Batch(1, [Some(A)], 1), [Some(READY)], ["a"], map[], 1)

  lemma BlockedFirstCall()
    ensures Gives(Blocked(), Start(1), [], BLOCKED1, [])
  {
    var t, v: View<Parse> := Blocked(), Start(1);
    assert v == View(Batch(0, [None], 0), [None], [], map[], 0);
    assert Perform(t, v, [], 1) == Some(v) by {
      assert Perform(t, v, [], 0) == Some(v);
    }
    OneSlotCall(t, v, [], v, v);
    SingleTokenStarts(A);
    assert LoadNext(t, v.(batch := v.batch.(position := 0), epochs := 1), 0) == BLOCKED1;
  }

  const BLOCKED2: View<Parse> := BLOCKED1.(states := [Some(SHIFTED)])
  const BLOCKED3: View<Parse> := View(Batch(3, [Some(C)], 1), [Some(READY)], ["c", "b"], map[], 1)

  /** The reader after the parse of A has been filed and B has been passed over. */
  const PASSED: View<Parse> :=
    View(Batch(3, [Some(C)], 1), [Some(READY)], ["c", "b", "a"], map["a" := Doc(A, PARSED)], 1)

  lemma BlockedPasses(t: Task<Parse>, w: View<Parse>)
    requires t == Blocked()
    requires w == View(Batch(1, [Some(A)], 1), [Some(PARSED)], ["a"], map["a" := Doc(A, PARSED)], 1)
    ensures SkipFinal(t, w, 0) == PASSED
  {
    var y := View(Batch(2, [Some(B)], 1), [Some(InitialParse(B))], ["b", "a"], map["a" := Doc(A, PARSED)], 1);
    assert LoadNext(t, w, 0) == y;
    NoTokenIsFinished(B);
    SingleTokenStarts(C);
    assert LoadNext(t, y, 0) == PASSED;
    assert SkipFinal(t, y, 0) == PASSED;
  }

  /** The third call emits the first sentence and passes over the second one. */
  lemma BlockedThirdCall()
    ensures Gives(Blocked(), BLOCKED2, ROWS, BLOCKED3, [Doc(A, PARSED)])
  {
    var t, v, x := Blocked(), BLOCKED2, PASSED;
    ShiftedParses();
    OneSlotActs(t, v, SHIFTED, PARSED);
    var w := PutState(t, v, 0, PARSED);
    BlockedPasses(t, w);
    OneSlotCall(t, v, ROWS, w, x);
    assert x.docids[..2] == ["c", "b"] && x.parses - {"a"} == map[];
    assert Drain(["c", "b"], BLOCKED3.parses).out == [];
  }

  const BLOCKED4: View<Parse> := BLOCKED3.(states := [Some(SHIFTED)])
  const BLOCKED5: View<Parse> :=
    View(Batch(1, [Some(A)], 1), [Some(READY)], ["a", "c", "b"], map["c" := Doc(C, PARSED)], 2)

  /** The reader after the parse of C has been filed and no sentence is left. */
  const ENDED: View<Parse> := View(Batch(3, [None], 0), [None], ["c", "b"], map["c" := Doc(C, PARSED)], 1)

  lemma BlockedEnds(t: Task<Parse>, w: View<Parse>)
    requires t == Blocked()
    requires w == View(Batch(3, [Some(C)], 1), [Some(PARSED)], ["c", "b"], map["c" := Doc(C, PARSED)], 1)
    ensures SkipFinal(t, w, 0) == ENDED
    ensures LoadNext(t, ENDED.(batch := ENDED.batch.(position := 0), epochs := 2), 0) == BLOCKED5
  {
    assert LoadNext(t, w, 0) == ENDED;
    SingleTokenStarts(A);
  }

  /** The fifth call finishes the epoch and emits nothing, since the second sentence holds up the queue. */
  lemma BlockedFifthCall()
    ensures Gives(Blocked(), BLOCKED4, ROWS, BLOCKED5, [])
  {
    var t, v := Blocked(), BLOCKED4;
    ShiftedParses();
    OneSlotActs(t, v, SHIFTED, PARSED);
    var w := PutState(t, v, 0, PARSED);
    BlockedEnds(t, w);
    OneSlotCall(t, v, ROWS, w, ENDED);
  }

  lemma BlockedBegins(t: Task<Parse>)
    requires t == Blocked()
    ensures Comes(t, 1, BLOCKED2, [])
  {
    ComesToStart(t, 1);
    BlockedFirstCall();
    OneSilentCall(t, 1, Start(1), [], [], BLOCKED1);
    OneSlotShifts(t, BLOCKED1);
    OneSilentCall(t, 1, BLOCKED1, [], ROWS, BLOCKED2);
  }

  lemma BlockedGoesOn(t: Task<Parse>)
    requires t == Blocked()
    ensures Comes(t, 1, BLOCKED3, [Doc(A, PARSED)])
  {
    BlockedBegins(t);
    BlockedThirdCall();
    OneMoreCall(t, 1, BLOCKED2, [], ROWS, BLOCKED3, [Doc(A, PARSED)]);
    assert [] + [Doc(A, PARSED)] == [Doc(A, PARSED)];
  }

  lemma BlockedRun(t: Task<Parse>)
    requires t == Blocked()
    ensures Comes(t, 1, BLOCKED5, [Doc(A, PARSED)])
  {
    BlockedGoesOn(t);
    OneSlotShifts(t, BLOCKED3);
    OneSilentCall(t, 1, BLOCKED3, [Doc(A, PARSED)], ROWS, BLOCKED4);
    BlockedFifthCall();
    OneSilentCall(t, 1, BLOCKED4, [Doc(A, PARSED)], ROWS, BLOCKED5);
  }

  /** An epoch over a corpus with an empty sentence ends with only the sentences before it emitted. */
  lemma FinishedStartBlocksQueue() returns (t: Task<Parse>, inputs: seq<seq<seq<real>>>, h: History<Parse>)
    ensures t == Decoding([A, B, C]) && Halts(t.system) && DistinctIds(t.corpus) && Run(t, 1, inputs) == Some(h)
    ensures h.reader.epochs == 2 && h.emitted == [Doc(A, PARSED)] && h.reader.docids == ["a", "c", "b"]
    ensures !Complete(t, h)
  {
    t, h := Blocked(), History(BLOCKED5, [Doc(A, PARSED)]);
    BlockedRun(t);
    inputs :| Run(t, 1, inputs) == Some(h);
    ArcStandardHalts();
    BlockedIsNotComplete(t, h);
  }

  lemma BlockedIsNotComplete(t: Task<Parse>, h: History<Parse>)
    requires t.corpus == [A, B, C] && h.reader.epochs == 2 && |h.emitted| == 1
    ensures DistinctIds(t.corpus) && !Complete(t, h)
  {
    RoundsAreLong(t.corpus, 1);
  }

  // ----- Repeated ids -----

  const D := Sentence("d", ["x"])
  const E := Sentence("d", ["y"])

  function Repeated(): Task<Parse> {
    Decoding([D, E])
  }

  const TWOROWS: seq<seq<real>> := [ROW, ROW]

  const REPEATED1: View<Parse> :=
    View(Batch(2, [Some(D), Some(E)], 2), [Some(READY), Some(READY)], ["d", "d"], map[], 1)
  const REPEATED2: View<Parse> := REPEATED1.(states := [Some(SHIFTED), Some(SHIFTED)])
  const REPEATED3: View<Parse> := REPEATED1.(docids := ["d", "d", "d"], epochs := 2)

  lemma RepeatedFirstCall()
    ensures Gives(Repeated(), Start(2), [], REPEATED1, [])
  {
    var t, v: View<Parse> := Repeated(), Start(2);
    FirstCallLoads(t, 2, []);
    SingleTokenStarts(D);
    SingleTokenStarts(E);
    assert v == View(Batch(0, [None, None], 0), [None, None], [], map[], 0);
    var x, y, w := Refill(t, v, 0), Refill(t, v, 1), Refill(t, v, 2);
    assert x == v.(epochs := 1);
    assert y == LoadNext(t, x, 0) && w == LoadNext(t, y, 1);
    assert w == REPEATED1;
  }

  /** Both slots act alike. */
  lemma TwoSlotsAct<S>(t: Task<S>, v: View<S>, x: S, y: S)
    requires Shaped(t, v) && v.states == [Some(x), Some(x)] && Act(t.system, ROW, x) == Some(y)
    ensures Perform(t, v, TWOROWS, 2) == Some(PutState(t, PutState(t, v, 0, y), 1, y))
  {
    assert Perform(t, v, TWOROWS, 0) == Some(v);
    assert Loaded(v.states, 0) == 0 && Loaded(v.states, 1) == 1;
    assert Perform(t, v, TWOROWS, 1) == Some(PutState(t, v, 0, y));
  }

  lemma RepeatedSecondCall()
    ensures Gives(Repeated(), REPEATED1, TWOROWS, REPEATED2, [])
  {
    var t, v, w := Repeated(), REPEATED1, REPEATED2;
    ReadyShifts();
    TwoSlotsAct(t, v, READY, SHIFTED);
    assert PutState(t, PutState(t, v, 0, SHIFTED), 1, SHIFTED) == w;
    assert SkipAllFinal(t, w, 0) == w;
    assert SkipAllFinal(t, w, 1) == w;
    assert SkipAllFinal(t, w, 2) == w;
  }

  /** Both sentences finish in one call, and the second parse takes the place of the first. */
  const BOTH: View<Parse> := REPEATED1.(states := [Some(PARSED), Some(PARSED)], parses := map["d" := Doc(E, PARSED)])

  lemma RepeatedActs(t: Task<Parse>)
    requires t == Repeated()
    ensures Perform(t, REPEATED2, TWOROWS, 2) == Some(BOTH)
  {
    ShiftedParses();
    TwoSlotsAct(t, REPEATED2, SHIFTED, PARSED);
    var w := PutState(t, REPEATED2, 0, PARSED);
    assert w == REPEATED2.(states := [Some(PARSED), Some(SHIFTED)], parses := map["d" := Doc(D, PARSED)]);
    assert PutState(t, w, 1, PARSED) == BOTH;
  }

  /** Both slots find the corpus at its end. */
  lemma RepeatedEnds(t: Task<Parse>, w: View<Parse>)
    requires t == Repeated() && w == BOTH
    ensures SkipAllFinal(t, w, 2) == w.(batch := Batch(2, [None, None], 0), states := [None, None])
  {
    var x := w.(batch := Batch(2, [None, Some(E)], 1), states := [None, Some(PARSED)]);
    assert LoadNext(t, w, 0) == x && SkipFinal(t, x, 0) == x && SkipFinal(t, w, 0) == x;
    assert SkipAllFinal(t, w, 1) == SkipFinal(t, SkipAllFinal(t, w, 0), 0);
    var y := w.(batch := Batch(2, [None, None], 0), states := [None, None]);
    assert LoadNext(t, x, 1) == y && SkipFinal(t, y, 1) == y && SkipFinal(t, x, 1) == y;
  }

  lemma RepeatedReloads(t: Task<Parse>, y: View<Parse>)
    requires t == Repeated()
    requires y == View(Batch(2, [None, None], 0), [None, None], ["d", "d"], map["d" := Doc(E, PARSED)], 1)
    ensures Refill(t, y, 2) == REPEATED3.(docids := ["d", "d", "d", "d"], parses := map["d" := Doc(E, PARSED)])
  {
    SingleTokenStarts(D);
    SingleTokenStarts(E);
    var x := Refill(t, y, 0);
    assert x == y.(batch := Batch(0, [None, None], 0), epochs := 2);
    assert Refill(t, y, 1) == LoadNext(t, x, 0);
  }

  lemma RepeatedThirdCall(t: Task<Parse>)
    requires t == Repeated()
    ensures Gives(t, REPEATED2, TWOROWS, REPEATED3, [Doc(E, PARSED)])
  {
    RepeatedActs(t);
    RepeatedEnds(t, BOTH);
    var y := SkipAllFinal(t, BOTH, 2);
    RepeatedReloads(t, y);
    var z := Refill(t, y, 2);
    assert z.docids[..3] == ["d", "d", "d"] && z.parses - {"d"} == map[];
    assert Drain(["d", "d", "d"], REPEATED3.parses).out == [];
  }

  lemma RepeatedRun(t: Task<Parse>)
    requires t == Repeated()
    ensures Comes(t, 2, REPEATED3, [Doc(E, PARSED)])
  {
    ComesToStart(t, 2);
    RepeatedFirstCall();
    OneSilentCall(t, 2, Start(2), [], [], REPEATED1);
    RepeatedSecondCall();
    OneSilentCall(t, 2, REPEATED1, [], TWOROWS, REPEATED2);
    RepeatedThirdCall(t);
    OneMoreCall(t, 2, REPEATED2, [], TWOROWS, REPEATED3, [Doc(E, PARSED)]);
    assert [] + [Doc(E, PARSED)] == [Doc(E, PARSED)];
  }

  /** With a repeated id, one parse is lost and given back in the place of the other: although no sentence
      is finished from the start, the epoch is not complete. */
  lemma RepeatedIdLosesParse() returns (t: Task<Parse>, inputs: seq<seq<seq<real>>>, h: History<Parse>)
    ensures t == Decoding([D, E]) && Halts(t.system) && AllBeginUnfinished(t) && !DistinctIds(t.corpus)
    ensures Run(t, 2, inputs) == Some(h) && h.reader.epochs == 2 && h.emitted == [Doc(E, PARSED)] && !Complete(t, h)
  {
    t, h := Repeated(), History(REPEATED3, [Doc(E, PARSED)]);
    RepeatedRun(t);
    inputs :| Run(t, 2, inputs) == Some(h);
    ArcStandardHalts();
    RepeatedIsNotComplete(t, h);
  }

  lemma RepeatedIsNotComplete(t: Task<Parse>, h: History<Parse>)
    requires t == Decoding([D, E]) && h.reader.epochs == 2 && |h.emitted| == 1
    ensures AllBeginUnfinished(t) && !DistinctIds(t.corpus) && !Complete(t, h)
  {
    SingleTokenStarts(D);
    SingleTokenStarts(E);
    RoundsAreLong(t.corpus, 1);
    assert !Differ(t.corpus[0], t.corpus[1]);
  }
}
