/** What holds of the decoding reader over every run: order, origin and completeness of what it emits. */
module ReaderRuns {
  import opened Wrappers
  import opened TransitionSystems
  import opened DecodedReader

  /** No action can be performed on a final state. */
  ghost predicate Halts<S(!new)>(system: System<S>) {
    forall s, a: nat :: system.isFinal(s) ==> !system.canPerform(s, a)
  }

  // ----- Where states come from -----

  /** The state after decoding a sentence with the given rows of scores; final states are left alone. */
  function Decode<S>(t: Task<S>, s: Sentence, rows: seq<seq<real>>): Option<S> {
    if rows == [] then Some(t.init(s))
    else
      var x := Decode(t, s, rows[..|rows| - 1]);
      if x.None? || t.system.isFinal(x.value) then None else Act(t.system, rows[|rows| - 1], x.value)
  }

  ghost predicate Reached<S>(t: Task<S>, s: Sentence, x: S) {
    exists rows :: Decode(t, s, rows) == Some(x)
  }

  /** The parse is the final state that decoding the sentence, not finished from the start, ends in. */
  ghost predicate IsParse<S>(t: Task<S>, d: Doc<S>) {
    Reached(t, d.sentence, d.parse) && t.system.isFinal(d.parse) && !t.system.isFinal(t.init(d.sentence))
  }

  lemma StartIsReached<S>(t: Task<S>, s: Sentence)
    ensures Reached(t, s, t.init(s))
  {
    assert Decode(t, s, []) == Some(t.init(s));
  }

  lemma {:induction false} FinalStartStays<S>(t: Task<S>, s: Sentence, rows: seq<seq<real>>)
    requires t.system.isFinal(t.init(s)) && rows != []
    ensures Decode(t, s, rows).None?
    decreases |rows|
  {
    if |rows| > 1 {
      FinalStartStays(t, s, rows[..|rows| - 1]);
    }
  }

  lemma DecodeOneMore<S>(t: Task<S>, s: Sentence, rows: seq<seq<real>>, x: S, row: seq<real>)
    requires Decode(t, s, rows) == Some(x) && !t.system.isFinal(x)
    ensures Decode(t, s, rows + [row]) == Act(t.system, row, x)
  {
    assert (rows + [row])[..|rows|] == rows;
  }

  lemma ActReaches<S>(t: Task<S>, s: Sentence, x: S, row: seq<real>)
    requires Reached(t, s, x) && !t.system.isFinal(x) && Act(t.system, row, x).Some?
    ensures Reached(t, s, Act(t.system, row, x).value) && !t.system.isFinal(t.init(s))
  {
    var rows :| Decode(t, s, rows) == Some(x);
    DecodeOneMore(t, s, rows, x, row);
    if t.system.isFinal(t.init(s)) {
      FinalStartStays(t, s, rows + [row]);
    }
  }

  // ----- Slots and filed parses -----

  lemma {:induction false} LoadedUpdate<T>(slots: seq<Option<T>>, i: nat, s: Option<T>, n: nat)
    requires i < |slots| && n <= |slots|
    ensures var change := (if s.Some? then 1 else 0) - (if slots[i].Some? then 1 else 0);
            Loaded(slots[i := s], n) == Loaded(slots, n) + if i < n then change else 0
  {
    if n > 0 {
      LoadedUpdate(slots, i, s, n - 1);
    }
  }

  /** A slot is empty, or holds a sentence of the corpus with a state that decoding it has reached. */
  ghost predicate SlotHolds<S>(t: Task<S>, s: Option<Sentence>, x: Option<S>) {
    if x.None? then s.None? else s.Some? && s.value in t.corpus && Reached(t, s.value, x.value)
  }

  /** All slots hold what they should, and the running size counts the loaded ones. */
  ghost predicate Loads<S>(t: Task<S>, v: View<S>) {
    && Shaped(t, v) && v.batch.size == Loaded(v.batch.sentences, |v.batch.sentences|)
    && forall i {:trigger SlotHolds(t, v.batch.sentences[i], v.states[i])} :: 0 <= i < |v.states| ==>
         SlotHolds(t, v.batch.sentences[i], v.states[i])
  }

  ghost predicate FiledUnder<S>(t: Task<S>, id: string, d: Doc<S>) {
    d.sentence.docid == id && d.sentence in t.corpus && IsParse(t, d)
  }

  /** Every parse that is filed is one of a sentence with that id. */
  ghost predicate Files<S>(t: Task<S>, parses: map<string, Doc<S>>) {
    forall id {:trigger id in parses} :: id in parses ==> FiledUnder(t, id, parses[id])
  }

  lemma PutKeeps<S>(t: Task<S>, v: View<S>, i: nat, row: seq<real>)
    requires Loads(t, v) && Files(t, v.parses) && i < |v.states| && v.states[i].Some?
    requires !t.system.isFinal(v.states[i].value)
    requires Act(t.system, row, v.states[i].value).Some?
    ensures var w := PutState(t, v, i, Act(t.system, row, v.states[i].value).value); Loads(t, w) && Files(t, w.parses)
  {
    var x := Act(t.system, row, v.states[i].value).value;
    var w := PutState(t, v, i, x);
    assert SlotHolds(t, v.batch.sentences[i], v.states[i]);
    ActReaches(t, v.batch.sentences[i].value, v.states[i].value, row);
    forall k | 0 <= k < |w.states| ensures SlotHolds(t, w.batch.sentences[k], w.states[k]) {
      if k != i {
        assert SlotHolds(t, v.batch.sentences[k], v.states[k]);
      }
    }
  }

  /** Acting only changes states and files parses of sentences that were not finished from the start. */
  lemma {:induction false} PerformKeeps<S(!new)>(t: Task<S>, v: View<S>, rows: seq<seq<real>>, n: nat)
    requires Halts(t.system) && Loads(t, v) && Files(t, v.parses) && n <= |v.states| && Perform(t, v, rows, n).Some?
    ensures var w := Perform(t, v, rows, n).value;
            Loads(t, w) && Files(t, w.parses) && w.docids == v.docids && w.epochs == v.epochs
  {
    if n > 0 {
      var w, x := PerformStep(t, v, rows, n);
      PerformKeeps(t, v, rows, n - 1);
      if w.states[n - 1].Some? {
        PutKeeps(t, w, n - 1, Row(rows, Loaded(v.states, n - 1)));
      }
    }
  }

  lemma LoadKeeps<S>(t: Task<S>, v: View<S>, i: nat)
    requires Loads(t, v) && i < |v.states|
    ensures Loads(t, LoadNext(t, v, i))
  {
    var w := LoadNext(t, v, i);
    LoadedUpdate(v.batch.sentences, i, w.batch.sentences[i], |v.batch.sentences|);
    assert SlotHolds(t, v.batch.sentences[i], v.states[i]);
    if v.batch.position < |t.corpus| {
      StartIsReached(t, t.corpus[v.batch.position]);
    }
    forall k | 0 <= k < |w.states| ensures SlotHolds(t, w.batch.sentences[k], w.states[k]) {
      if k != i {
        assert SlotHolds(t, v.batch.sentences[k], v.states[k]);
      }
    }
  }

  // ----- Order -----

  /** The sentences read in k rounds over the corpus. */
  function Rounds(corpus: seq<Sentence>, k: nat): seq<Sentence> {
    if k == 0 then [] else Rounds(corpus, k - 1) + corpus
  }

  /** The sentences read once the given epoch has got to position p. */
  function ReadUpTo(corpus: seq<Sentence>, epoch: nat, p: nat): seq<Sentence>
    requires p <= |corpus|
  {
    if epoch == 0 then corpus[..p] else Rounds(corpus, epoch - 1) + corpus[..p]
  }

  function Read<S>(t: Task<S>, v: View<S>): seq<Sentence>
    requires Shaped(t, v)
  {
    ReadUpTo(t.corpus, v.epochs, v.batch.position)
  }

  /** What was emitted and then what is queued has the ids of what was read, in order. */
  predicate InOrder<S>(read: seq<Sentence>, emitted: seq<Doc<S>>, docids: seq<string>) {
    && |emitted| + |docids| == |read|
    && (forall i {:trigger emitted[i]} :: 0 <= i < |emitted| ==> emitted[i].sentence.docid == read[i].docid)
    && forall j {:trigger docids[j]} :: 0 <= j < |docids| ==> docids[j] == read[|read| - 1 - j].docid
  }

  lemma ReadOneMore<S>(read: seq<Sentence>, emitted: seq<Doc<S>>, docids: seq<string>, s: Sentence)
    requires InOrder(read, emitted, docids)
    ensures InOrder(read + [s], emitted, [s.docid] + docids)
  {
  }

  lemma EmitOneMore<S>(read: seq<Sentence>, emitted: seq<Doc<S>>, docids: seq<string>, d: Doc<S>)
    requires InOrder(read, emitted, docids) && docids != [] && d.sentence.docid == docids[|docids| - 1]
    ensures InOrder(read, emitted + [d], docids[..|docids| - 1])
  {
  }

  lemma {:induction false} DrainInOrder<S>(t: Task<S>, read: seq<Sentence>, emitted: seq<Doc<S>>, docids: seq<string>,
                                           parses: map<string, Doc<S>>)
    requires InOrder(read, emitted, docids) && Files(t, parses)
    ensures var d := Drain(docids, parses); InOrder(read, emitted + d.out, d.docids)
    decreases |docids|
  {
    var n := |docids|;
    if n == 0 || docids[n - 1] !in parses {
      assert emitted + [] == emitted;
    } else {
      var id := docids[n - 1];
      assert FiledUnder(t, id, parses[id]);
      EmitOneMore(read, emitted, docids, parses[id]);
      DrainInOrder(t, read, emitted + [parses[id]], docids[..n - 1], parses - {id});
      Associate(emitted, [parses[id]], Drain(docids[..n - 1], parses - {id}).out);
    }
  }

  lemma Associate<T>(a: seq<T>, b: seq<T>, c: seq<T>)
    ensures a + (b + c) == a + b + c
  {
  }

  lemma {:induction false} DrainFiles<S>(t: Task<S>, docids: seq<string>, parses: map<string, Doc<S>>)
    requires Files(t, parses)
    ensures var d := Drain(docids, parses);
            Files(t, d.parses) && forall x :: x in d.out ==> FiledUnder(t, x.sentence.docid, x)
    decreases |docids|
  {
    var n := |docids|;
    if n > 0 && docids[n - 1] in parses {
      DrainFiles(t, docids[..n - 1], parses - {docids[n - 1]});
    }
  }

  /** Slots are empty only where the corpus has ended. */
  predicate EmptyAtEnd<S>(t: Task<S>, v: View<S>) {
    if v.epochs == 0 then v.batch.position == 0 && forall i :: 0 <= i < |v.states| ==> v.states[i].None?
    else forall i :: 0 <= i < |v.states| && v.states[i].None? ==> v.batch.position == |t.corpus|
  }

  /** What every call keeps. */
  ghost predicate Steady<S>(t: Task<S>, v: View<S>, emitted: seq<Doc<S>>) {
    && Loads(t, v) && Files(t, v.parses) && EmptyAtEnd(t, v) && InOrder(Read(t, v), emitted, v.docids)
    && forall d :: d in emitted ==> FiledUnder(t, d.sentence.docid, d)
  }

  lemma LoadReads<S>(t: Task<S>, v: View<S>, i: nat, emitted: seq<Doc<S>>)
    requires Shaped(t, v) && i < |v.states| && InOrder(Read(t, v), emitted, v.docids)
    ensures InOrder(Read(t, LoadNext(t, v, i)), emitted, LoadNext(t, v, i).docids)
  {
    var p := v.batch.position;
    if p < |t.corpus| {
      ReadOneMore(Read(t, v), emitted, v.docids, t.corpus[p]);
      assert t.corpus[..p + 1] == t.corpus[..p] + [t.corpus[p]];
      assert Read(t, LoadNext(t, v, i)) == Read(t, v) + [t.corpus[p]];
    }
  }

  lemma {:induction false} SkipKeeps<S>(t: Task<S>, v: View<S>, i: nat, emitted: seq<Doc<S>>)
    requires Steady(t, v, emitted) && i < |v.states|
    ensures Steady(t, SkipFinal(t, v, i), emitted)
    decreases |t.corpus| - v.batch.position, if v.states[i].Some? then 1 else 0
  {
    if Finished(t, v, i) {
      LoadKeeps(t, v, i);
      LoadReads(t, v, i, emitted);
      SkipKeeps(t, LoadNext(t, v, i), i, emitted);
    }
  }

  lemma {:induction false} SkipAllKeeps<S>(t: Task<S>, v: View<S>, n: nat, emitted: seq<Doc<S>>)
    requires Steady(t, v, emitted) && n <= |v.states|
    ensures Steady(t, SkipAllFinal(t, v, n), emitted)
  {
    if n > 0 {
      SkipAllKeeps(t, v, n - 1, emitted);
      SkipKeeps(t, SkipAllFinal(t, v, n - 1), n - 1, emitted);
    }
  }

  lemma EpochTurns(corpus: seq<Sentence>, epoch: nat)
    ensures ReadUpTo(corpus, epoch, if epoch == 0 then 0 else |corpus|) == ReadUpTo(corpus, epoch + 1, 0)
  {
    assert corpus[..|corpus|] == corpus && corpus[..0] == [];
  }

  lemma {:induction false} LoadedBelow<T>(slots: seq<Option<T>>, i: nat, n: nat)
    requires i < n <= |slots| && slots[i].Some?
    ensures Loaded(slots, n) > 0
    decreases n
  {
    if i < n - 1 {
      LoadedBelow(slots, i, n - 1);
    }
  }

  /** The batch has size 0 only if no slot is loaded. */
  lemma SizeZero<S>(t: Task<S>, v: View<S>)
    requires Loads(t, v) && v.batch.size == 0
    ensures forall i :: 0 <= i < |v.states| ==> v.states[i].None? && v.batch.sentences[i].None?
  {
    forall i | 0 <= i < |v.states| ensures v.states[i].None? && v.batch.sentences[i].None? {
      assert SlotHolds(t, v.batch.sentences[i], v.states[i]);
      if v.batch.sentences[i].Some? {
        LoadedBelow(v.batch.sentences, i, |v.batch.sentences|);
      }
    }
  }

  lemma RewindKeeps<S>(t: Task<S>, v: View<S>, emitted: seq<Doc<S>>)
    requires Steady(t, v, emitted) && v.batch.size == 0 && |v.states| > 0
    ensures var w := Refill(t, v, 0); Loads(t, w) && InOrder(Read(t, w), emitted, w.docids)
  {
    SizeZero(t, v);
    assert v.states[0].None?;
    EpochTurns(t.corpus, v.epochs);
    var w := Refill(t, v, 0);
    forall i | 0 <= i < |w.states| ensures SlotHolds(t, w.batch.sentences[i], w.states[i]) {
      assert SlotHolds(t, v.batch.sentences[i], v.states[i]);
    }
  }

  lemma {:induction false} RefillLoads<S>(t: Task<S>, v: View<S>, n: nat)
    requires Shaped(t, v) && Loads(t, Refill(t, v, 0)) && n <= |v.states|
    ensures Loads(t, Refill(t, v, n)) && Refill(t, v, n).parses == v.parses && Refill(t, v, n).epochs == v.epochs + 1
  {
    if n > 0 {
      RefillLoads(t, v, n - 1);
      LoadKeeps(t, Refill(t, v, n - 1), n - 1);
    }
  }

  lemma {:induction false} RefillReads<S>(t: Task<S>, v: View<S>, n: nat, emitted: seq<Doc<S>>)
    requires Shaped(t, v) && n <= |v.states| && InOrder(Read(t, Refill(t, v, 0)), emitted, Refill(t, v, 0).docids)
    ensures InOrder(Read(t, Refill(t, v, n)), emitted, Refill(t, v, n).docids)
  {
    if n > 0 {
      RefillReads(t, v, n - 1, emitted);
      LoadReads(t, Refill(t, v, n - 1), n - 1, emitted);
    }
  }

  lemma {:induction false} RefillFills<S>(t: Task<S>, v: View<S>, n: nat)
    requires Shaped(t, v) && n <= |v.states|
    ensures forall i {:trigger Refill(t, v, n).states[i]} :: 0 <= i < n && Refill(t, v, n).states[i].None? ==>
              Refill(t, v, n).batch.position == |t.corpus|
  {
    if n > 0 {
      RefillFills(t, v, n - 1);
      var w, x := Refill(t, v, n - 1), Refill(t, v, n);
      assert forall i :: 0 <= i < n - 1 ==> x.states[i] == w.states[i];
    }
  }

  lemma ReloadKeeps<S>(t: Task<S>, v: View<S>, emitted: seq<Doc<S>>)
    requires Steady(t, v, emitted) && |v.states| > 0
    ensures Steady(t, Reload(t, v), emitted)
  {
    SkipAllKeeps(t, v, |v.states|, emitted);
    var w := SkipAllFinal(t, v, |v.states|);
    if w.batch.size == 0 {
      RewindKeeps(t, w, emitted);
      RefillLoads(t, w, |w.states|);
      RefillReads(t, w, |w.states|, emitted);
      RefillFills(t, w, |w.states|);
    }
  }

  lemma PerformIsSteady<S(!new)>(t: Task<S>, v: View<S>, rows: seq<seq<real>>, emitted: seq<Doc<S>>)
    requires Halts(t.system) && Steady(t, v, emitted) && Perform(t, v, rows, |v.states|).Some?
    ensures Steady(t, Perform(t, v, rows, |v.states|).value, emitted)
  {
    PerformKeeps(t, v, rows, |v.states|);
    var w := Perform(t, v, rows, |v.states|).value;
    forall i | 0 <= i < |v.states| ensures w.states[i].None? <==> v.states[i].None? {
      assert SlotHolds(t, v.batch.sentences[i], v.states[i]) && SlotHolds(t, w.batch.sentences[i], w.states[i]);
    }
  }

  /** Every call keeps the slots, the filed parses and the order. */
  lemma NextKeeps<S(!new)>(t: Task<S>, v: View<S>, rows: seq<seq<real>>, emitted: seq<Doc<S>>)
    requires Halts(t.system) && Steady(t, v, emitted) && |v.states| > 0 && Next(t, v, rows).Some?
    ensures Steady(t, Next(t, v, rows).value, emitted + Output(t, v, rows))
  {
    PerformIsSteady(t, v, rows, emitted);
    var w := Perform(t, v, rows, |v.states|).value;
    ReloadKeeps(t, w, emitted);
    var x := Reload(t, w);
    DrainInOrder(t, Read(t, x), emitted, x.docids, x.parses);
    DrainFiles(t, x.docids, x.parses);
    forall i | 0 <= i < |x.states| ensures SlotHolds(t, Emit(x).batch.sentences[i], Emit(x).states[i]) {
      assert SlotHolds(t, x.batch.sentences[i], x.states[i]);
    }
  }

  lemma {:induction false} NoneLoaded(n: nat, k: nat)
    requires k <= n
    ensures Loaded(seq<Option<Sentence>>(n, _ => None), k) == 0
  {
    if k > 0 {
      NoneLoaded(n, k - 1);
    }
  }

  lemma StartIsSteady<S>(t: Task<S>, slots: nat)
    ensures Steady(t, Start(slots), [])
  {
    NoneLoaded(slots, slots);
    assert Start<S>(slots).batch.sentences == seq(slots, _ => None);
  }

  /** In every run, whatever the corpus and the scores: the running size counts the loaded slots, slots hold
      states that decoding their own sentence has reached, filed and emitted parses are where decoding a
      sentence that was not finished from the start ends, and what was emitted and then what is queued has
      the ids of what was read, in reading order. */
  lemma {:induction false} EveryRunIsSteady<S(!new)>(t: Task<S>, slots: nat, inputs: seq<seq<seq<real>>>)
    requires Halts(t.system) && slots > 0 && Run(t, slots, inputs).Some?
    ensures var h := Run(t, slots, inputs).value; Steady(t, h.reader, h.emitted)
    decreases |inputs|
  {
    if inputs == [] {
      StartIsSteady(t, slots);
    } else {
      var n := |inputs| - 1;
      EveryRunIsSteady(t, slots, inputs[..n]);
      var h := Run(t, slots, inputs[..n]).value;
      NextKeeps(t, h.reader, inputs[n], h.emitted);
    }
  }
}
