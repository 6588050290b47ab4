/** The reader that decodes a batch of sentences and gives back their parses in reading order. */
module DecodedReader {
  import opened Wrappers
  import opened TransitionSystems

  datatype Sentence = Sentence(docid: string, tokens: seq<string>)

  /** A sentence with the parse found for it. */
  datatype Doc<S> = Doc(sentence: Sentence, parse: S)

  /** What is read, and how it is parsed. */
  datatype Task<!S> = Task(system: System<S>, init: Sentence -> S, corpus: seq<Sentence>)

  /** The fields of a batch of sentences: the reading position, the slots and the running size. */
  datatype Batch = Batch(position: nat, sentences: seq<Option<Sentence>>, size: int)

  /** The fields of a reader. The queue of ids has its oldest element at its back. */
  datatype View<S> = View(batch: Batch, states: seq<Option<S>>, docids: seq<string>, parses: map<string, Doc<S>>,
                          epochs: nat)

  predicate Shaped<S>(t: Task<S>, v: View<S>) {
    |v.states| == |v.batch.sentences| && v.batch.position <= |t.corpus|
  }

  // ----- Acting on the scores -----

  /** The first of the best allowed actions among the first n, or -1. */
  function Best<S>(system: System<S>, row: seq<real>, state: S, n: nat): (b: int)
    requires n <= |row|
    ensures -1 <= b < n
  {
    if n == 0 then -1
    else
      var b := Best(system, row, state, n - 1);
      if system.isAllowed(state, n - 1) && (b == -1 || row[n - 1] > row[b]) then n - 1 else b
  }

  /** An allowed action that no other allowed one beats and that comes before all it ties with. */
  predicate IsFirstBest<S>(system: System<S>, row: seq<real>, state: S, n: nat, b: int)
    requires n <= |row|
  {
    && 0 <= b < n && system.isAllowed(state, b)
    && forall a :: 0 <= a < n && system.isAllowed(state, a) ==> row[a] < row[b] || (row[a] == row[b] && b <= a)
  }

  lemma {:induction false} BestIsFirstBest<S>(system: System<S>, row: seq<real>, state: S, n: nat)
    requires n <= |row|
    ensures var b := Best(system, row, state, n);
            if b == -1 then forall a :: 0 <= a < n ==> !system.isAllowed(state, a)
            else IsFirstBest(system, row, state, n, b)
  {
    if n > 0 {
      BestIsFirstBest(system, row, state, n - 1);
    }
  }

  /** The state after the best action, which is action 0 if none is allowed, or none if a check fails. */
  function Act<S>(system: System<S>, row: seq<real>, state: S): Option<S> {
    var b := Best(system, row, state, |row|);
    var action := if b == -1 then 0 else b;
    if system.canPerform(state, action) then Some(system.perform(state, action)) else None
  }

  /** How many of the first n slots are loaded. */
  function Loaded<T>(slots: seq<Option<T>>, n: nat): nat
    requires n <= |slots|
  {
    if n == 0 then 0 else Loaded(slots, n - 1) + if slots[n - 1].Some? then 1 else 0
  }

  function Row(rows: seq<seq<real>>, i: nat): seq<real> {
    if i < |rows| then rows[i] else []
  }

  /** Slot i moves on to a state, and the parse is filed under its id if that is final. */
  function PutState<S>(t: Task<S>, v: View<S>, i: nat, x: S): (w: View<S>)
    requires Shaped(t, v) && i < |v.states|
    ensures Shaped(t, w) && |w.states| == |v.states| && w.batch == v.batch
  {
    var w := v.(states := v.states[i := Some(x)]);
    if t.system.isFinal(x) && v.batch.sentences[i].Some? then
      var s := v.batch.sentences[i].value;
      w.(parses := v.parses[s.docid := Doc(s, x)])
    else w
  }

  /** Every loaded slot among the first n takes its best action by its own row of scores. */
  function Perform<S>(t: Task<S>, v: View<S>, rows: seq<seq<real>>, n: nat): (r: Option<View<S>>)
    requires Shaped(t, v) && n <= |v.states|
    ensures r.Some? ==> Shaped(t, r.value) && |r.value.states| == |v.states| && r.value.batch == v.batch
  {
    if n == 0 then Some(v)
    else
      var w := Perform(t, v, rows, n - 1);
      if w.None? || w.value.states[n - 1].None? then w
      else
        var x := Act(t.system, Row(rows, Loaded(v.states, n - 1)), w.value.states[n - 1].value);
        if x.None? then None else Some(PutState(t, w.value, n - 1, x.value))
  }

  /** A failed check ends the call. */
  lemma {:induction false} PerformStops<S>(t: Task<S>, v: View<S>, rows: seq<seq<real>>, n: nat, m: nat)
    requires Shaped(t, v) && n <= m <= |v.states| && Perform(t, v, rows, n).None?
    ensures Perform(t, v, rows, m).None?
  {
    if n < m {
      PerformStops(t, v, rows, n, m - 1);
    }
  }

  /** Slots further on have not moved yet. */
  lemma {:induction false} PerformKeepsLater<S>(t: Task<S>, v: View<S>, rows: seq<seq<real>>, n: nat, k: nat)
    requires Shaped(t, v) && n <= k < |v.states| && Perform(t, v, rows, n).Some?
    ensures Perform(t, v, rows, n).value.states[k] == v.states[k]
  {
    if n > 0 {
      PerformKeepsLater(t, v, rows, n - 1, k);
    }
  }

  /** What the last slot does to an action of n slots. */
  lemma PerformStep<S>(t: Task<S>, v: View<S>, rows: seq<seq<real>>, n: nat) returns (w: View<S>, x: Option<S>)
    requires Shaped(t, v) && 0 < n <= |v.states| && Perform(t, v, rows, n).Some?
    ensures Perform(t, v, rows, n - 1) == Some(w) && Shaped(t, w) && |w.states| == |v.states|
    ensures w.states[n - 1].None? ==> Perform(t, v, rows, n) == Some(w)
    ensures w.states[n - 1].Some? ==>
              && Act(t.system, Row(rows, Loaded(v.states, n - 1)), w.states[n - 1].value) == x && x.Some?
              && Perform(t, v, rows, n) == Some(PutState(t, w, n - 1, x.value))
  {
    w, x := Perform(t, v, rows, n - 1).value, None;
    if w.states[n - 1].Some? {
      x := Act(t.system, Row(rows, Loaded(v.states, n - 1)), w.states[n - 1].value);
    }
  }

  // ----- What acting does to the slots -----

  /** The first best allowed action of a row, or action 0 if none is allowed. */
  predicate Chosen<S>(system: System<S>, row: seq<real>, state: S, b: int) {
    if exists a :: 0 <= a < |row| && system.isAllowed(state, a) then IsFirstBest(system, row, state, |row|, b)
    else b == 0
  }

  function LoadedBefore<T>(slots: seq<Option<T>>, i: nat): set<nat>
    requires i <= |slots|
  {
    set j: nat | j < i && slots[j].Some?
  }

  /** A loaded slot takes action b: the rows of scores are those of the loaded slots, in their order. */
  ghost predicate Takes<S>(t: Task<S>, v: View<S>, rows: seq<seq<real>>, i: nat, b: int)
    requires i < |v.states|
  {
    && v.states[i].Some?
    && var k := |LoadedBefore(v.states, i)|;
    if k < |rows| then Chosen(t.system, rows[k], v.states[i].value, b) else b == 0
  }

  /** Slot i becomes x: it is empty still, or it has taken its action. */
  ghost predicate BecomesIn<S>(t: Task<S>, v: View<S>, rows: seq<seq<real>>, i: nat, x: Option<S>)
    requires i < |v.states|
  {
    if v.states[i].None? then x.None?
    else exists b :: Takes(t, v, rows, i, b) && t.system.canPerform(v.states[i].value, b) &&
                     x == Some(t.system.perform(v.states[i].value, b))
  }

  ghost predicate FailsIn<S>(t: Task<S>, v: View<S>, rows: seq<seq<real>>, i: nat)
    requires i < |v.states|
  {
    v.states[i].Some? && exists b :: Takes(t, v, rows, i, b) && !t.system.canPerform(v.states[i].value, b)
  }

  lemma {:induction false} LoadedCounts<T>(slots: seq<Option<T>>, i: nat)
    requires i <= |slots|
    ensures Loaded(slots, i) == |LoadedBefore(slots, i)|
  {
    if i > 0 {
      LoadedCounts(slots, i - 1);
      var before := LoadedBefore(slots, i - 1);
      assert LoadedBefore(slots, i) == if slots[i - 1].Some? then before + {i - 1} else before;
    }
  }

  /** The action that a loaded slot takes. */
  lemma ActTakes<S>(t: Task<S>, v: View<S>, rows: seq<seq<real>>, i: nat) returns (b: int)
    requires i < |v.states| && v.states[i].Some?
    ensures Takes(t, v, rows, i, b)
    ensures Act(t.system, Row(rows, Loaded(v.states, i)), v.states[i].value) ==
            if t.system.canPerform(v.states[i].value, b) then Some(t.system.perform(v.states[i].value, b)) else None
  {
    var row := Row(rows, Loaded(v.states, i));
    LoadedCounts(v.states, i);
    BestIsFirstBest(t.system, row, v.states[i].value, |row|);
    b := Best(t.system, row, v.states[i].value, |row|);
    b := if b == -1 then 0 else b;
  }

  /** Each loaded slot takes the best action of its own row. */
  lemma {:induction false} PerformTakes<S>(t: Task<S>, v: View<S>, rows: seq<seq<real>>, n: nat, i: nat)
    requires Shaped(t, v) && i < n <= |v.states| && Perform(t, v, rows, n).Some?
    ensures BecomesIn(t, v, rows, i, Perform(t, v, rows, n).value.states[i])
  {
    var w, x := PerformStep(t, v, rows, n);
    if i < n - 1 {
      PerformTakes(t, v, rows, n - 1, i);
    } else {
      PerformKeepsLater(t, v, rows, i, i);
      if v.states[i].Some? {
        var b := ActTakes(t, v, rows, i);
      }
    }
  }

  /** Acting fails only where an action fails a check. */
  lemma {:induction false} PerformFails<S>(t: Task<S>, v: View<S>, rows: seq<seq<real>>, n: nat) returns (i: nat)
    requires Shaped(t, v) && n <= |v.states| && Perform(t, v, rows, n).None?
    ensures i < n && FailsIn(t, v, rows, i)
  {
    i := n - 1;
    if Perform(t, v, rows, i).None? {
      i := PerformFails(t, v, rows, i);
    } else {
      PerformKeepsLater(t, v, rows, i, i);
      var b := ActTakes(t, v, rows, i);
    }
  }

  /** Acting has brought slot i, whose sentence has that id, to a final state. */
  predicate Finishes<S>(t: Task<S>, v: View<S>, w: View<S>, i: nat, id: string)
    requires Shaped(t, v) && i < |v.states| == |w.states|
  {
    && v.states[i].Some? && v.batch.sentences[i].Some? && v.batch.sentences[i].value.docid == id
    && w.states[i].Some? && t.system.isFinal(w.states[i].value)
  }

  /** Slot i is the last of the first n that finished with the id, and its state is filed under it. */
  ghost predicate FiledFrom<S>(t: Task<S>, v: View<S>, w: View<S>, n: nat, id: string, i: nat)
    requires Shaped(t, v) && i < n <= |v.states| == |w.states|
  {
    && Finishes(t, v, w, i, id) && (forall j: nat :: i < j < n ==> !Finishes(t, v, w, j, id))
    && id in w.parses && w.parses[id] == Doc(v.batch.sentences[i].value, w.states[i].value)
  }

  predicate SameUnder<S(==)>(v: View<S>, w: View<S>, id: string) {
    (id in w.parses <==> id in v.parses) && (id in v.parses ==> w.parses[id] == v.parses[id])
  }

  /** What is filed under an id is from the last of the first n slots that finished with it, or as before. */
  ghost predicate FiledAs<S>(t: Task<S>, v: View<S>, w: View<S>, n: nat, id: string)
    requires Shaped(t, v) && n <= |v.states| == |w.states|
  {
    || (exists i: nat :: i < n && FiledFrom(t, v, w, n, id, i))
    || ((forall i: nat :: i < n ==> !Finishes(t, v, w, i, id)) && SameUnder(v, w, id))
  }

  lemma FiledOneMore<S>(t: Task<S>, v: View<S>, u: View<S>, w: View<S>, n: nat, id: string)
    requires Shaped(t, v) && n < |v.states| == |u.states| == |w.states| && FiledAs(t, v, u, n, id)
    requires forall i :: 0 <= i < n ==> w.states[i] == u.states[i]
    requires if Finishes(t, v, w, n, id)
             then id in w.parses && w.parses[id] == Doc(v.batch.sentences[n].value, w.states[n].value)
             else SameUnder(u, w, id)
    ensures FiledAs(t, v, w, n + 1, id)
  {
    assert forall i: nat :: i < n ==> (Finishes(t, v, w, i, id) <==> Finishes(t, v, u, i, id));
    if Finishes(t, v, w, n, id) {
      assert FiledFrom(t, v, w, n + 1, id, n);
    } else if exists i: nat :: i < n && FiledFrom(t, v, u, n, id, i) {
      var i: nat :| i < n && FiledFrom(t, v, u, n, id, i);
      assert FiledFrom(t, v, w, n + 1, id, i);
    }
  }

  lemma {:induction false} PerformFiles<S>(t: Task<S>, v: View<S>, rows: seq<seq<real>>, n: nat, id: string)
    requires Shaped(t, v) && n <= |v.states| && Perform(t, v, rows, n).Some?
    ensures FiledAs(t, v, Perform(t, v, rows, n).value, n, id)
  {
    if n > 0 {
      var u, x := PerformStep(t, v, rows, n);
      PerformFiles(t, v, rows, n - 1, id);
      PerformKeepsLater(t, v, rows, n - 1, n - 1);
      FiledOneMore(t, v, u, Perform(t, v, rows, n).value, n - 1, id);
    }
  }

  /** Every loaded slot has taken its action, and the states that are final now are filed. */
  ghost predicate Acted<S>(t: Task<S>, v: View<S>, rows: seq<seq<real>>, w: View<S>)
    requires Shaped(t, v)
  {
    && |w.states| == |v.states| && (forall i: nat :: i < |v.states| ==> BecomesIn(t, v, rows, i, w.states[i]))
    && forall id :: FiledAs(t, v, w, |v.states|, id)
  }

  /** The action of some loaded slot fails a check. */
  ghost predicate SomeFails<S>(t: Task<S>, v: View<S>, rows: seq<seq<real>>) {
    exists i: nat :: i < |v.states| && FailsIn(t, v, rows, i)
  }

  lemma PerformActs<S>(t: Task<S>, v: View<S>, rows: seq<seq<real>>)
    requires Shaped(t, v)
    ensures var w := Perform(t, v, rows, |v.states|);
            if w.Some? then Acted(t, v, rows, w.value) else SomeFails(t, v, rows)
  {
    if Perform(t, v, rows, |v.states|).None? {
      var i := PerformFails(t, v, rows, |v.states|);
    } else {
      forall i: nat | i < |v.states| ensures BecomesIn(t, v, rows, i, Perform(t, v, rows, |v.states|).value.states[i]) {
        PerformTakes(t, v, rows, |v.states|, i);
      }
      forall id ensures FiledAs(t, v, Perform(t, v, rows, |v.states|).value, |v.states|, id) {
        PerformFiles(t, v, rows, |v.states|, id);
      }
    }
  }

  // ----- Moving on to new sentences -----

  /** Puts the next sentence into a slot, or empties the slot if there is none. */
  function NextSentence(corpus: seq<Sentence>, b: Batch, i: nat): Batch
    requires i < |b.sentences| && b.position <= |corpus|
  {
    var size := if b.sentences[i].None? then b.size + 1 else b.size;
    if b.position == |corpus| then Batch(b.position, b.sentences[i := None], size - 1)
    else Batch(b.position + 1, b.sentences[i := Some(corpus[b.position])], size)
  }

  /** Loads the next sentence into a slot and puts its id in front of the queue. */
  function LoadNext<S>(t: Task<S>, v: View<S>, i: nat): (w: View<S>)
    requires Shaped(t, v) && i < |v.states|
    ensures Shaped(t, w) && |w.states| == |v.states|
  {
    var b := NextSentence(t.corpus, v.batch, i);
    if v.batch.position == |t.corpus| then v.(batch := b, states := v.states[i := None])
    else
      var s := t.corpus[v.batch.position];
      v.(batch := b, states := v.states[i := Some(t.init(s))], docids := [s.docid] + v.docids)
  }

  predicate Finished<S>(t: Task<S>, v: View<S>, i: nat)
    requires i < |v.states|
  {
    v.states[i].Some? && t.system.isFinal(v.states[i].value)
  }

  /** Moves a slot on while its state is final. */
  function SkipFinal<S>(t: Task<S>, v: View<S>, i: nat): (w: View<S>)
    requires Shaped(t, v) && i < |v.states|
    ensures Shaped(t, w) && |w.states| == |v.states|
    decreases |t.corpus| - v.batch.position, if v.states[i].Some? then 1 else 0
  {
    if Finished(t, v, i) then SkipFinal(t, LoadNext(t, v, i), i) else v
  }

  function SkipAllFinal<S>(t: Task<S>, v: View<S>, n: nat): (w: View<S>)
    requires Shaped(t, v) && n <= |v.states|
    ensures Shaped(t, w) && |w.states| == |v.states|
  {
    if n == 0 then v else SkipFinal(t, SkipAllFinal(t, v, n - 1), n - 1)
  }

  /** Slot i takes the sentences p up to q from the corpus: none if it is not finished; otherwise all that are finished
      from the start and the first one that is not, which it holds then, or all that are left. */
  predicate TakesSentences<S(==)>(t: Task<S>, v: View<S>, w: View<S>, i: nat, p: nat, q: nat)
    requires Shaped(t, v) && Shaped(t, w) && i < |v.states| == |w.states|
  {
    if !Finished(t, v, i) then q == p && w.states[i] == v.states[i] && w.batch.sentences[i] == v.batch.sentences[i]
    else
      && p <= q <= |t.corpus| && (forall k :: p <= k < q - 1 ==> t.system.isFinal(t.init(t.corpus[k])))
      && if q > p && !t.system.isFinal(t.init(t.corpus[q - 1]))
         then w.states[i] == Some(t.init(t.corpus[q - 1])) && w.batch.sentences[i] == Some(t.corpus[q - 1])
         else q == |t.corpus| && w.states[i] == None && w.batch.sentences[i] == None
  }

  /** The ids of the sentences p up to q have come in front of the queue, the latest first. */
  predicate QueuesIds<S>(t: Task<S>, v: View<S>, w: View<S>, p: nat, q: nat) {
    && p <= q <= |t.corpus| && |w.docids| == |v.docids| + (q - p) && w.docids[q - p..] == v.docids
    && forall k :: 0 <= k < q - p ==> w.docids[k] == t.corpus[q - 1 - k].docid
  }

  predicate SameSlot<S(==)>(t: Task<S>, v: View<S>, w: View<S>, i: nat)
    requires Shaped(t, v) && Shaped(t, w) && i < |v.states| == |w.states|
  {
    w.states[i] == v.states[i] && w.batch.sentences[i] == v.batch.sentences[i]
  }

  lemma QueuesMore<S>(t: Task<S>, v: View<S>, u: View<S>, w: View<S>, p: nat, q: nat, r: nat)
    requires QueuesIds(t, v, u, p, q) && QueuesIds(t, u, w, q, r)
    ensures QueuesIds(t, v, w, p, r)
  {
    forall k | 0 <= k < r - p ensures w.docids[k] == t.corpus[r - 1 - k].docid {
      if k >= r - q {
        assert w.docids[k] == w.docids[r - q..][k - (r - q)];
      }
    }
    assert w.docids[r - p..] == w.docids[r - q..][q - p..];
  }

  lemma LoadNextQueues<S>(t: Task<S>, v: View<S>, i: nat, w: View<S>)
    requires Shaped(t, v) && i < |v.states| && w == LoadNext(t, v, i)
    ensures QueuesIds(t, v, w, v.batch.position, w.batch.position)
  {
  }

  lemma LoadNextKeeps<S>(t: Task<S>, v: View<S>, i: nat, w: View<S>, j: nat)
    requires Shaped(t, v) && i < |v.states| && w == LoadNext(t, v, i) && j < |v.states| && j != i
    ensures SameSlot(t, v, w, j)
  {
  }

  lemma {:induction false} SkipFinalQueues<S>(t: Task<S>, v: View<S>, i: nat)
    requires Shaped(t, v) && i < |v.states|
    ensures var w := SkipFinal(t, v, i);
            QueuesIds(t, v, w, v.batch.position, w.batch.position) && w.parses == v.parses && w.epochs == v.epochs
    decreases |t.corpus| - v.batch.position, if v.states[i].Some? then 1 else 0
  {
    if Finished(t, v, i) {
      var u, w := LoadNext(t, v, i), SkipFinal(t, v, i);
      LoadNextQueues(t, v, i, u);
      SkipFinalQueues(t, u, i);
      QueuesMore(t, v, u, w, v.batch.position, u.batch.position, w.batch.position);
    } else {
      assert v.docids[0..] == v.docids;
    }
  }

  /** A slot that has moved on once goes on from there. */
  lemma TakesAfterLoad<S>(t: Task<S>, v: View<S>, w: View<S>, i: nat)
    requires Shaped(t, v) && Shaped(t, w) && i < |v.states| == |w.states| && Finished(t, v, i)
    requires var u := LoadNext(t, v, i); TakesSentences(t, u, w, i, u.batch.position, w.batch.position)
    ensures TakesSentences(t, v, w, i, v.batch.position, w.batch.position)
  {
  }

  lemma {:induction false} SkipFinalTakes<S>(t: Task<S>, v: View<S>, i: nat)
    requires Shaped(t, v) && i < |v.states|
    ensures TakesSentences(t, v, SkipFinal(t, v, i), i, v.batch.position, SkipFinal(t, v, i).batch.position)
    decreases |t.corpus| - v.batch.position, if v.states[i].Some? then 1 else 0
  {
    if Finished(t, v, i) {
      SkipFinalTakes(t, LoadNext(t, v, i), i);
      TakesAfterLoad(t, v, SkipFinal(t, v, i), i);
    }
  }

  lemma {:induction false} SkipFinalKeeps<S>(t: Task<S>, v: View<S>, i: nat, j: nat)
    requires Shaped(t, v) && i < |v.states| && j < |v.states| && j != i
    ensures SameSlot(t, v, SkipFinal(t, v, i), j)
    decreases |t.corpus| - v.batch.position, if v.states[i].Some? then 1 else 0
  {
    if Finished(t, v, i) {
      LoadNextKeeps(t, v, i, LoadNext(t, v, i), j);
      SkipFinalKeeps(t, LoadNext(t, v, i), i, j);
    }
  }

  /** The slots take their sentences one slot after the other: marks[i] is where slot i begins to read. */
  ghost predicate TakesInOrder<S>(t: Task<S>, v: View<S>, w: View<S>, marks: seq<nat>, n: nat)
    requires Shaped(t, v) && Shaped(t, w) && n <= |v.states| == |w.states|
  {
    && |marks| == n + 1 && marks[0] == v.batch.position && marks[n] == w.batch.position
    && (forall i: nat :: i < n ==> TakesSentences(t, v, w, i, marks[i], marks[i + 1]))
    && (forall i: nat :: n <= i < |v.states| ==> SameSlot(t, v, w, i))
    && QueuesIds(t, v, w, marks[0], marks[n]) && w.parses == v.parses && w.epochs == v.epochs
  }

  /** Finished slots move on to new sentences in the order of the slots and of the corpus. */
  lemma {:induction false} SkipAllTakes<S>(t: Task<S>, v: View<S>, n: nat) returns (marks: seq<nat>)
    requires Shaped(t, v) && n <= |v.states|
    ensures TakesInOrder(t, v, SkipAllFinal(t, v, n), marks, n)
  {
    if n == 0 {
      marks := [v.batch.position];
      TakesNothing(t, v);
    } else {
      var u := SkipAllFinal(t, v, n - 1);
      marks := SkipAllTakes(t, v, n - 1);
      SkipFinalTakes(t, u, n - 1);
      SkipFinalQueues(t, u, n - 1);
      var w := SkipFinal(t, u, n - 1);
      forall j: nat | j < |v.states| && j != n - 1 ensures SameSlot(t, u, w, j) {
        SkipFinalKeeps(t, u, n - 1, j);
      }
      TakesOneMore(t, v, u, w, marks, n);
      marks := marks + [w.batch.position];
    }
  }

  lemma TakesNothing<S>(t: Task<S>, v: View<S>)
    requires Shaped(t, v)
    ensures TakesInOrder(t, v, v, [v.batch.position], 0)
  {
    assert v.docids[0..] == v.docids;
  }

  lemma TakesOneMore<S>(t: Task<S>, v: View<S>, u: View<S>, w: View<S>, before: seq<nat>, n: nat)
    requires Shaped(t, v) && Shaped(t, u) && Shaped(t, w) && 0 < n <= |v.states| == |u.states| == |w.states|
    requires TakesInOrder(t, v, u, before, n - 1)
    requires TakesSentences(t, u, w, n - 1, u.batch.position, w.batch.position)
    requires QueuesIds(t, u, w, u.batch.position, w.batch.position) && w.parses == u.parses && w.epochs == u.epochs
    requires forall j: nat :: j < |v.states| && j != n - 1 ==> SameSlot(t, u, w, j)
    ensures TakesInOrder(t, v, w, before + [w.batch.position], n)
  {
    var marks := before + [w.batch.position];
    assert SameSlot(t, v, u, n - 1);
    forall i: nat | i < n ensures TakesSentences(t, v, w, i, marks[i], marks[i + 1]) {
      if i < n - 1 {
        assert TakesSentences(t, v, u, i, before[i], before[i + 1]) && SameSlot(t, u, w, i);
      }
    }
    forall i: nat | n <= i < |v.states| ensures SameSlot(t, v, w, i) {
      assert SameSlot(t, v, u, i) && SameSlot(t, u, w, i);
    }
    QueuesMore(t, v, u, w, before[0], u.batch.position, w.batch.position);
  }

  /** Rewinds the corpus for a new epoch and loads the first n slots. */
  function Refill<S>(t: Task<S>, v: View<S>, n: nat): (w: View<S>)
    requires Shaped(t, v) && n <= |v.states|
    ensures Shaped(t, w) && |w.states| == |v.states|
  {
    if n == 0 then v.(batch := v.batch.(position := 0), epochs := v.epochs + 1)
    else LoadNext(t, Refill(t, v, n - 1), n - 1)
  }

  // ----- Emitting -----

  /** What emitting gives, leaves in the queue and leaves filed. */
  datatype Drained<S> = Drained(out: seq<Doc<S>>, docids: seq<string>, parses: map<string, Doc<S>>)

  /** Takes the parses of the oldest ids out of the queue as long as they are filed. */
  function Drain<S>(docids: seq<string>, parses: map<string, Doc<S>>): Drained<S>
    decreases |docids|
  {
    var n := |docids|;
    if n == 0 || docids[n - 1] !in parses then Drained([], docids, parses)
    else
      var d := Drain(docids[..n - 1], parses - {docids[n - 1]});
      d.(out := [parses[docids[n - 1]]] + d.out)
  }

  lemma DrainOne<S>(docids: seq<string>, parses: map<string, Doc<S>>, out: seq<Doc<S>>)
    requires docids != [] && docids[|docids| - 1] in parses
    ensures var id := docids[|docids| - 1];
            var c, d := Drain(docids, parses), Drain(docids[..|docids| - 1], parses - {id});
            c.(out := out + c.out) == d.(out := out + [parses[id]] + d.out)
  {
    var id := docids[|docids| - 1];
    var d := Drain(docids[..|docids| - 1], parses - {id});
    assert out + ([parses[id]] + d.out) == out + [parses[id]] + d.out;
  }

  /** Emitting pops the longest filed stretch at the back of the queue, in which no id comes twice. */
  ghost predicate PopsFiled<S>(docids: seq<string>, parses: map<string, Doc<S>>, out: seq<Doc<S>>,
                               docids': seq<string>, parses': map<string, Doc<S>>) {
    && |docids'| + |out| == |docids| && docids' == docids[..|docids'|]
    && Popped(docids[|docids'|..], parses, out, parses')
    && (docids' == [] || docids'[|docids'| - 1] !in parses')
  }

  /** The parses of different ids, the last one first, are given out and no longer filed. */
  ghost predicate Popped<S>(ids: seq<string>, parses: map<string, Doc<S>>, out: seq<Doc<S>>,
                            parses': map<string, Doc<S>>) {
    && |out| == |ids| && (forall k :: 0 <= k < |ids| ==> ids[k] in parses && out[|ids| - 1 - k] == parses[ids[k]])
    && (forall j, k :: 0 <= j < k < |ids| ==> ids[j] != ids[k])
    && parses' == parses - (set id | id in ids)
  }

  lemma PoppedOneMore<S>(ids: seq<string>, id: string, parses: map<string, Doc<S>>, out: seq<Doc<S>>,
                         parses': map<string, Doc<S>>)
    requires id in parses && Popped(ids, parses - {id}, out, parses')
    ensures Popped(ids + [id], parses, [parses[id]] + out, parses')
  {
    var more, all := ids + [id], [parses[id]] + out;
    assert forall k :: 0 <= k < |ids| ==> ids[k] in parses - {id};
    forall k | 0 <= k < |more| ensures more[k] in parses && all[|more| - 1 - k] == parses[more[k]] {
      assert k < |ids| ==> all[|more| - 1 - k] == out[|ids| - 1 - k];
    }
    assert (set x | x in more) == {id} + (set x | x in ids);
    assert parses - {id} - (set x | x in ids) == parses - ({id} + (set x | x in ids));
  }

  lemma {:induction false} DrainPops<S>(docids: seq<string>, parses: map<string, Doc<S>>)
    ensures var d := Drain(docids, parses); PopsFiled(docids, parses, d.out, d.docids, d.parses)
    decreases |docids|
  {
    var n := |docids|;
    if n > 0 && docids[n - 1] in parses {
      var rest := Drain(docids[..n - 1], parses - {docids[n - 1]});
      DrainPops(docids[..n - 1], parses - {docids[n - 1]});
      PopsOneMore(docids, parses, rest.out, rest.docids, rest.parses);
    } else {
      assert docids[n..] == [];
    }
  }

  lemma PopsOneMore<S>(docids: seq<string>, parses: map<string, Doc<S>>, out: seq<Doc<S>>,
                       docids': seq<string>, parses': map<string, Doc<S>>)
    requires docids != [] && docids[|docids| - 1] in parses
    requires PopsFiled(docids[..|docids| - 1], parses - {docids[|docids| - 1]}, out, docids', parses')
    ensures PopsFiled(docids, parses, [parses[docids[|docids| - 1]]] + out, docids', parses')
  {
    var n, init := |docids|, docids[..|docids| - 1];
    PoppedOneMore(init[|docids'|..], docids[n - 1], parses, out, parses');
    assert docids[|docids'|..] == init[|docids'|..] + [docids[n - 1]] && init[..|docids'|] == docids[..|docids'|];
  }

  // ----- One call -----

  /** Moves finished slots on to new sentences and starts a new epoch if no slot is loaded any more. */
  function Reload<S>(t: Task<S>, v: View<S>): (w: View<S>)
    requires Shaped(t, v)
    ensures Shaped(t, w) && |w.states| == |v.states|
  {
    var w := SkipAllFinal(t, v, |v.states|);
    if w.batch.size == 0 then Refill(t, w, |w.states|) else w
  }

  function Emit<S>(v: View<S>): View<S> {
    var d := Drain(v.docids, v.parses);
    v.(docids := d.docids, parses := d.parses)
  }

  /** The reader after one call, or none if performing an action fails a check. */
  function Next<S>(t: Task<S>, v: View<S>, rows: seq<seq<real>>): (r: Option<View<S>>)
    requires Shaped(t, v)
    ensures r.Some? ==> Shaped(t, r.value) && |r.value.states| == |v.states|
  {
    var w := Perform(t, v, rows, |v.states|);
    if w.None? then None else Some(Emit(Reload(t, w.value)))
  }

  /** What a call that succeeds gives back. */
  function Output<S>(t: Task<S>, v: View<S>, rows: seq<seq<real>>): seq<Doc<S>>
    requires Shaped(t, v) && Next(t, v, rows).Some?
  {
    var w := Reload(t, Perform(t, v, rows, |v.states|).value);
    Drain(w.docids, w.parses).out
  }

  function Start<S>(slots: nat): View<S> {
    View(Batch(0, seq(slots, _ => None), 0), seq(slots, _ => None), [], map[], 0)
  }

  /** A reader and everything it has given back so far. */
  datatype History<S> = History(reader: View<S>, emitted: seq<Doc<S>>)

  /** The calls with the given scores, starting with an empty reader, as long as no check fails. */
  function Run<S>(t: Task<S>, slots: nat, inputs: seq<seq<seq<real>>>): (r: Option<History<S>>)
    ensures r.Some? ==> Shaped(t, r.value.reader) && |r.value.reader.states| == slots
  {
    if inputs == [] then Some(History(Start(slots), []))
    else
      var before := Run(t, slots, inputs[..|inputs| - 1]);
      if before.None? then None
      else
        var v, rows := before.value.reader, inputs[|inputs| - 1];
        if Next(t, v, rows).None? then None
        else Some(History(Next(t, v, rows).value, before.value.emitted + Output(t, v, rows)))
  }

  lemma RunOneMore<S>(t: Task<S>, slots: nat, inputs: seq<seq<seq<real>>>, rows: seq<seq<real>>)
    requires Run(t, slots, inputs).Some?
    ensures var h := Run(t, slots, inputs).value;
            Run(t, slots, inputs + [rows]) ==
              if Next(t, h.reader, rows).None? then None
              else Some(History(Next(t, h.reader, rows).value, h.emitted + Output(t, h.reader, rows)))
  {
    assert (inputs + [rows])[..|inputs|] == inputs;
  }

  // ----- The objects -----

  class SentenceBatch {
    const corpus: seq<Sentence>
    var position: nat
    var sentences: seq<Option<Sentence>>
    var size: int

    function View(): Batch
      reads this
    {
      Batch(position, sentences, size)
    }

    constructor (batchSize: nat, corpus: seq<Sentence>)
      ensures this.corpus == corpus && View() == Batch(0, seq(batchSize, _ => None), 0)
    {
      this.corpus, position, size := corpus, 0, 0;
      sentences := seq(batchSize, _ => None);
    }

    /** Puts the next sentence into a slot, or empties the slot if there is none. */
    method AdvanceSentence(index: nat) returns (ok: bool)
      requires index < |sentences| && position <= |corpus|
      modifies this
      ensures View() == NextSentence(corpus, old(View()), index) && ok == (old(position) < |corpus|)
    {
      if sentences[index].None? { size := size + 1; }
      sentences := sentences[index := None];
      if position == |corpus| {
        size := size - 1;
        return false;
      }
      sentences := sentences[index := Some(corpus[position])];
      position := position + 1;
      return true;
    }

    method Rewind()
      modifies this`position
      ensures position == 0
    {
      position := 0;
    }
  }

  class DecodedParseReader<!S> {
    const task: Task<S>
    const batch: SentenceBatch
    var states: seq<Option<S>>
    var docids: seq<string>
    var parses: map<string, Doc<S>>
    var epochs: nat
    /** The scores of all calls so far, and what they gave back. */
    ghost var inputs: seq<seq<seq<real>>>
    ghost var emitted: seq<Doc<S>>

    function Fields(): View<S>
      reads this, batch
    {
      View(batch.View(), states, docids, parses, epochs)
    }

    predicate Sized()
      reads this, batch
    {
      batch.corpus == task.corpus && Shaped(task, Fields())
    }

    /** The reader is what its calls have made of it. */
    ghost predicate Valid()
      reads this, batch
    {
      Sized() && Run(task, |states|, inputs) == Some(History(Fields(), emitted))
    }

    constructor (task: Task<S>, batchSize: nat)
      ensures Valid() && fresh(batch) && this.task == task && |states| == batchSize && inputs == []
    {
      this.task := task;
      batch := new SentenceBatch(batchSize, task.corpus);
      states, docids, parses, epochs := seq(batchSize, _ => None), [], map[], 0;
      inputs, emitted := [], [];
      new;
      assert states == Start<S>(batchSize).states && batch.sentences == Start<S>(batchSize).batch.sentences;
    }

    /** The allowed action with the highest score, the first of them if there are several, or 0. */
    method BestAction(row: seq<real>, state: S) returns (best: nat)
      ensures best == if Best(task.system, row, state, |row|) == -1 then 0 else Best(task.system, row, state, |row|)
      ensures (exists a :: 0 <= a < |row| && task.system.isAllowed(state, a)) ==>
                IsFirstBest(task.system, row, state, |row|, best)
    {
      best := 0;
      var found := false;
      for a := 0 to |row|
        invariant Best(task.system, row, state, a) == if found then best else -1
        invariant !found ==> best == 0
      {
        if (!found || row[a] > row[best]) && task.system.isAllowed(state, a) {
          best, found := a, true;
        }
      }
      BestIsFirstBest(task.system, row, state, |row|);
    }

    /** Performs the best action in a loaded slot and files its parse if this finishes it. */
    method PerformBest(row: seq<real>, i: nat) returns (ok: bool)
      requires Sized() && i < |states| && states[i].Some?
      modifies this`states, this`parses
      ensures ok <==> Act(task.system, row, old(states)[i].value).Some?
      ensures ok ==> Fields() == PutState(task, old(Fields()), i, Act(task.system, row, old(states)[i].value).value)
    {
      var state := states[i].value;
      var action := BestAction(row, state);
      ok := task.system.canPerform(state, action);
      if ok {
        state := task.system.perform(state, action);
        states := states[i := Some(state)];
        if task.system.isFinal(state) && batch.sentences[i].Some? {
          var sentence := batch.sentences[i].value;
          parses := parses[sentence.docid := Doc(sentence, state)];
        }
      }
    }

    /** Performs one action in every loaded slot, and tells whether no check failed. */
    method PerformActions(rows: seq<seq<real>>) returns (ok: bool)
      requires Sized()
      modifies this`states, this`parses
      ensures ok <==> Perform(task, old(Fields()), rows, |old(states)|).Some?
      ensures ok ==> Sized() && Some(Fields()) == Perform(task, old(Fields()), rows, |old(states)|)
      ensures ok ==> Acted(task, old(Fields()), rows, Fields())
      ensures !ok ==> SomeFails(task, old(Fields()), rows)
    {
      PerformActs(task, Fields(), rows);
      ok := PerformInSlots(rows);
    }

    method PerformInSlots(rows: seq<seq<real>>) returns (ok: bool)
      requires Sized()
      modifies this`states, this`parses
      ensures ok <==> Perform(task, old(Fields()), rows, |old(states)|).Some?
      ensures ok ==> Sized() && Some(Fields()) == Perform(task, old(Fields()), rows, |old(states)|)
    {
      ghost var before := Fields();
      var index := 0;
      ok := true;
      for i := 0 to |states|
        invariant Sized() && |states| == |before.states| && index == Loaded(before.states, i)
        invariant ok && Perform(task, before, rows, i) == Some(Fields())
      {
        ok, index := PerformInSlot(rows, index, i, before);
        if !ok {
          PerformStops(task, before, rows, i + 1, |before.states|);
          return;
        }
      }
    }

    /** Performs an action in slot i if it is loaded; the scores of loaded slots follow one another. */
    method PerformInSlot(rows: seq<seq<real>>, index: nat, i: nat, ghost before: View<S>) returns (ok: bool, next: nat)
      requires Sized() && Shaped(task, before) && i < |states| == |before.states| && index == Loaded(before.states, i)
      requires Perform(task, before, rows, i) == Some(Fields())
      modifies this`states, this`parses
      ensures ok ==> Sized() && |states| == |before.states| && next == Loaded(before.states, i + 1)
      ensures if ok then Perform(task, before, rows, i + 1) == Some(Fields())
              else Perform(task, before, rows, i + 1).None?
    {
      PerformKeepsLater(task, before, rows, i, i);
      ok, next := true, index;
      if states[i].Some? {
        ok := PerformBest(if index < |rows| then rows[index] else [], i);
        next := index + 1;
      }
    }

    /** Loads the next sentence into a slot and puts its id in front of the queue. */
    method AdvanceSentence(index: nat)
      requires Sized() && index < |states|
      modifies this`states, this`docids, batch
      ensures Sized() && Fields() == LoadNext(task, old(Fields()), index)
      ensures |states| == |old(states)| && forall i :: 0 <= i < |states| && i != index ==> states[i] == old(states)[i]
      ensures if old(batch.position) == |task.corpus| then states[index] == None && docids == old(docids)
              else var s := task.corpus[old(batch.position)];
                   states[index] == Some(task.init(s)) && docids == [s.docid] + old(docids)
    {
      states := states[index := None];
      var ok := batch.AdvanceSentence(index);
      if ok {
        states := states[index := Some(task.init(batch.sentences[index].value))];
        docids := [batch.sentences[index].value.docid] + docids;
      }
    }

    /** Moves every slot on while its state is final. */
    method SkipFinalStates()
      requires Sized()
      modifies this`states, this`docids, batch
      ensures Sized() && Fields() == SkipAllFinal(task, old(Fields()), |old(states)|)
    {
      ghost var before := Fields();
      for i := 0 to |states|
        invariant Sized() && |states| == |before.states| && Fields() == SkipAllFinal(task, before, i)
      {
        while states[i].Some? && task.system.isFinal(states[i].value)
          invariant Sized() && |states| == |before.states|
          invariant SkipFinal(task, Fields(), i) == SkipAllFinal(task, before, i + 1)
          decreases |task.corpus| - batch.position, if states[i].Some? then 1 else 0
        {
          AdvanceSentence(i);
        }
      }
    }

    /** Rewinds the corpus and loads every slot. */
    method StartEpoch()
      requires Sized()
      modifies this`states, this`docids, this`epochs, batch
      ensures Sized() && Fields() == Refill(task, old(Fields()), |old(states)|)
    {
      ghost var before := Fields();
      epochs := epochs + 1;
      batch.Rewind();
      for i := 0 to |states|
        invariant Sized() && |states| == |before.states| && Fields() == Refill(task, before, i)
      {
        AdvanceSentence(i);
      }
    }

    /** Emits parses from the back of the queue as long as they are filed. */
    method EmitReady() returns (out: seq<Doc<S>>)
      modifies this`docids, this`parses
      ensures Fields() == Emit(old(Fields())) && out == Drain(old(docids), old(parses)).out
      ensures PopsFiled(old(docids), old(parses), out, docids, parses)
    {
      DrainPops(docids, parses);
      out := EmitFiled();
    }

    method EmitFiled() returns (out: seq<Doc<S>>)
      modifies this`docids, this`parses
      ensures Fields() == Emit(old(Fields())) && out == Drain(old(docids), old(parses)).out
    {
      out := [];
      ghost var all := Drain(docids, parses);
      while docids != [] && docids[|docids| - 1] in parses
        invariant var d := Drain(docids, parses); all == d.(out := out + d.out)
        decreases |docids|
      {
        var id := docids[|docids| - 1];
        DrainOne(docids, parses, out);
        out := out + [parses[id]];
        parses := parses - {id};
        docids := docids[..|docids| - 1];
      }
      assert out + [] == out;
    }

    /** One call: acts on the scores of the loaded slots, moves finished slots on to new sentences, starts
        a new epoch if no slot is loaded any more, and emits what is ready. */
    method Compute(rows: seq<seq<real>>) returns (ok: bool, out: seq<Doc<S>>)
      requires Valid()
      modifies this, batch
      ensures ok <==> Next(task, old(Fields()), rows).Some?
      ensures ok ==> Valid() && inputs == old(inputs) + [rows] && emitted == old(emitted) + out
      ensures ok ==> Some(Fields()) == Next(task, old(Fields()), rows) && out == Output(task, old(Fields()), rows)
    {
      out := [];
      ok := PerformActions(rows);
      if ok {
        out := MoveOn();
        RunOneMore(task, |states|, inputs, rows);
        inputs, emitted := inputs + [rows], emitted + out;
      }
    }

    /** What a call does after acting. */
    method MoveOn() returns (out: seq<Doc<S>>)
      requires Sized()
      modifies this`states, this`docids, this`parses, this`epochs, batch
      ensures Sized()
      ensures var w := Reload(task, old(Fields())); Fields() == Emit(w) && out == Drain(w.docids, w.parses).out
    {
      SkipFinalStates();
      if batch.size == 0 {
        StartEpoch();
      }
      out := EmitReady();
    }
  }
}
