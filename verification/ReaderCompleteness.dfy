/** When the decoding reader gives back everything it has read. */
module ReaderCompleteness {
  import opened Wrappers
  import opened TransitionSystems
  import opened DecodedReader
  import opened ReaderRuns

  predicate Differ(s: Sentence, t: Sentence) {
    s.docid != t.docid
  }

  predicate DistinctIds(corpus: seq<Sentence>) {
    forall i, j {:trigger Differ(corpus[i], corpus[j])} :: 0 <= i < |corpus| && 0 <= j < |corpus| && i != j ==>
      Differ(corpus[i], corpus[j])
  }

  lemma SameIdSameSentence(corpus: seq<Sentence>, s: Sentence, t: Sentence)
    requires DistinctIds(corpus) && s in corpus && t in corpus && s.docid == t.docid
    ensures s == t
  {
    var i :| 0 <= i < |corpus| && corpus[i] == s;
    var j :| 0 <= j < |corpus| && corpus[j] == t;
    assert i != j ==> Differ(corpus[i], corpus[j]);
  }

  /** No sentence is finished from the start. */
  predicate AllBeginUnfinished<S>(t: Task<S>) {
    forall s {:trigger s in t.corpus} :: s in t.corpus ==> !t.system.isFinal(t.init(s))
  }

  // ----- What was read -----

  lemma {:induction false} RoundsAt(corpus: seq<Sentence>, k: nat, i: nat)
    requires i < |Rounds(corpus, k)|
    ensures Rounds(corpus, k)[i] in corpus && (i < |corpus| ==> Rounds(corpus, k)[i] == corpus[i])
    ensures k > 0 ==> |Rounds(corpus, k)| >= |corpus|
  {
    if k > 0 {
      if i < |Rounds(corpus, k - 1)| {
        RoundsAt(corpus, k - 1, i);
      }
    }
  }

  /** What was read are sentences of the corpus, first of all the corpus itself. */
  lemma ReadAt(corpus: seq<Sentence>, epoch: nat, p: nat, i: nat)
    requires p <= |corpus| && i < |ReadUpTo(corpus, epoch, p)|
    ensures var s := ReadUpTo(corpus, epoch, p)[i]; s in corpus && (i < |corpus| ==> s == corpus[i])
  {
    if epoch > 0 && i < |Rounds(corpus, epoch - 1)| {
      RoundsAt(corpus, epoch - 1, i);
    } else if epoch > 1 {
      RoundsAreLong(corpus, epoch - 1);
    }
  }

  lemma {:induction false} RoundsAreLong(corpus: seq<Sentence>, k: nat)
    ensures |Rounds(corpus, k)| == k * |corpus|
  {
    if k > 0 {
      RoundsAreLong(corpus, k - 1);
      assert k * |corpus| == (k - 1) * |corpus| + |corpus|;
    }
  }

  // ----- With different ids the emitted parses are those of the sentences read -----

  lemma EmittedAreRead<S>(t: Task<S>, v: View<S>, emitted: seq<Doc<S>>, i: nat)
    requires DistinctIds(t.corpus) && Steady(t, v, emitted) && i < |emitted|
    ensures |emitted| <= |Read(t, v)| && emitted[i].sentence == Read(t, v)[i] && IsParse(t, emitted[i])
  {
    assert emitted[i] in emitted;
    ReadAt(t.corpus, v.epochs, v.batch.position, i);
    SameIdSameSentence(t.corpus, emitted[i].sentence, Read(t, v)[i]);
  }

  /** A sentence that is finished from the start is never filed. */
  lemma FinishedStartIsNeverFiled<S>(t: Task<S>, v: View<S>, emitted: seq<Doc<S>>, s: Sentence)
    requires DistinctIds(t.corpus) && Steady(t, v, emitted) && s in t.corpus && t.system.isFinal(t.init(s))
    ensures s.docid !in v.parses
  {
    if s.docid in v.parses {
      SameIdSameSentence(t.corpus, v.parses[s.docid].sentence, s);
    }
  }

  /** So nothing is ever emitted past it, in any run. */
  lemma NothingPassesFinishedStart<S(!new)>(t: Task<S>, slots: nat, inputs: seq<seq<seq<real>>>, p: nat)
    requires Halts(t.system) && DistinctIds(t.corpus) && slots > 0 && Run(t, slots, inputs).Some?
    requires p < |t.corpus| && t.system.isFinal(t.init(t.corpus[p]))
    ensures |Run(t, slots, inputs).value.emitted| <= p
  {
    EveryRunIsSteady(t, slots, inputs);
    var h := Run(t, slots, inputs).value;
    if |h.emitted| > p {
      EmittedAreRead(t, h.reader, h.emitted, p);
      ReadAt(t.corpus, h.reader.epochs, h.reader.batch.position, p);
    }
  }

  /** All sentences of the earlier epochs have been emitted. */
  predicate Complete<S>(t: Task<S>, h: History<S>) {
    h.reader.epochs > 0 ==> |h.emitted| >= |Rounds(t.corpus, h.reader.epochs - 1)|
  }

  lemma CompleteNeedsUnfinishedStarts<S>(t: Task<S>, h: History<S>)
    requires DistinctIds(t.corpus) && Steady(t, h.reader, h.emitted) && h.reader.epochs >= 2 && Complete(t, h)
    ensures AllBeginUnfinished(t)
  {
    RoundsAreLong(t.corpus, h.reader.epochs - 1);
    assert (h.reader.epochs - 1) * |t.corpus| >= |t.corpus|;
    forall s | s in t.corpus ensures !t.system.isFinal(t.init(s)) {
      var p :| 0 <= p < |t.corpus| && t.corpus[p] == s;
      EmittedAreRead(t, h.reader, h.emitted, p);
      ReadAt(t.corpus, h.reader.epochs, h.reader.batch.position, p);
    }
  }

  // ----- While all sentences begin unfinished, the queue holds no earlier epoch -----

  predicate InSlot<S>(t: Task<S>, v: View<S>, s: Sentence, i: nat)
    requires Shaped(t, v)
  {
    i < |v.states| && v.batch.sentences[i] == Some(s) && v.states[i].Some? && !t.system.isFinal(v.states[i].value)
  }

  /** The sentence is still being parsed. */
  ghost predicate Busy<S>(t: Task<S>, v: View<S>, s: Sentence)
    requires Shaped(t, v)
  {
    exists i :: InSlot(t, v, s, i)
  }

  /** The sentence at position p has its parse filed exactly when it is no longer being parsed. */
  ghost predicate FiledAt<S>(t: Task<S>, v: View<S>, p: nat)
    requires Shaped(t, v) && p < |t.corpus|
  {
    t.corpus[p].docid in v.parses <==> !Busy(t, v, t.corpus[p])
  }

  predicate IdWithin(corpus: seq<Sentence>, lo: int, hi: int, id: string)
    requires 0 <= lo && hi <= |corpus|
  {
    exists p :: lo <= p < hi && corpus[p].docid == id
  }

  predicate Apart(s: Option<Sentence>, r: Option<Sentence>) {
    s.Some? ==> s != r
  }

  /** The position of the oldest sentence in the queue. */
  function Oldest<S>(v: View<S>): int {
    v.batch.position - |v.docids|
  }

  /** The queue holds sentences of the current epoch, and of these the ones no longer parsed are filed. */
  ghost predicate Current<S>(t: Task<S>, v: View<S>) {
    && Shaped(t, v) && 0 <= Oldest(v)
    && (forall p: nat {:trigger FiledAt(t, v, p)} :: Oldest(v) <= p < v.batch.position ==> FiledAt(t, v, p))
    && (forall id {:trigger id in v.parses} :: id in v.parses ==> IdWithin(t.corpus, Oldest(v), v.batch.position, id))
    && (forall i {:trigger v.batch.sentences[i]} :: 0 <= i < |v.states| && v.batch.sentences[i].Some? ==>
          IdWithin(t.corpus, Oldest(v), v.batch.position, v.batch.sentences[i].value.docid))
    && forall i, j {:trigger Apart(v.batch.sentences[i], v.batch.sentences[j])} ::
         0 <= i < |v.states| && 0 <= j < |v.states| && i != j ==>
         Apart(v.batch.sentences[i], v.batch.sentences[j])
  }

  lemma PutStaysCurrent<S>(t: Task<S>, v: View<S>, i: nat, x: S)
    requires DistinctIds(t.corpus) && Current(t, v) && i < |v.states| && v.batch.sentences[i].Some?
    requires v.batch.sentences[i].value in t.corpus && v.states[i].Some? && !t.system.isFinal(v.states[i].value)
    ensures Current(t, PutState(t, v, i, x))
  {
    var w, s := PutState(t, v, i, x), v.batch.sentences[i].value;
    assert InSlot(t, v, s, i);
    forall p: nat | Oldest(v) <= p < v.batch.position ensures FiledAt(t, w, p) {
      assert FiledAt(t, v, p);
      PutBusy(t, v, i, x, t.corpus[p]);
      if t.corpus[p].docid == s.docid {
        SameIdSameSentence(t.corpus, t.corpus[p], s);
      }
    }
    forall k, j | 0 <= k < |w.states| && 0 <= j < |w.states| && k != j
      ensures Apart(w.batch.sentences[k], w.batch.sentences[j])
    {
      assert Apart(v.batch.sentences[k], v.batch.sentences[j]);
    }
  }

  /** Only the sentence in the slot can have become finished. */
  lemma PutBusy<S>(t: Task<S>, v: View<S>, i: nat, x: S, s: Sentence)
    requires Current(t, v) && i < |v.states| && v.batch.sentences[i].Some? && v.states[i].Some?
    requires !t.system.isFinal(v.states[i].value)
    ensures var w := PutState(t, v, i, x);
            Busy(t, w, s) <==> if s == v.batch.sentences[i].value then !t.system.isFinal(x) else Busy(t, v, s)
  {
    var w := PutState(t, v, i, x);
    if s == v.batch.sentences[i].value {
      forall k: nat | k != i ensures !InSlot(t, w, s, k) {
        assert k < |v.states| ==> Apart(v.batch.sentences[i], v.batch.sentences[k]);
      }
      assert InSlot(t, w, s, i) <==> !t.system.isFinal(x);
    } else {
      forall k: nat ensures InSlot(t, w, s, k) <==> InSlot(t, v, s, k) {
      }
    }
  }

  lemma ActStaysCurrent<S(!new)>(t: Task<S>, v: View<S>, i: nat, row: seq<real>)
    requires Halts(t.system) && DistinctIds(t.corpus) && Current(t, v) && Loads(t, v) && i < |v.states|
    requires v.states[i].Some?
    requires Act(t.system, row, v.states[i].value).Some?
    ensures Current(t, PutState(t, v, i, Act(t.system, row, v.states[i].value).value))
  {
    assert SlotHolds(t, v.batch.sentences[i], v.states[i]);
    PutStaysCurrent(t, v, i, Act(t.system, row, v.states[i].value).value);
  }

  lemma {:induction false} PerformStaysCurrent<S(!new)>(t: Task<S>, v: View<S>, rows: seq<seq<real>>, n: nat)
    requires Halts(t.system) && DistinctIds(t.corpus) && Current(t, v) && Loads(t, v) && Files(t, v.parses)
    requires n <= |v.states| && Perform(t, v, rows, n).Some?
    ensures Current(t, Perform(t, v, rows, n).value)
  {
    if n > 0 {
      PerformStaysCurrent(t, v, rows, n - 1);
      PerformKeeps(t, v, rows, n - 1);
      var w := Perform(t, v, rows, n - 1).value;
      if w.states[n - 1].Some? {
        ActStaysCurrent(t, w, n - 1, Row(rows, Loaded(v.states, n - 1)));
      }
    }
  }

  /** A slot that is empty or finished can be loaded without touching the others. */
  lemma LoadBusy<S>(t: Task<S>, v: View<S>, i: nat, s: Sentence)
    requires Current(t, v) && i < |v.states| && (v.states[i].None? || Finished(t, v, i))
    requires v.batch.position < |t.corpus| ==> s != t.corpus[v.batch.position]
    ensures Busy(t, LoadNext(t, v, i), s) <==> Busy(t, v, s)
  {
    forall k: nat ensures InSlot(t, LoadNext(t, v, i), s, k) <==> InSlot(t, v, s, k) {
    }
  }

  lemma NewIdIsNew<S>(t: Task<S>, lo: int, p: nat, id: string)
    requires DistinctIds(t.corpus) && 0 <= lo && p < |t.corpus| && IdWithin(t.corpus, lo, p, id)
    ensures id != t.corpus[p].docid && IdWithin(t.corpus, lo, p + 1, id)
  {
    var q :| lo <= q < p && t.corpus[q].docid == id;
    assert Differ(t.corpus[q], t.corpus[p]);
  }

  lemma LoadStaysCurrent<S>(t: Task<S>, v: View<S>, i: nat)
    requires DistinctIds(t.corpus) && AllBeginUnfinished(t) && Current(t, v) && i < |v.states|
    requires v.states[i].None? || Finished(t, v, i)
    ensures Current(t, LoadNext(t, v, i))
  {
    var w, q := LoadNext(t, v, i), v.batch.position;
    var more := q < |t.corpus|;
    forall p: nat | Oldest(w) <= p < w.batch.position ensures FiledAt(t, w, p) {
      if p < q {
        assert FiledAt(t, v, p);
        assert more ==> Differ(t.corpus[p], t.corpus[q]);
        LoadBusy(t, v, i, t.corpus[p]);
      } else {
        assert t.corpus[q] in t.corpus && InSlot(t, w, t.corpus[q], i);
        if t.corpus[q].docid in v.parses {
          NewIdIsNew(t, Oldest(v), q, t.corpus[q].docid);
        }
      }
    }
    if more {
      LoadedStayWithin(t, v, i);
    }
    forall k, j | 0 <= k < |w.states| && 0 <= j < |w.states| && k != j
      ensures Apart(w.batch.sentences[k], w.batch.sentences[j])
    {
      assert Apart(v.batch.sentences[k], v.batch.sentences[j]);
    }
  }

  lemma LoadedStayWithin<S>(t: Task<S>, v: View<S>, i: nat)
    requires DistinctIds(t.corpus) && Current(t, v) && i < |v.states| && v.batch.position < |t.corpus|
    ensures var w := LoadNext(t, v, i);
            && (forall id :: id in v.parses ==> IdWithin(t.corpus, Oldest(w), w.batch.position, id))
            && (forall k :: 0 <= k < |w.states| && w.batch.sentences[k].Some? ==>
                  IdWithin(t.corpus, Oldest(w), w.batch.position, w.batch.sentences[k].value.docid))
            && forall k :: 0 <= k < |w.states| && k != i ==> w.batch.sentences[k] != Some(t.corpus[v.batch.position])
  {
    var w, q := LoadNext(t, v, i), v.batch.position;
    forall id | id in v.parses ensures IdWithin(t.corpus, Oldest(w), w.batch.position, id) {
      NewIdIsNew(t, Oldest(v), q, id);
    }
    forall k | 0 <= k < |w.states| && w.batch.sentences[k].Some?
      ensures IdWithin(t.corpus, Oldest(w), w.batch.position, w.batch.sentences[k].value.docid)
      ensures k != i ==> w.batch.sentences[k] != Some(t.corpus[q])
    {
      if k != i {
        NewIdIsNew(t, Oldest(v), q, v.batch.sentences[k].value.docid);
      } else {
        assert t.corpus[q].docid == w.batch.sentences[k].value.docid;
      }
    }
  }

  predicate NoneFinished<S>(t: Task<S>, v: View<S>, n: nat)
    requires n <= |v.states|
  {
    forall i: nat {:trigger Finished(t, v, i)} :: i < n ==> !Finished(t, v, i)
  }

  lemma {:induction false} SkipStaysCurrent<S>(t: Task<S>, v: View<S>, i: nat)
    requires DistinctIds(t.corpus) && AllBeginUnfinished(t) && Current(t, v) && i < |v.states|
    ensures Current(t, SkipFinal(t, v, i)) && !Finished(t, SkipFinal(t, v, i), i)
    ensures SkipFinal(t, v, i).parses == v.parses
    ensures forall k {:trigger v.states[k]} :: 0 <= k < |v.states| && k != i ==>
              SkipFinal(t, v, i).states[k] == v.states[k]
    decreases |t.corpus| - v.batch.position, if v.states[i].Some? then 1 else 0
  {
    if Finished(t, v, i) {
      var w := LoadNext(t, v, i);
      LoadStaysCurrent(t, v, i);
      SkipStaysCurrent(t, w, i);
      assert forall k :: 0 <= k < |v.states| && k != i ==> w.states[k] == v.states[k];
    }
  }

  lemma {:induction false} SkipAllStaysCurrent<S>(t: Task<S>, v: View<S>, n: nat)
    requires DistinctIds(t.corpus) && AllBeginUnfinished(t) && Current(t, v) && n <= |v.states|
    ensures Current(t, SkipAllFinal(t, v, n)) && NoneFinished(t, SkipAllFinal(t, v, n), n)
  {
    if n > 0 {
      SkipAllStaysCurrent(t, v, n - 1);
      var w := SkipAllFinal(t, v, n - 1);
      SkipStaysCurrent(t, w, n - 1);
      var x := SkipFinal(t, w, n - 1);
      forall i: nat | i < n ensures !Finished(t, x, i) {
        assert i < n - 1 ==> !Finished(t, w, i) && w.states[i] == x.states[i];
      }
    }
  }

  /** The queue has the ids of the sentences of this epoch from the oldest one on. */
  predicate QueueOf<S>(t: Task<S>, v: View<S>)
    requires Shaped(t, v) && 0 <= Oldest(v)
  {
    forall j {:trigger v.docids[j]} :: 0 <= j < |v.docids| ==> v.docids[j] == t.corpus[v.batch.position - 1 - j].docid
  }

  lemma QueueIsOrdered<S>(t: Task<S>, v: View<S>, emitted: seq<Doc<S>>)
    requires Shaped(t, v) && 0 <= Oldest(v) && InOrder(Read(t, v), emitted, v.docids)
    ensures QueueOf(t, v)
  {
  }

  function EmitOne<S>(v: View<S>): View<S>
    requires v.docids != []
  {
    var n := |v.docids| - 1;
    v.(docids := v.docids[..n], parses := v.parses - {v.docids[n]})
  }

  /** Emitting the oldest sentence leaves the others as they were. */
  lemma EmitOneStaysCurrent<S>(t: Task<S>, v: View<S>)
    requires DistinctIds(t.corpus) && Current(t, v) && Loads(t, v) && NoneFinished(t, v, |v.states|) && QueueOf(t, v)
    requires v.docids != [] && v.docids[|v.docids| - 1] in v.parses
    ensures Current(t, EmitOne(v)) && Loads(t, EmitOne(v)) && QueueOf(t, EmitOne(v))
  {
    var w, lo := EmitOne(v), Oldest(v);
    assert v.docids[|v.docids| - 1] == t.corpus[lo].docid;
    assert FiledAt(t, v, lo);
    forall p: nat | Oldest(w) <= p < w.batch.position ensures FiledAt(t, w, p) {
      assert FiledAt(t, v, p) && Differ(t.corpus[lo], t.corpus[p]);
      forall k: nat ensures InSlot(t, w, t.corpus[p], k) <==> InSlot(t, v, t.corpus[p], k) {
      }
    }
    forall id | id in w.parses ensures IdWithin(t.corpus, Oldest(w), w.batch.position, id) {
      assert IdWithin(t.corpus, lo, v.batch.position, id);
    }
    forall i | 0 <= i < |w.states| && w.batch.sentences[i].Some?
      ensures IdWithin(t.corpus, Oldest(w), w.batch.position, w.batch.sentences[i].value.docid)
    {
      var s := v.batch.sentences[i].value;
      assert SlotHolds(t, v.batch.sentences[i], v.states[i]) && !Finished(t, v, i);
      assert InSlot(t, v, s, i) && IdWithin(t.corpus, lo, v.batch.position, s.docid);
      if s.docid == t.corpus[lo].docid {
        SameIdSameSentence(t.corpus, s, t.corpus[lo]);
      }
    }
    OtherSlotsStay(t, v, w);
  }

  lemma OtherSlotsStay<S>(t: Task<S>, v: View<S>, w: View<S>)
    requires Current(t, v) && Loads(t, v) && w.batch == v.batch && w.states == v.states
    ensures Loads(t, w)
    ensures forall i, j {:trigger Apart(w.batch.sentences[i], w.batch.sentences[j])} ::
              0 <= i < |w.states| && 0 <= j < |w.states| && i != j ==> Apart(w.batch.sentences[i], w.batch.sentences[j])
  {
    forall i | 0 <= i < |w.states| ensures SlotHolds(t, w.batch.sentences[i], w.states[i]) {
      assert SlotHolds(t, v.batch.sentences[i], v.states[i]);
    }
  }

  /** Emitting goes on until the oldest sentence is still being parsed. */
  lemma {:induction false} EmitStaysCurrent<S>(t: Task<S>, v: View<S>)
    requires DistinctIds(t.corpus) && Current(t, v) && Loads(t, v) && NoneFinished(t, v, |v.states|) && QueueOf(t, v)
    ensures Current(t, Emit(v))
    ensures Oldest(Emit(v)) < v.batch.position ==> Busy(t, Emit(v), t.corpus[Oldest(Emit(v))])
    decreases |v.docids|
  {
    var n := |v.docids|;
    if n > 0 {
      assert v.docids[n - 1] == t.corpus[Oldest(v)].docid && FiledAt(t, v, Oldest(v));
    }
    if n > 0 && v.docids[n - 1] in v.parses {
      EmitOneStaysCurrent(t, v);
      assert Emit(EmitOne(v)) == Emit(v);
      forall i: nat | i < |v.states| ensures !Finished(t, EmitOne(v), i) {
        assert !Finished(t, v, i);
      }
      EmitStaysCurrent(t, EmitOne(v));
    } else {
      assert Emit(v) == v;
    }
  }

  // ----- The end of an epoch -----

  predicate AllFiled<S>(docids: seq<string>, parses: map<string, Doc<S>>) {
    && (forall j {:trigger docids[j]} :: 0 <= j < |docids| ==> docids[j] in parses)
    && (forall i, j :: 0 <= i < j < |docids| ==> docids[i] != docids[j])
    && forall id {:trigger id in parses} :: id in parses ==> id in docids
  }

  /** A queue whose ids are all filed, and nothing else, is emitted up to what was queued later. */
  lemma {:induction false} DrainAll<S>(front: seq<string>, docids: seq<string>, parses: map<string, Doc<S>>)
    requires AllFiled(docids, parses)
    ensures var d := Drain(front + docids, parses); d.docids == front && d.parses == map[]
    decreases |docids|
  {
    var n := |docids|;
    if n == 0 {
      assert parses == map[] && front + docids == front;
    } else {
      var id := docids[n - 1];
      assert (front + docids)[|front + docids| - 1] == id;
      assert (front + docids)[..|front + docids| - 1] == front + docids[..n - 1];
      DrainAll(front, docids[..n - 1], parses - {id});
    }
  }

  /** With no slot loaded, the whole queue is filed. */
  lemma EndOfEpochIsFiled<S>(t: Task<S>, v: View<S>)
    requires DistinctIds(t.corpus) && Current(t, v) && Loads(t, v) && v.batch.size == 0 && QueueOf(t, v)
    ensures AllFiled(v.docids, v.parses)
  {
    SizeZero(t, v);
    forall j | 0 <= j < |v.docids| ensures v.docids[j] in v.parses {
      var p := v.batch.position - 1 - j;
      assert FiledAt(t, v, p) && !Busy(t, v, t.corpus[p]);
    }
    forall i, j | 0 <= i < j < |v.docids| ensures v.docids[i] != v.docids[j] {
      assert Differ(t.corpus[v.batch.position - 1 - i], t.corpus[v.batch.position - 1 - j]);
    }
    forall id | id in v.parses ensures id in v.docids {
      var p :| Oldest(v) <= p < v.batch.position && t.corpus[p].docid == id;
      assert v.docids[v.batch.position - 1 - p] == id;
    }
  }

  /** The first n slots hold the first sentences of a new epoch, and the others none. */
  ghost predicate Begun<S>(t: Task<S>, w: View<S>, n: nat, docids: seq<string>)
    requires Shaped(t, w) && n <= |w.states|
  {
    && w.batch.position == (if n < |t.corpus| then n else |t.corpus|)
    && (forall k {:trigger w.batch.sentences[k]} :: 0 <= k < |w.states| ==>
          w.batch.sentences[k] == if k < w.batch.position then Some(t.corpus[k]) else None)
    && (forall k {:trigger w.states[k]} :: 0 <= k < |w.states| ==>
          w.states[k] == if k < w.batch.position then Some(t.init(t.corpus[k])) else None)
    && |w.docids| == w.batch.position + |docids| && w.docids[w.batch.position..] == docids
    && forall j {:trigger w.docids[j]} :: 0 <= j < w.batch.position ==>
         w.docids[j] == t.corpus[w.batch.position - 1 - j].docid
  }

  lemma LoadGoesOn<S>(t: Task<S>, w: View<S>, n: nat, docids: seq<string>)
    requires Shaped(t, w) && n < |w.states| && Begun(t, w, n, docids)
    ensures Begun(t, LoadNext(t, w, n), n + 1, docids)
  {
    var x, m := LoadNext(t, w, n), w.batch.position;
    if m < |t.corpus| {
      assert x.docids == [t.corpus[m].docid] + w.docids;
      assert x.docids[m + 1..] == w.docids[m..];
      forall j | 0 <= j < m + 1 ensures x.docids[j] == t.corpus[m - j].docid {
        assert j > 0 ==> x.docids[j] == w.docids[j - 1];
      }
    }
  }

  lemma {:induction false} RefillBegins<S>(t: Task<S>, v: View<S>, n: nat)
    requires Shaped(t, v) && n <= |v.states|
    requires forall i :: 0 <= i < |v.states| ==> v.states[i].None? && v.batch.sentences[i].None?
    ensures Begun(t, Refill(t, v, n), n, v.docids) && Refill(t, v, n).parses == v.parses
  {
    if n > 0 {
      RefillBegins(t, v, n - 1);
      LoadGoesOn(t, Refill(t, v, n - 1), n - 1, v.docids);
    }
  }

  /** What is left after emitting the old epoch is the new one, all of it still being parsed. */
  lemma BegunIsCurrent<S>(t: Task<S>, w: View<S>, x: View<S>, docids: seq<string>)
    requires DistinctIds(t.corpus) && AllBeginUnfinished(t) && Shaped(t, w) && Begun(t, w, |w.states|, docids)
    requires x == w.(docids := w.docids[..w.batch.position], parses := map[])
    ensures Current(t, x) && NoneFinished(t, x, |x.states|)
  {
    forall p: nat | Oldest(x) <= p < x.batch.position ensures FiledAt(t, x, p) {
      assert t.corpus[p] in t.corpus && x.states[p].Some? && x.batch.sentences[p].Some?;
      assert InSlot(t, x, t.corpus[p], p);
    }
    forall i | 0 <= i < |x.states| && x.batch.sentences[i].Some?
      ensures IdWithin(t.corpus, Oldest(x), x.batch.position, x.batch.sentences[i].value.docid)
    {
      assert t.corpus[i].docid == x.batch.sentences[i].value.docid;
    }
    forall i: nat | i < |x.states| ensures !Finished(t, x, i) {
      assert i < x.batch.position ==> t.corpus[i] in t.corpus;
    }
    forall i, j | 0 <= i < |x.states| && 0 <= j < |x.states| && i != j
      ensures Apart(x.batch.sentences[i], x.batch.sentences[j])
    {
      if x.batch.sentences[i].Some? && x.batch.sentences[j].Some? {
        assert Differ(t.corpus[i], t.corpus[j]);
      }
    }
  }

  /** The queue holds no sentence of an earlier epoch, nothing finished is left in a slot, and only a
      sentence that is still being parsed holds up the queue. */
  ghost predicate UpToDate<S>(t: Task<S>, v: View<S>) {
    && Current(t, v) && NoneFinished(t, v, |v.states|)
    && (v.docids != [] ==> Busy(t, v, t.corpus[Oldest(v)]))
  }

  lemma TurnStaysCurrent<S>(t: Task<S>, v: View<S>)
    requires DistinctIds(t.corpus) && AllBeginUnfinished(t) && Current(t, v) && Loads(t, v) && v.batch.size == 0
    requires QueueOf(t, v)
    ensures UpToDate(t, Emit(Refill(t, v, |v.states|)))
  {
    SizeZero(t, v);
    EndOfEpochIsFiled(t, v);
    var w := Refill(t, v, |v.states|);
    RefillBegins(t, v, |v.states|);
    var front := w.docids[..w.batch.position];
    assert w.docids == front + v.docids;
    DrainAll(front, v.docids, v.parses);
    BegunIsCurrent(t, w, Emit(w), v.docids);
    assert Emit(w).docids != [] ==> FiledAt(t, Emit(w), 0);
  }

  lemma NextIsUpToDate<S(!new)>(t: Task<S>, v: View<S>, rows: seq<seq<real>>, emitted: seq<Doc<S>>)
    requires Halts(t.system) && DistinctIds(t.corpus) && AllBeginUnfinished(t)
    requires Steady(t, v, emitted) && UpToDate(t, v) && Next(t, v, rows).Some?
    ensures UpToDate(t, Next(t, v, rows).value)
  {
    PerformStaysCurrent(t, v, rows, |v.states|);
    PerformIsSteady(t, v, rows, emitted);
    var w := Perform(t, v, rows, |v.states|).value;
    SkipAllStaysCurrent(t, w, |w.states|);
    SkipAllKeeps(t, w, |w.states|, emitted);
    var x := SkipAllFinal(t, w, |w.states|);
    QueueIsOrdered(t, x, emitted);
    if x.batch.size == 0 {
      TurnStaysCurrent(t, x);
    } else {
      EmitStaysCurrent(t, x);
      forall i: nat | i < |x.states| ensures !Finished(t, Emit(x), i) {
        assert !Finished(t, x, i);
      }
    }
  }

  lemma {:induction false} RunIsUpToDate<S(!new)>(t: Task<S>, slots: nat, inputs: seq<seq<seq<real>>>)
    requires Halts(t.system) && DistinctIds(t.corpus) && AllBeginUnfinished(t) && slots > 0
    requires Run(t, slots, inputs).Some?
    ensures UpToDate(t, Run(t, slots, inputs).value.reader)
    decreases |inputs|
  {
    if inputs == [] {
      StartIsSteady(t, slots);
    } else {
      var n := |inputs| - 1;
      RunIsUpToDate(t, slots, inputs[..n]);
      EveryRunIsSteady(t, slots, inputs[..n]);
      var h := Run(t, slots, inputs[..n]).value;
      NextIsUpToDate(t, h.reader, inputs[n], h.emitted);
    }
  }

  /** A run that has finished an epoch has given back all sentences of all finished epochs, if and only if
      no sentence of the corpus is finished from the start. */
  lemma CompleteIffAllBeginUnfinished<S(!new)>(t: Task<S>, slots: nat, inputs: seq<seq<seq<real>>>)
    requires Halts(t.system) && DistinctIds(t.corpus) && slots > 0 && Run(t, slots, inputs).Some?
    requires Run(t, slots, inputs).value.reader.epochs >= 2
    ensures Complete(t, Run(t, slots, inputs).value) <==> AllBeginUnfinished(t)
  {
    EveryRunIsSteady(t, slots, inputs);
    var h := Run(t, slots, inputs).value;
    if Complete(t, h) {
      CompleteNeedsUnfinishedStarts(t, h);
    }
    if AllBeginUnfinished(t) {
      RunIsUpToDate(t, slots, inputs);
    }
  }

  /** What holds of the reader as an object, after any calls. */
  lemma ReaderKeepsOrder<S(!new)>(reader: DecodedParseReader<S>)
    requires reader.Valid() && Halts(reader.task.system) && |reader.states| > 0
    ensures Steady(reader.task, reader.Fields(), reader.emitted)
    ensures DistinctIds(reader.task.corpus) && reader.epochs >= 2 ==>
              (Complete(reader.task, History(reader.Fields(), reader.emitted)) <==> AllBeginUnfinished(reader.task))
  {
    EveryRunIsSteady(reader.task, |reader.states|, reader.inputs);
    if DistinctIds(reader.task.corpus) && reader.epochs >= 2 {
      CompleteIffAllBeginUnfinished(reader.task, |reader.states|, reader.inputs);
    }
  }
}
