/** The affix table: all prefixes or suffixes of the words added to it, in a chained hash table. */
module AffixTables {

  const INITIAL_BUCKETS := 1024
  const FILL_FACTOR := 2

  datatype AffixType = Prefix | Suffix

  /** An affix. Other affixes are referred to by their ids, -1 standing for none. */
  datatype Affix = Affix(form: string, length: nat, shorter: int, next: int)

  // ----- Affixes of words -----

  function AffixOf(kind: AffixType, word: string, k: nat): string
    requires k <= |word|
  {
    if kind == Prefix then word[..k] else word[|word| - k..]
  }

  /** A prefix is how the word begins, and a suffix how it ends. */
  lemma AffixIsAnEnd(kind: AffixType, word: string, k: nat)
    requires k <= |word|
    ensures var form := AffixOf(kind, word, k);
            |form| == k && if kind == Prefix then form <= word else exists rest :: word == rest + form
  {
    if kind == Suffix {
      assert word == word[..|word| - k] + AffixOf(kind, word, k);
    }
  }

  /** The affix that is one character shorter. */
  function Shorten(kind: AffixType, form: string): string
    requires form != ""
  {
    AffixOf(kind, form, |form| - 1)
  }

  lemma ShortenAffix(kind: AffixType, word: string, k: nat)
    requires 0 < k <= |word|
    ensures |AffixOf(kind, word, k)| == k && Shorten(kind, AffixOf(kind, word, k)) == AffixOf(kind, word, k - 1)
  {
  }

  // ----- Bucket chains -----

  ghost predicate StaysBelow(h: (string, nat) -> nat) {
    forall form, n: nat :: n > 0 ==> h(form, n) < n
  }

  /** Some hash of a form, masked to a number of buckets. */
  type Hash = h: (string, nat) -> nat | StaysBelow(h) witness ((form, n) => 0)

  function Bucket(hash: Hash, form: string, n: nat): (b: nat)
    requires n > 0
    ensures b < n
  {
    assert StaysBelow(hash);
    hash(form, n)
  }

  /** r is the last of the first i affixes that falls into bucket b, or -1 if there is none. */
  predicate IsLatest(hash: Hash, affixes: seq<Affix>, i: nat, b: nat, n: nat, r: int)
    requires i <= |affixes| && n > 0
  {
    && -1 <= r < i && (r >= 0 ==> Bucket(hash, affixes[r].form, n) == b)
    && forall j :: r < j < i ==> Bucket(hash, affixes[j].form, n) != b
  }

  predicate SameForms(xs: seq<Affix>, ys: seq<Affix>, i: nat) {
    i <= |xs| && i <= |ys| && forall j :: 0 <= j < i ==> xs[j].form == ys[j].form
  }

  /** Every bucket starts the chain of its first i affixes, the latest first. */
  ghost predicate Chained(hash: Hash, affixes: seq<Affix>, buckets: seq<int>, i: nat)
    requires i <= |affixes|
  {
    var n := |buckets|;
    && n > 0
    && (forall b: nat {:trigger buckets[b]} :: b < n ==> IsLatest(hash, affixes, i, b, n, buckets[b]))
    && (forall j: nat {:trigger affixes[j].next} :: j < i ==>
          IsLatest(hash, affixes, j, Bucket(hash, affixes[j].form, n), n, affixes[j].next))
  }

  /** Putting affix i in front of its bucket's chain. */
  lemma LinkKeepsChained(hash: Hash, xs: seq<Affix>, buckets: seq<int>, i: nat, ys: seq<Affix>, buckets': seq<int>)
    requires i < |xs| && Chained(hash, xs, buckets, i)
    requires var b := Bucket(hash, xs[i].form, |buckets|);
             ys == xs[i := xs[i].(next := buckets[b])] && buckets' == buckets[b := i]
    ensures Chained(hash, ys, buckets', i + 1)
  {
    var n := |buckets|;
    forall b: nat | b < n ensures IsLatest(hash, ys, i + 1, b, n, buckets'[b]) {
      assert IsLatest(hash, xs, i, b, n, buckets[b]);
    }
    forall j: nat | j < i + 1 ensures IsLatest(hash, ys, j, Bucket(hash, ys[j].form, n), n, ys[j].next) {
      if j < i {
        assert IsLatest(hash, xs, j, Bucket(hash, xs[j].form, n), n, xs[j].next);
      } else {
        assert IsLatest(hash, xs, i, Bucket(hash, xs[i].form, n), n, ys[i].next);
      }
    }
  }

  lemma ChainedSame(hash: Hash, xs: seq<Affix>, ys: seq<Affix>, buckets: seq<int>, i: nat)
    requires i <= |xs| && Chained(hash, xs, buckets, i) && SameForms(xs, ys, i)
    requires forall j :: 0 <= j < i ==> xs[j].next == ys[j].next
    ensures Chained(hash, ys, buckets, i)
  {
    var n := |buckets|;
    forall b: nat | b < n ensures IsLatest(hash, ys, i, b, n, buckets[b]) {
      assert IsLatest(hash, xs, i, b, n, buckets[b]);
    }
    forall j: nat | j < i ensures IsLatest(hash, ys, j, Bucket(hash, ys[j].form, n), n, ys[j].next) {
      assert IsLatest(hash, xs, j, Bucket(hash, xs[j].form, n), n, xs[j].next);
    }
  }

  // ----- What the table means -----

  /** The same affixes, whatever their bucket chains. */
  predicate SameAffixes(xs: seq<Affix>, ys: seq<Affix>) {
    |xs| == |ys| && forall i :: 0 <= i < |xs| ==>
      xs[i].form == ys[i].form && xs[i].length == ys[i].length && xs[i].shorter == ys[i].shorter
  }

  /** Earlier affixes keep their ids, forms, lengths and links. */
  predicate KeptFrom(before: seq<Affix>, after: seq<Affix>) {
    |before| <= |after| && forall i :: 0 <= i < |before| ==>
      after[i].form == before[i].form && after[i].length == before[i].length && after[i].shorter == before[i].shorter
  }

  predicate Holds(affixes: seq<Affix>, form: string) {
    exists i :: 0 <= i < |affixes| && affixes[i].form == form
  }

  predicate DistinctForms(affixes: seq<Affix>) {
    forall i, j :: 0 <= i < j < |affixes| ==> affixes[i].form != affixes[j].form
  }

  /** Affix i is complete: it has its length and is linked to the affix one character shorter. */
  predicate Complete(kind: AffixType, maxLength: nat, affixes: seq<Affix>, i: nat)
    requires i < |affixes|
  {
    var a := affixes[i];
    && 1 <= a.length == |a.form| <= maxLength
    && (a.length == 1 ==> a.shorter == -1)
    && (a.length > 1 ==> 0 <= a.shorter < |affixes| && affixes[a.shorter].form == Shorten(kind, a.form))
  }

  /** All affixes but possibly one are complete. */
  predicate Linked(kind: AffixType, maxLength: nat, affixes: seq<Affix>, except: int) {
    forall i: nat :: i < |affixes| && i != except ==> Complete(kind, maxLength, affixes, i)
  }

  /** Because affixes are linked downwards, holding one means holding all shorter ones. */
  lemma {:induction false} ShorterAreHeld(kind: AffixType, maxLength: nat, affixes: seq<Affix>, word: string, k: nat,
                                          m: nat)
    requires Linked(kind, maxLength, affixes, -1) && 1 <= m <= k <= |word|
    requires Holds(affixes, AffixOf(kind, word, k))
    ensures Holds(affixes, AffixOf(kind, word, m))
    decreases k
  {
    if m < k {
      var i :| 0 <= i < |affixes| && affixes[i].form == AffixOf(kind, word, k);
      ShortenAffix(kind, word, k);
      assert Complete(kind, maxLength, affixes, i);
      ShorterAreHeld(kind, maxLength, affixes, word, k - 1, m);
    }
  }

  /** The length of the longest affix kept of a word. */
  function Longest(word: string, maxLength: nat): nat {
    if |word| > maxLength then maxLength else |word|
  }

  /** The table holds exactly the affixes of the words, up to the maximum length. */
  ghost predicate Contains(kind: AffixType, maxLength: nat, affixes: seq<Affix>, words: set<string>) {
    forall form :: Holds(affixes, form) <==> IsAffix(kind, maxLength, words, form)
  }

  ghost predicate IsAffix(kind: AffixType, maxLength: nat, words: set<string>, form: string) {
    exists w, k: nat :: w in words && 1 <= k <= Longest(w, maxLength) && form == AffixOf(kind, w, k)
  }

  /** The entries n0.. of the table are the affixes of the word of lengths top down to low + 1. */
  predicate Added(kind: AffixType, affixes: seq<Affix>, n0: nat, word: string, top: nat, low: nat)
    requires low <= top <= |word|
  {
    && |affixes| == n0 + (top - low)
    && forall i :: n0 <= i < |affixes| ==> affixes[i].form == AffixOf(kind, word, top - (i - n0))
  }

  lemma AddedAreAffixes(kind: AffixType, maxLength: nat, before: seq<Affix>, after: seq<Affix>, words: set<string>,
                        word: string, low: nat, i: nat)
    requires forall f :: Holds(before, f) ==> IsAffix(kind, maxLength, words, f)
    requires low <= Longest(word, maxLength) && Added(kind, after, |before|, word, Longest(word, maxLength), low)
    requires SameForms(before, after, |before|) && i < |after|
    ensures IsAffix(kind, maxLength, words + {word}, after[i].form)
  {
    var form := after[i].form;
    if i < |before| {
      assert before[i].form == form;
      assert Holds(before, form);
      var w, k: nat :| w in words && 1 <= k <= Longest(w, maxLength) && form == AffixOf(kind, w, k);
      assert w in words + {word};
    } else {
      assert word in words + {word} && form == AffixOf(kind, word, Longest(word, maxLength) - (i - |before|));
    }
  }

  lemma AddedKeepsContents(kind: AffixType, maxLength: nat, before: seq<Affix>, after: seq<Affix>, words: set<string>,
                           word: string, low: nat, id: int)
    requires Contains(kind, maxLength, before, words)
    requires low <= Longest(word, maxLength) && Added(kind, after, |before|, word, Longest(word, maxLength), low)
    requires SameForms(before, after, |before|) && Linked(kind, maxLength, after, -1)
    requires Longest(word, maxLength) > 0 ==>
               0 <= id < |after| && after[id].form == AffixOf(kind, word, Longest(word, maxLength))
    ensures Contains(kind, maxLength, after, words + {word})
  {
    forall form | Holds(after, form) ensures IsAffix(kind, maxLength, words + {word}, form) {
      var i :| 0 <= i < |after| && after[i].form == form;
      AddedAreAffixes(kind, maxLength, before, after, words, word, low, i);
    }
    forall w, k: nat | w in words + {word} && 1 <= k <= Longest(w, maxLength)
      ensures Holds(after, AffixOf(kind, w, k))
    {
      if w in words {
        assert Holds(before, AffixOf(kind, w, k));
        var i :| 0 <= i < |before| && before[i].form == AffixOf(kind, w, k);
        assert after[i].form == AffixOf(kind, w, k);
      } else {
        ShorterAreHeld(kind, maxLength, after, word, Longest(word, maxLength), k);
      }
    }
  }

  /** While a word is added, its affixes longer than low have joined the earlier ones, and the last one
      added still lacks its link. */
  predicate Partial(kind: AffixType, maxLength: nat, earlier: seq<Affix>, affixes: seq<Affix>, word: string, top: nat,
                    low: nat)
    requires low <= top <= |word|
  {
    && DistinctForms(affixes) && KeptFrom(earlier, affixes) && Added(kind, affixes, |earlier|, word, top, low)
    && (low < top ==> var last := affixes[|affixes| - 1]; last.length == low + 1 && last.shorter == -1)
    && Linked(kind, maxLength, affixes, if low < top && low > 0 then |affixes| - 1 else -1)
  }

  lemma DistinctGrows(before: seq<Affix>, after: seq<Affix>, form: string)
    requires DistinctForms(before) && !Holds(before, form)
    requires SameForms(before, after, |before|) && |after| == |before| + 1 && after[|before|].form == form
    ensures DistinctForms(after)
  {
    forall i, j | 0 <= i < j < |after| ensures after[i].form != after[j].form {
      assert before[i].form == after[i].form;
    }
  }

  lemma LinkedAfterAdd(kind: AffixType, maxLength: nat, before: seq<Affix>, after: seq<Affix>, open: int)
    requires Linked(kind, maxLength, before, open) && |before| <= |after| && SameForms(before, after, |before|)
    requires forall i :: 0 <= i < |before| && i != open ==>
               after[i].length == before[i].length && after[i].shorter == before[i].shorter
    ensures forall i: nat :: i < |before| && i != open ==> Complete(kind, maxLength, after, i)
  {
    forall i: nat | i < |before| && i != open ensures Complete(kind, maxLength, after, i) {
      assert Complete(kind, maxLength, before, i);
    }
  }

  /** The table has gained one affix; if link is set, the affix before it now points at it. */
  predicate Extends(before: seq<Affix>, after: seq<Affix>, form: string, length: nat, link: bool) {
    var n := |before|;
    && |after| == n + 1 && after[n].form == form && after[n].length == length && after[n].shorter == -1
    && Relinked(before, after[..n], link, n)
  }

  /** Nothing but the bucket chains and, if link is set, the link of the last affix has changed. */
  predicate Relinked(before: seq<Affix>, after: seq<Affix>, link: bool, shorter: nat) {
    && |after| == |before| && SameForms(before, after, |before|)
    && forall i :: 0 <= i < |before| ==>
         && after[i].length == before[i].length
         && after[i].shorter == if link && i == |before| - 1 then shorter else before[i].shorter
  }

  lemma LinkedGrows(kind: AffixType, maxLength: nat, earlier: seq<Affix>, before: seq<Affix>, after: seq<Affix>,
                    word: string, top: nat, low: nat)
    requires 0 < low <= top == Longest(word, maxLength) && Partial(kind, maxLength, earlier, before, word, top, low)
    requires Extends(before, after, AffixOf(kind, word, low), low, low < top)
    ensures Linked(kind, maxLength, after, if low > 1 then |before| else -1)
  {
    assert forall i :: 0 <= i < |before| ==> after[i] == after[..|before|][i];
    LinkedAfterAdd(kind, maxLength, before, after, if low < top then |before| - 1 else -1);
    ShortenAffix(kind, word, low);
    if low < top {
      ShortenAffix(kind, word, low + 1);
      assert before[|before| - 1].form == AffixOf(kind, word, low + 1);
      assert Complete(kind, maxLength, after, |before| - 1);
    }
    if low == 1 {
      assert Complete(kind, maxLength, after, |before|);
    }
  }

  lemma PartialGrows(kind: AffixType, maxLength: nat, earlier: seq<Affix>, before: seq<Affix>, after: seq<Affix>,
                     word: string, top: nat, low: nat)
    requires 0 < low <= top == Longest(word, maxLength) && Partial(kind, maxLength, earlier, before, word, top, low)
    requires !Holds(before, AffixOf(kind, word, low))
    requires Extends(before, after, AffixOf(kind, word, low), low, low < top)
    ensures Partial(kind, maxLength, earlier, after, word, top, low - 1)
  {
    var n := |before|;
    assert forall i :: 0 <= i < n ==> after[i] == after[..n][i];
    LinkedGrows(kind, maxLength, earlier, before, after, word, top, low);
    DistinctGrows(before, after, AffixOf(kind, word, low));
    forall i | |earlier| <= i < n + 1 ensures after[i].form == AffixOf(kind, word, top - (i - |earlier|)) {
      if i < n {
        assert before[i].form == AffixOf(kind, word, top - (i - |earlier|));
      }
    }
  }

  lemma PartialEnds(kind: AffixType, maxLength: nat, earlier: seq<Affix>, before: seq<Affix>, after: seq<Affix>,
                    word: string, top: nat, low: nat, found: nat)
    requires 0 < low <= top == Longest(word, maxLength) && Partial(kind, maxLength, earlier, before, word, top, low)
    requires found < |before| && before[found].form == AffixOf(kind, word, low)
    requires Relinked(before, after, low < top, found)
    ensures DistinctForms(after) && KeptFrom(earlier, after)
    ensures Added(kind, after, |earlier|, word, top, low) && Linked(kind, maxLength, after, -1)
  {
    LinkedAfterAdd(kind, maxLength, before, after, if low < top then |before| - 1 else -1);
    if low < top {
      ShortenAffix(kind, word, low + 1);
      assert Complete(kind, maxLength, after, |before| - 1);
    }
  }

  // ----- The serialized form -----

  datatype Entry = Entry(form: string, length: int, shorterId: int)

  datatype TableEntry = TableEntry(kind: AffixType, maxLength: int, affixes: seq<Entry>)

  /** The first i entries have lengths in range and different forms. */
  predicate EntriesReadable(maxLength: int, es: seq<Entry>, i: nat)
    requires i <= |es|
  {
    && (forall j :: 0 <= j < i ==> 0 <= es[j].length <= maxLength)
    && forall j, k :: 0 <= j < k < i ==> es[j].form != es[k].form
  }

  /** What Read checks of a serialized table. */
  predicate Readable(kind: AffixType, e: TableEntry) {
    && e.kind == kind && e.maxLength >= 0 && EntriesReadable(e.maxLength, e.affixes, |e.affixes|)
    && forall i :: 0 <= i < |e.affixes| ==> LinkReadable(e.affixes, i)
  }

  /** The first i affixes of the serialized form, still without links. */
  predicate Unlinked(affixes: seq<Affix>, es: seq<Entry>, i: nat)
    requires i <= |es|
  {
    |affixes| == i && forall j :: 0 <= j < i ==> EntryOf(affixes[j]) == es[j].(shorterId := -1)
  }

  predicate LinkReadable(es: seq<Entry>, i: nat)
    requires i < |es|
  {
    if es[i].shorterId == -1 then es[i].length == 1
    else es[i].length > 1 && 0 <= es[i].shorterId < |es| && es[i].length == es[es[i].shorterId].length + 1
  }

  function EntryOf(a: Affix): Entry {
    Entry(a.form, a.length, a.shorter)
  }

  /** The serialized affixes are those of the table, id by id. */
  predicate Written(affixes: seq<Affix>, es: seq<Entry>) {
    |es| == |affixes| && forall i :: 0 <= i < |es| ==> es[i] == EntryOf(affixes[i])
  }

  /** What is written of a linked table passes every check made when it is read. */
  lemma WrittenIsReadable(kind: AffixType, maxLength: nat, affixes: seq<Affix>, e: TableEntry)
    requires DistinctForms(affixes) && Linked(kind, maxLength, affixes, -1)
    requires e.kind == kind && e.maxLength == maxLength && Written(affixes, e.affixes)
    ensures Readable(kind, e)
  {
    forall i: nat | i < |affixes| ensures 0 <= e.affixes[i].length <= e.maxLength && LinkReadable(e.affixes, i) {
      assert Complete(kind, maxLength, affixes, i);
      if affixes[i].length > 1 {
        assert Complete(kind, maxLength, affixes, affixes[i].shorter);
      }
    }
  }

  /** Two tables with the same serialized form mean the same. */
  lemma SameEntrySameTable(kind: AffixType, maxLength: nat, xs: seq<Affix>, ys: seq<Affix>, es: seq<Entry>,
                           words: set<string>)
    requires Written(xs, es) && Written(ys, es)
    requires Linked(kind, maxLength, xs, -1) && Contains(kind, maxLength, xs, words)
    ensures SameAffixes(xs, ys) && Linked(kind, maxLength, ys, -1) && Contains(kind, maxLength, ys, words)
  {
    forall i | 0 <= i < |xs| ensures EntryOf(xs[i]) == EntryOf(ys[i]) {
      assert es[i] == EntryOf(xs[i]);
    }
    forall i: nat | i < |ys| ensures Complete(kind, maxLength, ys, i) {
      assert Complete(kind, maxLength, xs, i);
    }
    forall form ensures Holds(ys, form) <==> Holds(xs, form) {
      if Holds(xs, form) {
        var i :| 0 <= i < |xs| && xs[i].form == form;
        assert ys[i].form == form;
      }
      if Holds(ys, form) {
        var i :| 0 <= i < |ys| && ys[i].form == form;
        assert xs[i].form == form;
      }
    }
  }

  // ----- The table -----

  class AffixTable {
    const kind: AffixType
    const hash: Hash
    var maxLength: nat
    var affixes: seq<Affix>
    var buckets: seq<int>
    /** The words added since the table was reset. */
    ghost var words: set<string>

    ghost predicate Hashed()
      reads this
    {
      Chained(hash, affixes, buckets, |affixes|)
    }

    ghost predicate Valid()
      reads this
    {
      && Hashed() && DistinctForms(affixes) && Linked(kind, maxLength, affixes, -1)
      && Contains(kind, maxLength, affixes, words)
    }

    constructor (kind: AffixType, maxLength: nat, hash: Hash)
      ensures Valid() && affixes == [] && words == {}
      ensures this.kind == kind && this.maxLength == maxLength && this.hash == hash
    {
      this.kind, this.maxLength, this.hash := kind, maxLength, hash;
      affixes, buckets, words := [], [], {};
      new;
      Resize(0);
    }

    method Reset(maxLength: nat)
      modifies this
      ensures Valid() && affixes == [] && words == {} && this.maxLength == maxLength
    {
      this.maxLength := maxLength;
      affixes, buckets, words := [], [], {};
      Resize(0);
    }

    /** Rebuilds the chains over enough buckets, changing nothing else. */
    method Resize(sizeHint: nat)
      modifies this`affixes, this`buckets
      ensures Hashed() && |buckets| >= sizeHint && SameAffixes(affixes, old(affixes))
    {
      var newSize := INITIAL_BUCKETS;
      while newSize < sizeHint
        invariant newSize > 0
      {
        newSize := newSize * 2;
      }
      buckets := seq(newSize, _ => -1);
      for i := 0 to |affixes|
        invariant SameAffixes(affixes, old(affixes)) && |buckets| == newSize
        invariant Chained(hash, affixes, buckets, i)
      {
        var b := Bucket(hash, affixes[i].form, newSize);
        LinkKeepsChained(hash, affixes, buckets, i, affixes[i := affixes[i].(next := buckets[b])], buckets[b := i]);
        affixes := affixes[i := affixes[i].(next := buckets[b])];
        buckets := buckets[b := i];
      }
    }

    /** The id of the affix with the given form, or -1 if there is none. */
    method FindAffix(form: string) returns (id: int)
      requires Hashed()
      ensures id == -1 <==> !Holds(affixes, form)
      ensures id != -1 ==> 0 <= id < |affixes| && affixes[id].form == form
    {
      ghost var b := Bucket(hash, form, |buckets|);
      id := buckets[Bucket(hash, form, |buckets|)];
      assert IsLatest(hash, affixes, |affixes|, b, |buckets|, id);
      while id != -1
        invariant -1 <= id < |affixes| && (id >= 0 ==> Bucket(hash, affixes[id].form, |buckets|) == b)
        invariant forall j :: id < j < |affixes| ==> affixes[j].form != form
        decreases id
      {
        if affixes[id].form == form {
          return;
        }
        assert IsLatest(hash, affixes, id, b, |buckets|, affixes[id].next);
        id := affixes[id].next;
      }
    }

    /** Adds an affix that is not linked to a shorter one yet. */
    method AddNewAffix(form: string, length: nat) returns (id: nat)
      requires Hashed()
      modifies this`affixes, this`buckets
      ensures Hashed() && id == |old(affixes)| && |affixes| == id + 1
      ensures KeptFrom(old(affixes), affixes)
      ensures affixes[id].form == form && affixes[id].length == length && affixes[id].shorter == -1
    {
      id := |affixes|;
      if id > |buckets| * FILL_FACTOR {
        Resize(id);
      }
      var b := Bucket(hash, form, |buckets|);
      ghost var before := affixes;
      var affix := Affix(form, length, -1, -1);
      affixes := affixes + [affix];
      ChainedSame(hash, before, affixes, buckets, id);
      LinkKeepsChained(hash, affixes, buckets, id, affixes[id := affix.(next := buckets[b])], buckets[b := id]);
      affixes := affixes[id := affix.(next := buckets[b])];
      buckets := buckets[b := id];
    }

    method SetShorter(id: nat, shorter: nat)
      requires Hashed() && id < |affixes|
      modifies this`affixes
      ensures Hashed() && affixes == old(affixes)[id := old(affixes)[id].(shorter := shorter)]
    {
      ChainedSame(hash, affixes, affixes[id := affixes[id].(shorter := shorter)], buckets, |affixes|);
      affixes := affixes[id := affixes[id].(shorter := shorter)];
    }

    /** Adds a new affix and links the affix added just before to it, if there is one. */
    method AddBelow(form: string, length: nat, ancestor: int) returns (id: nat)
      requires Hashed() && (ancestor == -1 || 0 <= ancestor == |affixes| - 1)
      modifies this`affixes, this`buckets
      ensures Hashed() && id == |old(affixes)| && Extends(old(affixes), affixes, form, length, ancestor != -1)
    {
      id := AddNewAffix(form, length);
      if ancestor != -1 {
        SetShorter(ancestor, id);
      }
    }

    /** Adds the affixes of the word, the longest first, until one is found in the table. */
    method AddUntilFound(word: string) returns (top: int, ghost low: nat)
      requires Hashed() && DistinctForms(affixes) && Linked(kind, maxLength, affixes, -1)
      modifies this`affixes, this`buckets
      ensures Hashed() && DistinctForms(affixes) && Linked(kind, maxLength, affixes, -1)
      ensures KeptFrom(old(affixes), affixes)
      ensures low <= Longest(word, maxLength)
      ensures Added(kind, affixes, |old(affixes)|, word, Longest(word, maxLength), low)
      ensures top == -1 <==> Longest(word, maxLength) == 0
      ensures top != -1 ==> 0 <= top < |affixes| && affixes[top].form == AffixOf(kind, word, Longest(word, maxLength))
    {
      var affixLen: nat := if |word| > maxLength then maxLength else |word|;
      ghost var longest: nat, n0 := affixLen, |affixes|;
      top := -1;
      var ancestor := -1;
      while affixLen > 0
        invariant affixLen <= longest && Hashed()
        invariant Partial(kind, maxLength, old(affixes), affixes, word, longest, affixLen)
        invariant if affixLen == longest then top == ancestor == -1 else top == n0 && ancestor == |affixes| - 1
      {
        ghost var before := affixes;
        var affix := FindAffix(AffixOf(kind, word, affixLen));
        if affix != -1 {
          if ancestor != -1 {
            SetShorter(ancestor, affix);
          }
          PartialEnds(kind, maxLength, old(affixes), before, affixes, word, longest, affixLen, affix);
          return if top == -1 then affix else top, affixLen;
        }
        affix := AddBelow(AffixOf(kind, word, affixLen), affixLen, ancestor);
        PartialGrows(kind, maxLength, old(affixes), before, affixes, word, longest, affixLen);
        ancestor := affix;
        if top == -1 { top := affix; }
        affixLen := affixLen - 1;
      }
      low := 0;
    }

    /** Adds all affixes of the word and returns the longest one, or -1 if there is none. */
    method AddAffixesForWord(word: string) returns (top: int)
      requires Valid()
      modifies this
      ensures Valid() && words == old(words) + {word} && maxLength == old(maxLength)
      ensures KeptFrom(old(affixes), affixes)
      ensures top == -1 <==> Longest(word, maxLength) == 0
      ensures top != -1 ==> 0 <= top < |affixes| && affixes[top].form == AffixOf(kind, word, Longest(word, maxLength))
    {
      ghost var low;
      top, low := AddUntilFound(word);
      words := words + {word};
      AddedKeepsContents(kind, maxLength, old(affixes), affixes, old(words), word, low, top);
    }

    method Write() returns (entry: TableEntry)
      ensures entry.kind == kind && entry.maxLength == maxLength && Written(affixes, entry.affixes)
    {
      var es := [];
      for i := 0 to |affixes|
        invariant Written(affixes[..i], es)
      {
        es := es + [EntryOf(affixes[i])];
      }
      entry := TableEntry(kind, maxLength, es);
    }

    /** Makes all affixes of the serialized form, without links. */
    method ReadAffixes(es: seq<Entry>) returns (ok: bool)
      requires Hashed() && affixes == []
      modifies this`affixes, this`buckets
      ensures ok <==> EntriesReadable(maxLength, es, |es|)
      ensures ok ==> Hashed() && Unlinked(affixes, es, |es|)
    {
      ok := true;
      for i := 0 to |es|
        invariant ok && Hashed() && Unlinked(affixes, es, i) && EntriesReadable(maxLength, es, i)
      {
        ok := ReadAffix(es, i);
        if !ok {
          return;
        }
      }
    }

    /** Makes one affix of the serialized form, if its length is in range and its form is new. */
    method ReadAffix(es: seq<Entry>, i: nat) returns (ok: bool)
      requires i < |es| && Hashed() && Unlinked(affixes, es, i) && EntriesReadable(maxLength, es, i)
      modifies this`affixes, this`buckets
      ensures ok <==> EntriesReadable(maxLength, es, i + 1)
      ensures ok ==> Hashed() && Unlinked(affixes, es, i + 1)
    {
      if es[i].length < 0 || es[i].length > maxLength {
        return false;
      }
      assert forall j :: 0 <= j < i ==> EntryOf(affixes[j]).form == es[j].form;
      var found := FindAffix(es[i].form);
      if found != -1 {
        return false;
      }
      var id := AddNewAffix(es[i].form, es[i].length);
      return true;
    }

    /** Links the affixes as the serialized form says. */
    method ReadLinks(es: seq<Entry>) returns (ok: bool)
      requires Hashed() && Unlinked(affixes, es, |es|)
      modifies this`affixes
      ensures ok <==> forall i :: 0 <= i < |es| ==> LinkReadable(es, i)
      ensures ok ==> Hashed() && Written(affixes, es)
    {
      for i := 0 to |es|
        invariant Hashed() && |affixes| == |es|
        invariant forall j :: 0 <= j < |es| ==>
                    EntryOf(affixes[j]) == if j < i then es[j] else es[j].(shorterId := -1)
        invariant forall j :: 0 <= j < i ==> LinkReadable(es, j)
      {
        var id := es[i].shorterId;
        if id == -1 {
          if es[i].length != 1 {
            assert !LinkReadable(es, i);
            return false;
          }
        } else {
          if es[i].length <= 1 || id < 0 || id >= |affixes| || affixes[i].length != affixes[id].length + 1 {
            assert EntryOf(affixes[i]).length == es[i].length;
            assert 0 <= id < |es| ==> EntryOf(affixes[id]).length == es[id].length;
            assert !LinkReadable(es, i);
            return false;
          }
          assert EntryOf(affixes[id]).length == es[id].length;
          SetShorter(i, id);
        }
      }
      return true;
    }

    /** Replaces the table by a serialized one; ok tells that every check on it passed. Given the words
        a table of that form holds the affixes of, the table is again valid. */
    method Read(entry: TableEntry, ghost source: seq<Affix>, ghost sourceWords: set<string>) returns (ok: bool)
      modifies this
      ensures ok <==> Readable(kind, entry)
      ensures ok ==>
                Hashed() && DistinctForms(affixes) && Written(affixes, entry.affixes) && maxLength == entry.maxLength
      ensures ok && Written(source, entry.affixes) && Linked(kind, maxLength, source, -1)
              && Contains(kind, maxLength, source, sourceWords) ==>
                Valid() && words == sourceWords && SameAffixes(source, affixes)
    {
      if entry.kind != kind || entry.maxLength < 0 {
        return false;
      }
      Reset(entry.maxLength);
      ok := ReadAffixes(entry.affixes);
      if !ok { return; }
      ok := ReadLinks(entry.affixes);
      if !ok { return; }
      words := sourceWords;
      assert forall i :: 0 <= i < |affixes| ==> entry.affixes[i] == EntryOf(affixes[i]);
      if Written(source, entry.affixes) && Linked(kind, maxLength, source, -1) &&
         Contains(kind, maxLength, source, sourceWords) {
        SameEntrySameTable(kind, maxLength, source, affixes, entry.affixes, sourceWords);
      }
    }
  }

  /** A table survives being written and read back: every affix keeps its id, form, length and link. */
  method WriteThenRead(from: AffixTable, to: AffixTable) returns (ok: bool)
    requires from.Valid() && from != to && from.kind == to.kind
    modifies to
    ensures ok && to.Valid() && to.words == from.words && to.maxLength == from.maxLength
    ensures SameAffixes(from.affixes, to.affixes)
  {
    var entry := from.Write();
    WrittenIsReadable(from.kind, from.maxLength, from.affixes, entry);
    ok := to.Read(entry, from.affixes, from.words);
  }
}
