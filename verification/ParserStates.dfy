/** The parser state: a stack, an input position and the partial tree built so far. */
module ParserStates {
  import opened HeadGraph

  const ROOT_LABEL := "ROOT"
  const DEFAULT_ROOT_LABEL := -1

  /** An annotated sentence with the label dictionary used to number its labels. */
  datatype Gold = Gold(heads: Heads, labels: seq<string>, labelMap: map<string, nat>) {
    predicate Valid() {
      ValidHeads(heads) && |labels| == |heads|
    }

    function Size(): nat {
      |heads|
    }

    function LookupIndex(term: string, unknown: int): int {
      if term in labelMap then labelMap[term] else unknown
    }

    function RootLabel(): int {
      LookupIndex(ROOT_LABEL, DEFAULT_ROOT_LABEL)
    }

    function GoldHead(i: int): int
      requires -1 <= i < Size()
    {
      if i == -1 then -1 else heads[i]
    }

    function GoldLabel(i: int): int
      requires Valid() && -1 <= i < Size()
    {
      if i == -1 then RootLabel() else LookupIndex(labels[i], RootLabel())
    }
  }

  /** A snapshot of the fields of a parser state. */
  datatype Config = Config(next: nat, stack: seq<int>, head: seq<int>, arcLabel: seq<int>)

  class ParserState {
    const gold: Gold
    var next: nat
    var stack: seq<int>
    var head: seq<int>
    var arcLabel: seq<int>

    ghost predicate Valid()
      reads this
    {
      gold.Valid() && next <= gold.Size() && |head| == |arcLabel| == gold.Size()
    }

    function View(): Config
      reads this
    {
      Config(next, stack, head, arcLabel)
    }

    constructor (gold: Gold)
      requires gold.Valid()
      ensures Valid() && this.gold == gold
      ensures View() == Config(0, [], seq(gold.Size(), _ => -1), seq(gold.Size(), _ => gold.RootLabel()))
    {
      this.gold := gold;
      next, stack := 0, [];
      head := seq(gold.Size(), _ => -1);
      arcLabel := seq(gold.Size(), _ => gold.RootLabel());
    }

    method Advance()
      requires Valid() && next < gold.Size()
      modifies this
      ensures Valid() && View() == old(View()).(next := old(next) + 1)
    {
      next := next + 1;
    }

    method Push(index: int)
      requires Valid() && |stack| <= gold.Size()
      modifies this
      ensures Valid() && View() == old(View()).(stack := old(stack) + [index])
    {
      stack := stack + [index];
    }

    method Pop() returns (result: int)
      requires Valid() && stack != []
      modifies this
      ensures Valid() && View() == old(View()).(stack := old(stack)[..|old(stack)| - 1])
      ensures result == old(stack)[|old(stack)| - 1]
    {
      result := stack[|stack| - 1];
      stack := stack[..|stack| - 1];
    }

    /** The element at a position counted from the top of the stack, or -2. */
    function Stack(position: int): int
      reads this
    {
      if position < 0 || position >= |stack| then -2 else stack[|stack| - 1 - position]
    }

    method AddArc(index: int, newHead: int, newLabel: int)
      requires Valid() && 0 <= index < gold.Size()
      modifies this
      ensures Valid()
      ensures View() == old(View()).(head := old(head)[index := newHead], arcLabel := old(arcLabel)[index := newLabel])
    {
      head := head[index := newHead];
      arcLabel := arcLabel[index := newLabel];
    }

    predicate EndOfInput()
      reads this
    {
      next == gold.Size()
    }
  }
}
