/**
 * The three stack variants of freecell/game.py: tableau columns, foundations
 * and one-card buffers (free cells). Each exposes peek, pop and push; a
 * rejected push leaves the stack as it was.
 *
 * A foundation's rank-0 placeholder is not kept in `cards`: it is implied by
 * the kind. `Listed` restores the list exactly as the source stores it.
 */
module Stacks {

  import opened Maybe
  import opened Cards

  datatype Kind = Tableau | Foundation(seed: Suit) | Buffer

  datatype Stack = Stack(kind: Kind, cards: seq<Card>)

  /** The placeholder a foundation is seeded with. */
  function Placeholder(s: Suit): Card
  {
    Card(s, 0, 0)
  }

  /** The stack's list of cards as the source keeps it: a foundation's starts with its placeholder. */
  function Listed(s: Stack): seq<Card>
  {
    if s.kind.Foundation? then [Placeholder(s.kind.seed)] + s.cards else s.cards
  }

  /** How many entries at the bottom of the listed cards peek and pop never reach. */
  function Reserved(k: Kind): nat
  {
    if k.Foundation? then 1 else 0
  }

  function Last(cards: seq<Card>): Card
    requires |cards| > 0
  {
    cards[|cards| - 1]
  }

  /** The top real card, if any; a foundation never exposes its placeholder. */
  function Peek(s: Stack): (r: Option<Card>)
    ensures r.Some? <==> |Listed(s)| > Reserved(s.kind)
    ensures r.Some? ==> r.value == Last(Listed(s))
    ensures r.Some? <==> s.cards != []
    ensures r.Some? ==> r.value == Last(s.cards)
  {
    if |s.cards| > 0 then Some(Last(s.cards)) else None
  }

  /** Removes the top real card; with none, the stack is left as it was. */
  function Pop(s: Stack): (r: Stack)
    ensures r.kind == s.kind
    ensures |Listed(s)| > Reserved(s.kind) ==> Listed(r) + [Peek(s).value] == Listed(s)
    ensures |Listed(s)| <= Reserved(s.kind) ==> r == s
    ensures s.cards != [] ==> r.cards + [Last(s.cards)] == s.cards
    ensures s.cards == [] ==> r == s
  {
    if |s.cards| > 0 then Stack(s.kind, s.cards[..|s.cards| - 1]) else s
  }

  /** Appends without any legality check (the source's `Stack.append`). */
  function Append(s: Stack, c: Card): (r: Stack)
    ensures r.kind == s.kind && Listed(r) == Listed(s) + [c]
  {
    Stack(s.kind, s.cards + [c])
  }

  /**
   * Pushes `c` if the kind's rule allows it: a tableau takes any card when
   * empty, otherwise one rank lower in the other colour class; a foundation
   * takes the next rank of its own suit; a buffer takes a card only when empty.
   */
  function Push(s: Stack, c: Card): (r: Option<Stack>)
    ensures r.Some? ==> r.value == Append(s, c)
    ensures s.kind.Tableau? ==>
      (r.Some? <==> |Listed(s)| == 0 ||
                    (Last(Listed(s)).rank == c.rank + 1 && Class(Last(Listed(s)).suit) != Class(c.suit)))
    ensures s.kind.Foundation? ==>
      (r.Some? <==> Last(Listed(s)).rank == c.rank - 1 && Last(Listed(s)).suit == c.suit)
    ensures s.kind.Buffer? ==> (r.Some? <==> |Listed(s)| == 0)
  {
    match s.kind
    case Tableau =>
      if |s.cards| > 0 && (Last(s.cards).rank != c.rank + 1 || Class(Last(s.cards).suit) == Class(c.suit))
      then None
      else Some(Append(s, c))
    case Foundation(seed) =>
      var top := if |s.cards| > 0 then Last(s.cards) else Placeholder(seed);
      if top.rank != c.rank - 1 || top.suit != c.suit then None else Some(Append(s, c))
    case Buffer =>
      if |s.cards| > 0 then None else Some(Append(s, c))
  }

  /** A foundation holds its placeholder followed by ranks 1..k of its seed suit. */
  predicate FoundationOk(s: Stack)
  {
    s.kind.Foundation? ==>
      forall i :: 0 <= i < |Listed(s)| ==> Listed(s)[i].suit == s.kind.seed && Listed(s)[i].rank == i
  }

  /** A buffer holds at most one card. */
  predicate BufferOk(s: Stack)
  {
    s.kind.Buffer? ==> |s.cards| <= 1
  }

  predicate StackOk(s: Stack)
  {
    FoundationOk(s) && BufferOk(s)
  }

  /** Pop undoes an accepted push: the pushed card is on top and popping it restores the stack. */
  lemma PushPop(s: Stack, c: Card)
    requires Push(s, c).Some?
    ensures Peek(Push(s, c).value) == Some(c)
    ensures Pop(Push(s, c).value) == s
  {
    assert (s.cards + [c])[..|s.cards|] == s.cards;
  }

  /** Appending the card just popped restores the stack. */
  lemma PopAppend(s: Stack)
    requires Peek(s).Some?
    ensures Append(Pop(s), Peek(s).value) == s
  {
  }

  /** Accepted pushes and pops keep foundations ordered and buffers at one card. */
  lemma PushKeepsOk(s: Stack, c: Card)
    requires StackOk(s) && Push(s, c).Some?
    ensures StackOk(Push(s, c).value)
  {
    var t := Push(s, c).value;
    if s.kind.Foundation? {
      assert Listed(t) == Listed(s) + [c];
      assert Last(Listed(s)).rank == |Listed(s)| - 1;
    }
  }

  lemma PopKeepsOk(s: Stack)
    requires StackOk(s)
    ensures StackOk(Pop(s))
  {
    if s.kind.Foundation? && |s.cards| > 0 {
      assert Listed(Pop(s)) == Listed(s)[..|Listed(s)| - 1];
    }
  }

}
