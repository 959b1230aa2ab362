/**
 * Suits, cards and the five-line card face (freecell/common.py).
 */
module Cards {

  import opened Maybe
  import opened Text

  datatype Suit = Spades | Hearts | Clubs | Diamonds

  /** The suit order used for the deck, the foundations and the celebration. */
  const Suits: seq<Suit> := [Spades, Hearts, Clubs, Diamonds]

  function SuitIndex(s: Suit): (i: nat)
    ensures i < 4 && Suits[i] == s
  {
    match s
    case Spades => 0
    case Hearts => 1
    case Clubs => 2
    case Diamonds => 3
  }

  /** The suit's colour class; two cards alternate colour when their classes differ. */
  function Class(s: Suit): (k: int)
    ensures k == 0 <==> Colour(s) == Blue
    ensures k == 1 <==> Colour(s) == Red
  {
    match s
    case Spades => 0
    case Hearts => 1
    case Clubs => 0
    case Diamonds => 1
  }

  function Colour(s: Suit): Color
  {
    if s == Spades || s == Clubs then Blue else Red
  }

  function Symbol(s: Suit): char
  {
    match s
    case Spades => '♠'
    case Hearts => '♥'
    case Clubs => '♣'
    case Diamonds => '♦'
  }

  /** Exactly two suits fall in each colour class. */
  lemma ClassesPaired()
    ensures (set s | s in Suits && Class(s) == 0) == {Spades, Clubs}
    ensures (set s | s in Suits && Class(s) == 1) == {Hearts, Diamonds}
    ensures |set s | s in Suits && Class(s) == 0| == 2
    ensures |set s | s in Suits && Class(s) == 1| == 2
  {
    assert (set s | s in Suits && Class(s) == 0) == {Spades, Clubs};
    assert (set s | s in Suits && Class(s) == 1) == {Hearts, Diamonds};
  }

  /** A card; `h == 1` marks a highlighted (reverse-video) rendering. Rank 0 is a foundation placeholder. */
  datatype Card = Card(suit: Suit, rank: int, h: int)

  /** Highlighting marks a card as shown in reverse video; a card already highlighted stays as it is. */
  function Highlight(c: Card): (r: Card)
    ensures r.suit == c.suit && r.rank == c.rank && r.h == 1
    ensures c.h == 1 ==> r == c
  {
    Card(c.suit, c.rank, 1)
  }

  /** Reads a rank label back; the inverse of `RankLabel` on ranks 1..13. */
  function ParseRank(s: string): int
  {
    if s == "A" then 1
    else if s == "J" then 11
    else if s == "Q" then 12
    else if s == "K" then 13
    else if s == "10" then 10
    else if |s| == 1 && '2' <= s[0] <= '9' then s[0] as int - '0' as int
    else 0
  }

  /** The rank as printed in a card's corners; anything outside 1..13 prints as a blank. */
  function RankLabel(rank: int): (s: string)
    ensures 1 <= |s| <= 2
    ensures s == " " <==> !(1 <= rank <= 13)
    ensures 1 <= rank <= 13 ==> ParseRank(s) == rank
  {
    if rank == 1 then "A"
    else if rank == 11 then "J"
    else if rank == 12 then "Q"
    else if rank == 13 then "K"
    else if 2 <= rank <= 10 then
      (if rank == 10 then "10" else [('0' as int + rank) as char])
    else " "
  }

  /** The symbol printed for an optional suit: a suitless card shows a blank. */
  function SymbolOf(suit: Option<Suit>): char
  {
    if suit.Some? then Symbol(suit.value) else ' '
  }

  /** The visible text of a card face, before any colouring. */
  function FaceText(suit: Option<Suit>, rank: int): (r: seq<string>)
    ensures |r| == 5
    ensures forall i :: 0 <= i < 5 ==> |r[i]| == 9
  {
    var rankText := RankLabel(rank);
    var sym := SymbolOf(suit);
    ["┌───────┐",
     "│ " + LeftJustify(rankText, 4) + [sym] + " │",
     "│   " + [sym] + "   │",
     "│ " + [sym] + RightJustify(rankText, 4) + " │",
     "└───────┘"]
  }

  /** The suit symbol runs down the diagonal of the face; the rank reads left-justified at the top and right-justified at the bottom. */
  lemma FaceLayout(suit: Option<Suit>, rank: int)
    ensures FaceText(suit, rank)[1][6] == FaceText(suit, rank)[2][4] == FaceText(suit, rank)[3][2] == SymbolOf(suit)
    ensures FaceText(suit, rank)[1][2..6] == LeftJustify(RankLabel(rank), 4)
    ensures FaceText(suit, rank)[3][3..7] == RightJustify(RankLabel(rank), 4)
  {
  }

  /**
   * The wrappers on every line of a card, innermost first: the suit colour
   * when there is a suit, then reverse video when highlighted. Each line is a
   * single f-string, so it is a single span.
   */
  function Style(suit: Option<Suit>, h: int): seq<Wrapper>
  {
    (if suit.Some? then [Fore(Colour(suit.value))] else []) + (if h == 1 then [Reverse] else [])
  }

  /** The five rendered lines of a card. */
  function Face(suit: Option<Suit>, rank: int, h: int): (r: seq<Line>)
    ensures |r| == 5
    ensures forall i :: 0 <= i < 5 ==> Visible(r[i]) == FaceText(suit, rank)[i]
    ensures Uniform(r, 9)
  {
    var text := FaceText(suit, rank);
    seq(5, i requires 0 <= i < 5 => [Span(text[i], Style(suit, h))])
  }

  function Render(c: Card): (r: seq<Line>)
    ensures |r| == 5 && Uniform(r, 9)
  {
    Face(Some(c.suit), c.rank, c.h)
  }

  /** Highlighting keeps suit and rank and wraps each plain line in reverse video. */
  lemma HighlightReverses(c: Card)
    ensures Highlight(c).suit == c.suit && Highlight(c).rank == c.rank && Highlight(c).h == 1
    ensures |Render(Highlight(c))| == 5
    ensures forall i :: 0 <= i < 5 ==>
      Render(Highlight(c))[i] == Wrap(Reverse, Render(Card(c.suit, c.rank, 0))[i])
  {
    var text := FaceText(Some(c.suit), c.rank);
    var fore := Fore(Colour(c.suit));
    forall i | 0 <= i < 5
      ensures Render(Highlight(c))[i] == Wrap(Reverse, Render(Card(c.suit, c.rank, 0))[i])
    {
      var plain := Render(Card(c.suit, c.rank, 0))[i];
      assert Style(Some(c.suit), 0) == [fore];
      assert Style(Some(c.suit), 1) == [fore, Reverse];
      assert plain == Face(Some(c.suit), c.rank, 0)[i] == [Span(text[i], [fore])];
      assert Render(Highlight(c))[i] == Face(Some(c.suit), c.rank, 1)[i] == [Span(text[i], [fore, Reverse])];
      var w := Wrap(Reverse, plain);
      assert w == [Span(plain[0].text, plain[0].wrappers + [Reverse])];
    }
  }

  /** A suitless card shows blanks for its symbol and carries no colour wrapper. */
  lemma SuitlessBlank(rank: int, h: int)
    ensures FaceText(None, rank)[2] == "│       │"
    ensures forall i :: 0 <= i < 5 ==> Face(None, rank, h)[i][0].wrappers == (if h == 1 then [Reverse] else [])
  {
    var text := FaceText(None, rank);
    assert text[2] == "│   " + [' '] + "   │";
    forall i | 0 <= i < 5
      ensures Face(None, rank, h)[i][0].wrappers == (if h == 1 then [Reverse] else [])
    {
      assert Face(None, rank, h)[i] == [Span(text[i], Style(None, h))];
    }
  }

}
