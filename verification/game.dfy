/**
 * The FreeCell engine of freecell/game.py: the sixteen-slot board, the deal,
 * the grab/place selection, cursor movement, one-card auto-sort, undo, and
 * the lifecycle (playing, confirming a restart, won).
 *
 * Every handler is a pure function. A handler result of `None` is the
 * source's early `return`: nothing changed and the screen is not refreshed.
 * `Some(g')` is a handler that reached `refresh`, which also runs the win test.
 */
module Game {

  import opened Maybe
  import opened Cards
  import opened Stacks

  type Slot = i: int | 0 <= i < 16

  /** Sixteen stacks under one flat index: tableau 0..7, foundations 8..11, buffers 12..15. */
  type Board = b: seq<Stack> | |b| == 16 witness seq(16, _ => Stack(Tableau, []))

  /** Column and row of the cursor; (-1, -1) until the first arrow key. */
  type Cursor = c: (int, int) | c == (-1, -1) || (0 <= c.0 < 8 && 0 <= c.1 < 2) witness (-1, -1)

  /** A committed transfer, recorded as (from, to). */
  datatype Move = Move(src: Slot, dst: Slot)

  /** Idle, or holding a card lifted (logically, not yet removed) from a slot. */
  datatype Selection = Idle | Holding(src: Slot, card: Card)

  datatype Phase = Playing | ConfirmRestart | Won

  datatype Dir = Up | Down | Left | Right

  datatype Command = Arrow(dir: Dir) | Reset | Tab | Esc | Space | Undo

  datatype Game = Game(board: Board, cursor: Cursor, sel: Selection, history: seq<Move>, phase: Phase)

  // ---------------------------------------------------------------- the deal

  /** The 52 cards in the source's order: rank by rank, suits in `Suits` order within a rank. */
  function Deck(): (d: seq<Card>)
    ensures |d| == 52
    ensures forall k :: 0 <= k < 52 ==> 1 <= d[k].rank <= 13 && d[k].h == 0
  {
    seq(52, k requires 0 <= k < 52 => Card(Suits[k % 4], k / 4 + 1, 0))
  }

  /** A possible result of shuffling the deck: the same cards, each as often. */
  predicate IsShuffle(deal: seq<Card>)
  {
    multiset(deal) == multiset(Deck())
  }

  /** Where column `j` starts in the shuffled deck: the source's running index `i`. */
  function DealStart(j: nat): nat
  {
    if j == 0 then 0 else DealStart(j - 1) + (j - 1) + 3
  }

  /** The cards of slots lo..hi-1 stacked one after the other. */
  function Gather(b: seq<Stack>, lo: int, hi: int): seq<Card>
    requires 0 <= lo <= hi <= |b|
    decreases hi - lo
  {
    if lo == hi then [] else Gather(b, lo, hi - 1) + b[hi - 1].cards
  }

  function AllCards(b: Board): seq<Card>
  {
    Gather(b, 0, |b|)
  }

  /** Column j of the deal: the j + 3 cards of the shuffled deck from the running index on. */
  function Column(deal: seq<Card>, j: int): (s: Stack)
    requires |deal| == 52 && 0 <= j < 8
    ensures DealStart(j) + j + 3 <= 52
    ensures s.kind == Tableau && |s.cards| == j + 3
  {
    DealStartBound(8);
    Stack(Tableau, deal[DealStart(j)..DealStart(j) + j + 3])
  }

  /** The freshly dealt board: column j takes the next j + 3 cards, foundations and buffers start empty. */
  function DealBoard(deal: seq<Card>): (b: Board)
    requires |deal| == 52
    ensures forall j :: 0 <= j < 8 ==> b[j] == Column(deal, j)
    ensures forall i :: 8 <= i < 12 ==> b[i] == Stack(Foundation(Suits[i - 8]), [])
    ensures forall i :: 12 <= i < 16 ==> b[i] == Stack(Buffer, [])
  {
    seq(16, i requires 0 <= i < 16 =>
      if i < 8 then Column(deal, i)
      else if i < 12 then Stack(Foundation(Suits[i - 8]), [])
      else Stack(Buffer, []))
  }

  lemma {:induction false} DealStartBound(j: nat)
    requires j <= 8
    ensures DealStart(j) == 3 * j + j * (j - 1) / 2
    ensures forall i :: 0 <= i < j ==> DealStart(i) + i + 3 <= 52
  {
    if j > 0 {
      DealStartBound(j - 1);
      assert DealStart(j) == 3 * j + j * (j - 1) / 2 by {
        assert j * (j - 1) == (j - 1) * (j - 2) + 2 * (j - 1);
      }
      assert DealStart(j - 1) + (j - 1) + 3 == DealStart(j);
    }
  }

  // ---------------------------------------------------------------- win test

  function Min(a: int, b: int): int
  {
    if a <= b then a else b
  }

  lemma MinOfFour(a: int, b: int, c: int, d: int)
    ensures Min(Min(a, b), Min(c, d)) == 14 <==>
      a >= 14 && b >= 14 && c >= 14 && d >= 14 && (a == 14 || b == 14 || c == 14 || d == 14)
  {
  }

  /** The source's win test: the shortest foundation list (placeholder included) has 14 entries. */
  function WinTest(b: Board): (won: bool)
    ensures won <==> (forall i :: 8 <= i < 12 ==> |Listed(b[i])| >= 14) && exists i :: 8 <= i < 12 && |Listed(b[i])| == 14
  {
    var spades, hearts, clubs, diamonds := |Listed(b[8])|, |Listed(b[9])|, |Listed(b[10])|, |Listed(b[11])|;
    MinOfFour(spades, hearts, clubs, diamonds);
    assert forall i :: 8 <= i < 12 ==>
      |Listed(b[i])| == if i == 8 then spades else if i == 9 then hearts else if i == 10 then clubs else diamonds;
    Min(Min(spades, hearts), Min(clubs, diamonds)) == 14
  }

  /** The win half of `refresh`: enter the won phase once the test passes. */
  function Refresh(g: Game): (r: Game)
    ensures r.board == g.board && r.cursor == g.cursor && r.sel == g.sel && r.history == g.history
    ensures r.phase == if WinTest(g.board) then Won else g.phase
  {
    if WinTest(g.board) then g.(phase := Won) else g
  }

  /** A new game on a shuffled deck (`__restart`). */
  function Restart(deal: seq<Card>): (r: Game)
    requires |deal| == 52
    ensures r.phase == Playing && r.cursor == (-1, -1) && r.sel == Idle && r.history == []
    ensures forall j :: 0 <= j < 8 ==> |r.board[j].cards| == j + 3
    ensures forall i :: 8 <= i < 12 ==> Listed(r.board[i]) == [Placeholder(Suits[i - 8])]
    ensures forall i :: 12 <= i < 16 ==> r.board[i].cards == []
  {
    DealStartBound(8);
    Refresh(Game(DealBoard(deal), (-1, -1), Idle, [], Playing))
  }

  // ---------------------------------------------------------------- moves

  /** Push `card` onto `dst`, then pop `src`, in the source's order. */
  function Commit(b: Board, src: Slot, dst: Slot, card: Card): (r: Board)
    requires Push(b[dst], card).Some?
    ensures src != dst ==> r[dst] == Append(b[dst], card) && r[src] == Pop(b[src])
    ensures forall i :: 0 <= i < 16 && i != src && i != dst ==> r[i] == b[i]
  {
    var b1 := b[dst := Push(b[dst], card).value];
    b1[src := Pop(b1[src])]
  }

  /** Take the top of `dst` and append it to `src` without a legality check. */
  function Undone(b: Board, m: Move): (r: Board)
    requires Peek(b[m.dst]).Some?
    ensures m.src != m.dst ==> r[m.dst] == Pop(b[m.dst]) && r[m.src] == Append(b[m.src], Peek(b[m.dst]).value)
    ensures forall i :: 0 <= i < 16 && i != m.src && i != m.dst ==> r[i] == b[i]
  {
    var card := Peek(b[m.dst]).value;
    var b1 := b[m.dst := Pop(b[m.dst])];
    b1[m.src := Append(b1[m.src], card)]
  }

  // ---------------------------------------------------------------- handlers

  function CursorSlot(c: Cursor): Slot
    requires c.0 >= 0 && c.1 >= 0
  {
    c.1 * 8 + c.0
  }

  /** Tab: grab the card under the cursor, or place the held card there. */
  function HandleTab(g: Game): (r: Option<Game>)
    ensures g.cursor.0 < 0 || g.cursor.1 < 0 ==> r.None?
    ensures g.cursor.0 >= 0 && g.cursor.1 >= 0 && g.sel.Idle? ==>
      var cur := CursorSlot(g.cursor);
      match Peek(g.board[cur])
      case None => r.None?
      case Some(c) => r == Some(g.(sel := Holding(cur, c)))
    ensures g.cursor.0 >= 0 && g.cursor.1 >= 0 && g.sel.Holding? ==>
      var cur := CursorSlot(g.cursor);
      if cur == g.sel.src then r == Some(g.(sel := Idle))
      else if Push(g.board[cur], g.sel.card).None? then r.None?
      else r == Some(g.(board := Commit(g.board, g.sel.src, cur, g.sel.card), sel := Idle,
                        history := g.history + [Move(g.sel.src, cur)]))
  {
    if g.cursor.0 < 0 || g.cursor.1 < 0 then None
    else
      var cur := CursorSlot(g.cursor);
      match g.sel
      case Holding(src, card) =>
        if src != cur then
          match Push(g.board[cur], card)
          case None => None
          case Some(_) =>
            Some(g.(board := Commit(g.board, src, cur, card), sel := Idle,
                    history := g.history + [Move(src, cur)]))
        else
          Some(g.(sel := Idle))
      case Idle =>
        match Peek(g.board[cur])
        case None => None
        case Some(c) => Some(g.(sel := Holding(cur, c)))
  }

  /** Esc: release a held card; nothing happens when idle. */
  function HandleEsc(g: Game): (r: Option<Game>)
    ensures g.sel.Idle? <==> r.None?
    ensures r.Some? ==> r.value == g.(sel := Idle)
  {
    if g.sel.Idle? then None else Some(g.(sel := Idle))
  }

  /** Esc right after a grab gives back the game as it was before the grab. */
  lemma GrabThenEsc(g: Game)
    requires g.sel.Idle? && HandleTab(g).Some?
    ensures HandleTab(g).value.sel.Holding?
    ensures HandleTab(g).value.board == g.board && HandleTab(g).value.history == g.history
    ensures HandleEsc(HandleTab(g).value) == Some(g)
  {
  }

  /** The arrow keys on the 2 x 8 grid; the first press from the unset cursor jumps to a fixed cell. */
  function MoveCursor(c: Cursor, d: Dir): (r: Cursor)
    ensures c == (-1, -1) ==>
      r == match d case Left => (7, 0) case Right => (0, 0) case Up => (0, 0) case Down => (0, 1)
    ensures c != (-1, -1) && (d == Left || d == Right) ==>
      r.1 == c.1 && r.0 == (c.0 + (if d == Left then 7 else 1)) % 8
    ensures c != (-1, -1) && (d == Up || d == Down) ==>
      r.0 == c.0 && r.1 == 1 - c.1
  {
    var (x, y) := c;
    if x >= 0 && y >= 0 then
      var x1 := if d == Left then x - 1 else if d == Right then x + 1 else x;
      var y1 := if d == Up then y + 1 else if d == Down then y - 1 else y;
      var x2 := if x1 < 0 then 7 else if x1 > 7 then 0 else x1;
      var y2 := if y1 < 0 then 1 else if y1 > 1 then 0 else y1;
      (x2, y2)
    else
      match d
      case Left => (7, 0)
      case Right => (0, 0)
      case Up => (0, 0)
      case Down => (0, 1)
  }

  /** On a set cursor each arrow is undone by its opposite, and up or down twice comes back. */
  lemma CursorReturns(c: Cursor)
    requires c != (-1, -1)
    ensures MoveCursor(MoveCursor(c, Left), Right) == c
    ensures MoveCursor(MoveCursor(c, Right), Left) == c
    ensures MoveCursor(MoveCursor(c, Up), Down) == c
    ensures MoveCursor(MoveCursor(c, Up), Up) == c
    ensures MoveCursor(MoveCursor(c, Down), Down) == c
  {
  }

  /** The slots auto-sort scans, in order: tableau 0..7, then buffers 12..15. */
  const AutoSources: seq<Slot> := [0, 1, 2, 3, 4, 5, 6, 7, 12, 13, 14, 15]

  /** The first foundation, from slot `j` on, that accepts `card`. */
  function Accepting(b: Board, card: Card, j: int): (r: Option<Slot>)
    requires 8 <= j <= 12
    decreases 12 - j
    ensures r.Some? ==> j <= r.value < 12 && Push(b[r.value], card).Some?
    ensures r.Some? ==> forall k :: j <= k < r.value ==> Push(b[k], card).None?
    ensures r.None? ==> forall k :: j <= k < 12 ==> Push(b[k], card).None?
  {
    if j == 12 then None
    else if Push(b[j], card).Some? then Some(j)
    else Accepting(b, card, j + 1)
  }

  /** Slot `i` shows a top card that some foundation accepts. */
  predicate Sortable(b: Board, i: Slot)
  {
    Peek(b[i]).Some? && Accepting(b, Peek(b[i]).value, 8).Some?
  }

  /** The first true flag at position `n` or later. */
  function FirstTrue(flags: seq<bool>, n: nat): (r: Option<nat>)
    requires n <= |flags|
    decreases |flags| - n
    ensures r.Some? ==> n <= r.value < |flags| && flags[r.value]
    ensures r.Some? ==> forall m :: n <= m < r.value ==> !flags[m]
    ensures r.None? ==> forall m :: n <= m < |flags| ==> !flags[m]
  {
    if n == |flags| then None
    else if flags[n] then Some(n)
    else FirstTrue(flags, n + 1)
  }

  /** For each entry of `AutoSources`, whether its top card can go to a foundation. */
  function SortableFlags(b: Board): (f: seq<bool>)
    ensures |f| == 12
    ensures forall m :: 0 <= m < 12 ==> f[m] == Sortable(b, AutoSources[m])
  {
    seq(12, m requires 0 <= m < 12 => Sortable(b, AutoSources[m]))
  }

  /** The position in `AutoSources`, from `n` on, of the first sortable slot. */
  function FirstSortable(b: Board, n: nat): (r: Option<nat>)
    requires n <= 12
    ensures r.Some? ==> n <= r.value < 12 && Sortable(b, AutoSources[r.value])
    ensures r.Some? ==> forall m :: n <= m < r.value ==> !Sortable(b, AutoSources[m])
    ensures r.None? ==> forall m :: n <= m < 12 ==> !Sortable(b, AutoSources[m])
  {
    FirstTrue(SortableFlags(b), n)
  }

  /** Space: move one eligible top card to the first foundation that takes it. */
  function HandleSpace(g: Game): (r: Option<Game>)
    ensures g.sel.Holding? ==> r.None?
    ensures r.None? <==> g.sel.Holding? || forall m :: 0 <= m < 12 ==> !Sortable(g.board, AutoSources[m])
    ensures r.Some? ==>
      exists m :: 0 <= m < 12 && Sortable(g.board, AutoSources[m]) &&
        (forall m' :: 0 <= m' < m ==> !Sortable(g.board, AutoSources[m'])) &&
        var i := AutoSources[m];
        var card := Peek(g.board[i]).value;
        var j := Accepting(g.board, card, 8).value;
        r.value == g.(board := Commit(g.board, i, j, card), history := g.history + [Move(i, j)])
  {
    if g.sel.Holding? then None
    else
      match FirstSortable(g.board, 0)
      case None => None
      case Some(m) =>
        var i := AutoSources[m];
        var card := Peek(g.board[i]).value;
        var j := Accepting(g.board, card, 8).value;
        Some(g.(board := Commit(g.board, i, j, card), history := g.history + [Move(i, j)]))
  }

  /** Undo is defined when the last move's target still shows a card, as it does in every reachable game. */
  predicate UndoDefined(g: Game)
  {
    g.sel.Idle? && |g.history| > 0 ==> Peek(g.board[g.history[|g.history| - 1].dst]).Some?
  }

  /** Undo: move the last transferred card back and drop the record. */
  function HandleUndo(g: Game): (r: Option<Game>)
    requires UndoDefined(g)
    ensures r.None? <==> g.sel.Holding? || |g.history| == 0
    ensures r.Some? ==> r.value.history == g.history[..|g.history| - 1]
    ensures r.Some? ==> r.value.board == Undone(g.board, g.history[|g.history| - 1])
    ensures r.Some? ==> r.value.sel == g.sel && r.value.cursor == g.cursor && r.value.phase == g.phase
  {
    if g.sel.Holding? || |g.history| == 0 then None
    else
      var m := g.history[|g.history| - 1];
      Some(g.(board := Undone(g.board, m), history := g.history[..|g.history| - 1]))
  }

  /** After a handler: unchanged on an early return, otherwise refreshed (and maybe won). */
  function Settle(g: Game, r: Option<Game>): (s: Game)
    ensures r.None? ==> s == g
    ensures r.Some? ==>
      s.board == r.value.board && s.history == r.value.history && s.sel == r.value.sel && s.cursor == r.value.cursor
    ensures r.Some? ==> s.phase == if WinTest(r.value.board) then Won else r.value.phase
  {
    if r.Some? then Refresh(r.value) else g
  }

  /**
   * One command (`on`). `deal` is the shuffle a restart would use. Won accepts
   * only Reset; ConfirmRestart accepts Reset (restart) and Esc (back to play).
   */
  function Step(g: Game, cmd: Command, deal: seq<Card>): (r: Game)
    requires |deal| == 52 && UndoDefined(g)
    ensures g.phase == Won && cmd != Reset ==> r == g
    ensures g.phase != Playing && cmd == Reset ==> r == Restart(deal)
    ensures g.phase == ConfirmRestart && cmd == Esc ==>
      r.board == g.board && r.phase == (if WinTest(g.board) then Won else Playing)
    ensures g.phase == ConfirmRestart && cmd != Esc && cmd != Reset ==> r == g
    ensures g.phase == Playing && cmd == Reset ==> r == g.(phase := ConfirmRestart)
    ensures g.phase == Playing && cmd != Reset ==> r.phase == Playing || (r.phase == Won && WinTest(r.board))
    ensures cmd.Arrow? && g.phase == Playing ==> r.cursor == MoveCursor(g.cursor, cmd.dir) && r.board == g.board
    ensures g.phase == Playing && (cmd.Arrow? || cmd == Esc || cmd == Reset) ==> r.history == g.history
    ensures g.phase == Playing && (cmd == Tab || cmd == Space) ==>
      r.history == g.history || (|r.history| == |g.history| + 1 && r.history[..|g.history|] == g.history)
    ensures g.phase == Playing && cmd == Undo ==>
      r.history == g.history || (|g.history| > 0 && r.history == g.history[..|g.history| - 1])
  {
    match g.phase
    case Won =>
      if cmd == Reset then Restart(deal) else g
    case ConfirmRestart =>
      if cmd == Reset then Restart(deal)
      else if cmd == Esc then Refresh(g.(phase := Playing))
      else g
    case Playing =>
      match cmd
      case Reset => g.(phase := ConfirmRestart)
      case Tab => Settle(g, HandleTab(g))
      case Esc => Settle(g, HandleEsc(g))
      case Arrow(d) => Refresh(g.(cursor := MoveCursor(g.cursor, d)))
      case Space => Settle(g, HandleSpace(g))
      case Undo => Settle(g, HandleUndo(g))
  }

}
