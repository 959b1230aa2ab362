/**
 * What every reachable game of freecell/game.py satisfies, and what follows:
 * undo exactly reverses the last committed move, the 52 cards are conserved,
 * and the won phase coincides with all four foundations being complete.
 */
module Invariants {

  import opened Maybe
  import opened Cards
  import opened Stacks
  import opened Game

  // ---------------------------------------------------------------- the deck

  /** The deck holds every suit and rank 1..13 once, and nothing else. */
  lemma DeckComplete()
    ensures forall c :: c in Deck() <==> 1 <= c.rank <= 13 && c.h == 0
    ensures forall a, b :: 0 <= a < b < 52 ==> Deck()[a] != Deck()[b]
  {
    var d := Deck();
    forall c: Card | 1 <= c.rank <= 13 && c.h == 0
      ensures c in d
    {
      var k := 4 * (c.rank - 1) + SuitIndex(c.suit);
      assert k % 4 == SuitIndex(c.suit) && k / 4 == c.rank - 1;
      assert d[k] == c;
    }
  }

  // ---------------------------------------------------------------- gathering cards

  lemma {:induction false} GatherSame(b: seq<Stack>, i: int, s: Stack, lo: int, hi: int)
    requires 0 <= lo <= hi <= |b| && 0 <= i < |b|
    requires !(lo <= i < hi)
    ensures Gather(b[i := s], lo, hi) == Gather(b, lo, hi)
    decreases hi - lo
  {
    if lo < hi {
      GatherSame(b, i, s, lo, hi - 1);
    }
  }
  lemma {:induction false} GatherMember(b: seq<Stack>, k: int, lo: int, hi: int)
    requires 0 <= lo <= k < hi <= |b|
    ensures forall c :: c in b[k].cards ==> c in Gather(b, lo, hi)
    decreases hi - lo
  {
    if k < hi - 1 {
      GatherMember(b, k, lo, hi - 1);
    }
  }

  lemma {:induction false} GatherSplit(b: seq<Stack>, lo: int, mid: int, hi: int)
    requires 0 <= lo <= mid <= hi <= |b|
    ensures Gather(b, lo, hi) == Gather(b, lo, mid) + Gather(b, mid, hi)
    decreases hi - mid
  {
    if mid < hi {
      GatherSplit(b, lo, mid, hi - 1);
    }
  }

  /** The cards of all stacks, written around stack i. */
  lemma AroundSlot(b: seq<Stack>, i: int)
    requires 0 <= i < |b|
    ensures Gather(b, 0, |b|) == Gather(b, 0, i) + b[i].cards + Gather(b, i + 1, |b|)
  {
    GatherSplit(b, 0, i, |b|);
    GatherSplit(b, i, i + 1, |b|);
    assert Gather(b, i, i + 1) == b[i].cards;
  }

  /** The cards of all stacks after stack i is replaced. */
  lemma Replaced(b: seq<Stack>, i: int, s: Stack)
    requires 0 <= i < |b|
    ensures Gather(b[i := s], 0, |b|) == Gather(b, 0, i) + s.cards + Gather(b, i + 1, |b|)
  {
    AroundSlot(b[i := s], i);
    GatherSame(b, i, s, 0, i);
    GatherSame(b, i, s, i + 1, |b|);
  }

  lemma {:induction false} GatherEmpty(b: seq<Stack>, lo: int, hi: int)
    requires 0 <= lo <= hi <= |b| && Gather(b, lo, hi) == []
    ensures forall k :: lo <= k < hi ==> b[k].cards == []
    decreases hi - lo
  {
    if lo < hi {
      GatherEmpty(b, lo, hi - 1);
    }
  }

  /** The deal lays the shuffled deck out column by column, in order, on the tableau only. */
  lemma DealPartitions(deal: seq<Card>)
    requires |deal| == 52
    ensures Gather(DealBoard(deal), 0, 8) == deal
    ensures AllCards(DealBoard(deal)) == deal
  {
    var b := DealBoard(deal);
    DealStartBound(8);
    DealPrefix(deal, 8);
    assert deal[..52] == deal;
    GatherSplit(b, 0, 8, |b|);
    GatherEmptyTail(b, 8, |b|);
  }

  lemma {:induction false} DealPrefix(deal: seq<Card>, j: nat)
    requires |deal| == 52 && j <= 8
    ensures DealStart(j) <= 52
    ensures Gather(DealBoard(deal), 0, j) == deal[..DealStart(j)]
  {
    DealStartBound(8);
    if j > 0 {
      DealPrefix(deal, j - 1);
      var b := DealBoard(deal);
      assert b[j - 1].cards == deal[DealStart(j - 1)..DealStart(j)];
      SliceJoin(deal, DealStart(j - 1), DealStart(j));
    }
  }

  lemma SliceJoin<T>(s: seq<T>, i: int, j: int)
    requires 0 <= i <= j <= |s|
    ensures s[..i] + s[i..j] == s[..j]
  {
  }

  lemma {:induction false} GatherEmptyTail(b: Board, lo: int, hi: int)
    requires 8 <= lo <= hi <= 16
    requires forall i :: 8 <= i < 16 ==> b[i].cards == []
    ensures Gather(b, lo, hi) == []
    decreases hi - lo
  {
    if lo < hi {
      GatherEmptyTail(b, lo, hi - 1);
    }
  }

  // ---------------------------------------------------------------- the invariant

  /** Each slot has the kind its index promises; foundations follow the suit order. */
  predicate LayoutOk(b: Board)
  {
    && (forall i :: 0 <= i < 8 ==> b[i].kind == Tableau)
    && (forall i :: 8 <= i < 12 ==> b[i].kind == Foundation(Suits[i - 8]))
    && (forall i :: 12 <= i < 16 ==> b[i].kind == Buffer)
  }

  /** The board holds exactly the 52 cards of the deck. */
  predicate Conserved(b: Board)
  {
    multiset(AllCards(b)) == multiset(Deck())
  }

  predicate BoardOk(b: Board)
  {
    LayoutOk(b) && (forall i :: 0 <= i < 16 ==> StackOk(b[i])) && Conserved(b)
  }

  /** A held card is still the top card of its source. */
  predicate HoldOk(g: Game)
  {
    g.sel.Holding? ==> Peek(g.board[g.sel.src]) == Some(g.sel.card)
  }

  /** Undoing the history record by record never fails and passes only through sound boards. */
  predicate Replayable(b: Board, h: seq<Move>)
    decreases |h|
  {
    |h| == 0 ||
    (var m := h[|h| - 1];
     && m.src != m.dst
     && Peek(b[m.dst]).Some?
     && BoardOk(Undone(b, m))
     && Replayable(Undone(b, m), h[..|h| - 1]))
  }

  predicate Valid(g: Game)
  {
    && BoardOk(g.board)
    && HoldOk(g)
    && Replayable(g.board, g.history)
    && (g.phase == Won <==> WinTest(g.board))
  }

  /** A shuffle has the deck's 52 cards. */
  lemma ShuffleSize(deal: seq<Card>)
    requires IsShuffle(deal)
    ensures |deal| == 52
  {
    assert |multiset(deal)| == |multiset(Deck())|;
  }

  /** The dealt board is sound, holds exactly the shuffled cards, and is not won. */
  lemma DealOk(deal: seq<Card>)
    requires IsShuffle(deal)
    ensures |deal| == 52
    ensures BoardOk(DealBoard(deal)) && !WinTest(DealBoard(deal))
  {
    ShuffleSize(deal);
    var b := DealBoard(deal);
    assert LayoutOk(b);
    assert forall i :: 0 <= i < 16 ==> StackOk(b[i]) by {
      assert forall i :: 8 <= i < 12 ==> Listed(b[i]) == [Placeholder(Suits[i - 8])];
    }
    assert Conserved(b) by {
      DealPartitions(deal);
    }
    assert |Listed(b[8])| == 1;
  }

  /** A fresh game is valid, and its board holds each card of the deck exactly once. */
  lemma RestartValid(deal: seq<Card>)
    requires IsShuffle(deal)
    ensures |deal| == 52
    ensures Valid(Restart(deal))
    ensures Gather(Restart(deal).board, 0, 8) == deal
    ensures forall c :: multiset(AllCards(Restart(deal).board))[c] == if c in Deck() then 1 else 0
  {
    DealOk(deal);
    DealPartitions(deal);
    assert Restart(deal).board == DealBoard(deal);
    DeckOnce();
  }

  /** No card occurs twice in the deck. */
  lemma DeckOnce()
    ensures forall c :: multiset(Deck())[c] == if c in Deck() then 1 else 0
  {
    DeckComplete();
    DistinctOnce(Deck());
  }

  lemma {:induction false} DistinctOnce(s: seq<Card>)
    requires forall a, b :: 0 <= a < b < |s| ==> s[a] != s[b]
    ensures forall c :: multiset(s)[c] == if c in s then 1 else 0
    decreases |s|
  {
    if |s| > 0 {
      var t := s[..|s| - 1];
      assert s == t + [s[|s| - 1]];
      DistinctOnce(t);
      assert s[|s| - 1] !in t;
    }
  }

  lemma ValidUndoDefined(g: Game)
    requires Valid(g)
    ensures UndoDefined(g)
  {
  }

  // ---------------------------------------------------------------- committed moves

  /** Undo immediately after a committed move gives back the exact board. */
  lemma CommitUndone(b: Board, src: Slot, dst: Slot, card: Card)
    requires src != dst && Peek(b[src]) == Some(card) && Push(b[dst], card).Some?
    ensures Peek(Commit(b, src, dst, card)[dst]).Some?
    ensures Undone(Commit(b, src, dst, card), Move(src, dst)) == b
  {
    var b' := Commit(b, src, dst, card);
    PushPop(b[dst], card);
    PopAppend(b[src]);
    var u := Undone(b', Move(src, dst));
    assert forall i :: 0 <= i < 16 ==> u[i] == b[i];
  }

  /** Inserting one element anywhere in a sequence adds it to the multiset. */
  lemma InsertOne<T>(p: seq<T>, x: seq<T>, q: seq<T>, c: T)
    ensures multiset(p + (x + [c]) + q) == multiset(p + x + q) + multiset{c}
  {
    calc {
      multiset(p + (x + [c]) + q);
      multiset(p) + (multiset(x) + multiset{c}) + multiset(q);
      multiset(p) + multiset(x) + multiset(q) + multiset{c};
      multiset(p + x + q) + multiset{c};
    }
  }

  /** Putting one more card on a stack adds exactly that card to the cards gathered. */
  lemma AddsCard(b: seq<Stack>, i: int, s: Stack, card: Card)
    requires 0 <= i < |b| && s.cards == b[i].cards + [card]
    ensures multiset(Gather(b[i := s], 0, |b|)) == multiset(Gather(b, 0, |b|)) + multiset{card}
  {
    Replaced(b, i, s);
    AroundSlot(b, i);
    InsertOne(Gather(b, 0, i), b[i].cards, Gather(b, i + 1, |b|), card);
  }

  /** Taking the top card off a stack removes exactly that card from the cards gathered. */
  lemma RemovesCard(b: seq<Stack>, i: int, s: Stack, card: Card)
    requires 0 <= i < |b| && b[i].cards == s.cards + [card]
    ensures multiset(Gather(b[i := s], 0, |b|)) + multiset{card} == multiset(Gather(b, 0, |b|))
  {
    Replaced(b, i, s);
    AroundSlot(b, i);
    InsertOne(Gather(b, 0, i), s.cards, Gather(b, i + 1, |b|), card);
  }

  lemma CancelOne<T>(x: multiset<T>, z: multiset<T>, c: T)
    requires z + multiset{c} == x + multiset{c}
    ensures z == x
  {
    assert z == (z + multiset{c}) - multiset{c};
  }

  /** Moving one card from the top of one stack onto another keeps the same cards overall. */
  lemma MoveConserves(b: seq<Stack>, src: int, dst: int, pushed: Stack, popped: Stack, card: Card)
    requires 0 <= src < |b| && 0 <= dst < |b| && src != dst
    requires pushed.cards == b[dst].cards + [card] && b[src].cards == popped.cards + [card]
    ensures multiset(Gather(b[dst := pushed][src := popped], 0, |b|)) == multiset(Gather(b, 0, |b|))
  {
    var b1 := b[dst := pushed];
    AddsCard(b, dst, pushed, card);
    RemovesCard(b1, src, popped, card);
    CancelOne(multiset(Gather(b, 0, |b|)), multiset(Gather(b1[src := popped], 0, |b|)), card);
  }

  /** A committed move keeps the same 52 cards on the board. */
  lemma CommitConserves(b: Board, src: Slot, dst: Slot, card: Card)
    requires src != dst && Peek(b[src]) == Some(card) && Push(b[dst], card).Some?
    ensures multiset(AllCards(Commit(b, src, dst, card))) == multiset(AllCards(b))
  {
    var pushed := Push(b[dst], card).value;
    MoveConserves(b, src, dst, pushed, Pop(b[src]), card);
  }

  lemma CommitLayout(b: Board, src: Slot, dst: Slot, card: Card)
    requires LayoutOk(b) && src != dst && Push(b[dst], card).Some?
    ensures LayoutOk(Commit(b, src, dst, card))
  {
    var r := Commit(b, src, dst, card);
    assert r[src].kind == b[src].kind && r[dst].kind == b[dst].kind;
  }

  lemma CommitStacks(b: Board, src: Slot, dst: Slot, card: Card)
    requires forall i :: 0 <= i < 16 ==> StackOk(b[i])
    requires src != dst && Push(b[dst], card).Some?
    ensures forall i :: 0 <= i < 16 ==> StackOk(Commit(b, src, dst, card)[i])
  {
    PushKeepsOk(b[dst], card);
    PopKeepsOk(b[src]);
  }

  /** A committed move keeps the layout, every stack's own rules, and the 52 cards. */
  lemma CommitOk(b: Board, src: Slot, dst: Slot, card: Card)
    requires BoardOk(b)
    requires src != dst && Peek(b[src]) == Some(card) && Push(b[dst], card).Some?
    ensures BoardOk(Commit(b, src, dst, card))
  {
    CommitLayout(b, src, dst, card);
    CommitStacks(b, src, dst, card);
    CommitConserves(b, src, dst, card);
  }

  /** After a committed move the extended history can still be undone all the way back. */
  lemma CommitReplayable(b: Board, h: seq<Move>, src: Slot, dst: Slot, card: Card)
    requires BoardOk(b) && Replayable(b, h)
    requires src != dst && Peek(b[src]) == Some(card) && Push(b[dst], card).Some?
    ensures Replayable(Commit(b, src, dst, card), h + [Move(src, dst)])
  {
    var h' := h + [Move(src, dst)];
    CommitUndone(b, src, dst, card);
    assert h'[..|h'| - 1] == h;
    assert h'[|h'| - 1] == Move(src, dst);
  }

  /** A committed move during play keeps the game valid and records a move that undo can reverse. */
  lemma CommitValid(g: Game, src: Slot, dst: Slot, card: Card)
    requires Valid(g) && g.phase != Won
    requires src != dst && Peek(g.board[src]) == Some(card) && Push(g.board[dst], card).Some?
    ensures Valid(Refresh(g.(board := Commit(g.board, src, dst, card), sel := Idle,
                             history := g.history + [Move(src, dst)])))
  {
    CommitOk(g.board, src, dst, card);
    CommitReplayable(g.board, g.history, src, dst, card);
  }

  // ---------------------------------------------------------------- winning

  /** A sound foundation never holds more than the 13 cards of its suit. */
  lemma FoundationBound(b: Board, i: int)
    requires BoardOk(b) && 8 <= i < 12
    ensures |b[i].cards| <= 13
    ensures |Listed(b[i])| == |b[i].cards| + 1
  {
    assert b[i].kind == Foundation(Suits[i - 8]);
    var n := |b[i].cards|;
    if n > 0 {
      var top := b[i].cards[n - 1];
      assert Listed(b[i])[n] == top;
      assert top.rank == n;
      assert top in AllCards(b) by {
        GatherMember(b, i, 0, |b|);
      }
      assert top in multiset(Deck());
      DeckComplete();
    }
  }

  /** Under the invariant, the source's min-length test means every foundation holds all 13 of its suit. */
  lemma WinMeansComplete(b: Board)
    requires BoardOk(b)
    ensures WinTest(b) <==> forall i :: 8 <= i < 12 ==> |b[i].cards| == 13
  {
    FoundationBound(b, 8);
    FoundationBound(b, 9);
    FoundationBound(b, 10);
    FoundationBound(b, 11);
    MinAll(|Listed(b[8])|, |Listed(b[9])|, |Listed(b[10])|, |Listed(b[11])|, 14);
    if |b[8].cards| == 13 && |b[9].cards| == 13 && |b[10].cards| == 13 && |b[11].cards| == 13 {
      forall i | 8 <= i < 12
        ensures |b[i].cards| == 13
      {
        assert i == 8 || i == 9 || i == 10 || i == 11;
      }
    }
  }

  /** With all four at most n, the least of them is n exactly when each is. */
  lemma MinAll(p: int, q: int, r: int, s: int, n: int)
    requires p <= n && q <= n && r <= n && s <= n
    ensures Min(Min(p, q), Min(r, s)) == n <==> p == n && q == n && r == n && s == n
  {
  }

  /** Four full foundations account for all 52 cards, leaving none for the other stacks. */
  lemma FoundationsFill(b: seq<Stack>)
    requires |b| == 16 && |Gather(b, 0, |b|)| == 52
    requires forall i :: 8 <= i < 12 ==> |b[i].cards| == 13
    ensures Gather(b, 0, 8) == [] && Gather(b, 12, |b|) == []
  {
    GatherSplit(b, 0, 8, |b|);
    GatherSplit(b, 8, 12, |b|);
    GatherUniform(b, 8, 12, 13);
  }

  lemma {:induction false} GatherUniform(b: seq<Stack>, lo: int, hi: int, n: int)
    requires 0 <= lo <= hi <= |b|
    requires forall i :: lo <= i < hi ==> |b[i].cards| == n
    ensures |Gather(b, lo, hi)| == (hi - lo) * n
    decreases hi - lo
  {
    if lo < hi {
      GatherUniform(b, lo, hi - 1, n);
      assert (hi - lo) * n == (hi - 1 - lo) * n + n;
    }
  }

  /** When the game is won, the tableau and the free cells are empty. */
  lemma WonBoardEmpty(b: Board)
    requires BoardOk(b) && WinTest(b)
    ensures forall i :: 0 <= i < 8 || 12 <= i < 16 ==> b[i].cards == []
  {
    WinMeansComplete(b);
    assert |AllCards(b)| == 52 by {
      assert |multiset(AllCards(b))| == |multiset(Deck())|;
    }
    FoundationsFill(b);
    GatherEmpty(b, 0, 8);
    GatherEmpty(b, 12, |b|);
  }

  // ---------------------------------------------------------------- steps

  /** Refreshing a board reached during play settles the phase exactly on the win test. */
  lemma RefreshValid(g: Game)
    requires BoardOk(g.board) && HoldOk(g) && Replayable(g.board, g.history) && g.phase == Playing
    ensures Valid(Refresh(g))
  {
  }

  /** Placing the held card on another slot that accepts it. */
  lemma TabPlaceValid(g: Game, cur: Slot)
    requires Valid(g) && g.phase == Playing && g.sel.Holding?
    requires g.cursor.0 >= 0 && g.cursor.1 >= 0 && cur == CursorSlot(g.cursor)
    requires cur != g.sel.src && Push(g.board[cur], g.sel.card).Some?
    ensures Valid(Settle(g, HandleTab(g)))
  {
    var src, card := g.sel.src, g.sel.card;
    var g1 := g.(board := Commit(g.board, src, cur, card), sel := Idle, history := g.history + [Move(src, cur)]);
    assert HandleTab(g) == Some(g1);
    CommitValid(g, src, cur, card);
    assert Settle(g, HandleTab(g)) == Refresh(g1);
  }

  /** Grabbing the top card under the cursor. */
  lemma TabGrabValid(g: Game, cur: Slot)
    requires Valid(g) && g.phase == Playing && g.sel.Idle?
    requires g.cursor.0 >= 0 && g.cursor.1 >= 0 && cur == CursorSlot(g.cursor)
    requires Peek(g.board[cur]).Some?
    ensures Valid(Settle(g, HandleTab(g)))
  {
    var g' := g.(sel := Holding(cur, Peek(g.board[cur]).value));
    assert HandleTab(g) == Some(g');
    RefreshValid(g');
    assert Settle(g, HandleTab(g)) == Refresh(g');
  }

  lemma TabValid(g: Game)
    requires Valid(g) && g.phase == Playing
    ensures Valid(Settle(g, HandleTab(g)))
  {
    if g.cursor.0 >= 0 && g.cursor.1 >= 0 {
      var cur := CursorSlot(g.cursor);
      if g.sel.Idle? {
        if Peek(g.board[cur]).Some? {
          TabGrabValid(g, cur);
        } else {
          assert Settle(g, HandleTab(g)) == g;
        }
      } else if cur == g.sel.src {
        RefreshValid(g.(sel := Idle));
        assert Settle(g, HandleTab(g)) == Refresh(g.(sel := Idle));
      } else if Push(g.board[cur], g.sel.card).Some? {
        TabPlaceValid(g, cur);
      } else {
        assert Settle(g, HandleTab(g)) == g;
      }
    } else {
      assert Settle(g, HandleTab(g)) == g;
    }
  }

  lemma SpaceValid(g: Game)
    requires Valid(g) && g.phase == Playing
    ensures Valid(Settle(g, HandleSpace(g)))
  {
    if g.sel.Idle? {
      var r := FirstSortable(g.board, 0);
      if r.Some? {
        var i := AutoSources[r.value];
        var card := Peek(g.board[i]).value;
        var j := Accepting(g.board, card, 8).value;
        CommitValid(g, i, j, card);
        var g1 := g.(board := Commit(g.board, i, j, card), sel := Idle, history := g.history + [Move(i, j)]);
        assert HandleSpace(g) == Some(g1);
        assert Settle(g, HandleSpace(g)) == Refresh(g1);
      } else {
        assert Settle(g, HandleSpace(g)) == g;
      }
    } else {
      assert Settle(g, HandleSpace(g)) == g;
    }
  }

  /** The last recorded move can be undone, onto a sound board from which the rest replays. */
  lemma ReplayLast(b: Board, h: seq<Move>)
    requires Replayable(b, h) && |h| > 0
    ensures Peek(b[h[|h| - 1].dst]).Some?
    ensures BoardOk(Undone(b, h[|h| - 1])) && Replayable(Undone(b, h[|h| - 1]), h[..|h| - 1])
  {
  }

  lemma UndoValid(g: Game)
    requires Valid(g) && g.phase == Playing
    ensures UndoDefined(g)
    ensures Valid(Settle(g, HandleUndo(g)))
  {
    ValidUndoDefined(g);
    var r := HandleUndo(g);
    if r.Some? {
      ReplayLast(g.board, g.history);
      RefreshValid(r.value);
      assert Settle(g, r) == Refresh(r.value);
    }
  }

  /** Every command keeps a valid game valid. */
  lemma StepValid(g: Game, cmd: Command, deal: seq<Card>)
    requires Valid(g) && IsShuffle(deal)
    ensures |deal| == 52 && UndoDefined(g)
    ensures Valid(Step(g, cmd, deal))
  {
    ShuffleSize(deal);
    var r := Step(g, cmd, deal);
    if g.phase != Playing {
      if cmd == Reset {
        RestartValid(deal);
        assert r == Restart(deal);
      } else if g.phase == ConfirmRestart && cmd == Esc {
        RefreshValid(g.(phase := Playing));
        assert r == Refresh(g.(phase := Playing));
      } else {
        assert r == g;
      }
    } else {
      match cmd
      case Reset =>
        assert r == g.(phase := ConfirmRestart);
      case Tab =>
        TabValid(g);
        assert r == Settle(g, HandleTab(g));
      case Esc =>
        if g.sel.Holding? {
          RefreshValid(g.(sel := Idle));
          assert r == Refresh(g.(sel := Idle));
        } else {
          assert r == g;
        }
      case Arrow(d) =>
        RefreshValid(g.(cursor := MoveCursor(g.cursor, d)));
        assert r == Refresh(g.(cursor := MoveCursor(g.cursor, d)));
      case Space =>
        SpaceValid(g);
        assert r == Settle(g, HandleSpace(g));
      case Undo =>
        UndoValid(g);
        assert r == Settle(g, HandleUndo(g));
    }
  }

  lemma StepUndo(g: Game, deal: seq<Card>)
    requires |deal| == 52 && UndoDefined(g) && g.phase == Playing
    ensures Step(g, Undo, deal) == Settle(g, HandleUndo(g))
  {
  }

  /** Undo right after a committed move, while play goes on, gives back the board and the history. */
  lemma CommitThenUndo(g: Game, src: Slot, dst: Slot, card: Card, deal: seq<Card>)
    requires Valid(g) && g.phase == Playing && |deal| == 52
    requires src != dst && Peek(g.board[src]) == Some(card) && Push(g.board[dst], card).Some?
    requires !WinTest(Commit(g.board, src, dst, card))
    ensures var g' := g.(board := Commit(g.board, src, dst, card), sel := Idle,
                         history := g.history + [Move(src, dst)]);
      UndoDefined(g') && Step(g', Undo, deal).board == g.board && Step(g', Undo, deal).history == g.history
  {
    var g' := g.(board := Commit(g.board, src, dst, card), sel := Idle,
                 history := g.history + [Move(src, dst)]);
    CommitUndone(g.board, src, dst, card);
    assert g'.history[..|g'.history| - 1] == g.history;
    var u := g'.(board := g.board, history := g.history);
    assert HandleUndo(g') == Some(u);
    StepUndo(g', deal);
    assert Step(g', Undo, deal) == Refresh(u);
  }

  /** Tab that commits a move, followed by undo, restores the board and the history. */
  lemma TabUndo(g: Game, deal: seq<Card>)
    requires Valid(g) && g.phase == Playing && |deal| == 52
    requires |Settle(g, HandleTab(g)).history| == |g.history| + 1
    requires Settle(g, HandleTab(g)).phase == Playing
    ensures UndoDefined(Settle(g, HandleTab(g)))
    ensures Step(Settle(g, HandleTab(g)), Undo, deal).board == g.board
    ensures Step(Settle(g, HandleTab(g)), Undo, deal).history == g.history
  {
    var cur := CursorSlot(g.cursor);
    var src, card := g.sel.src, g.sel.card;
    var g' := g.(board := Commit(g.board, src, cur, card), sel := Idle,
                 history := g.history + [Move(src, cur)]);
    assert HandleTab(g) == Some(g');
    assert Settle(g, HandleTab(g)) == g';
    CommitThenUndo(g, src, cur, card, deal);
  }

  /** Auto-sort that moves a card, followed by undo, restores the board and the history. */
  lemma SpaceUndo(g: Game, deal: seq<Card>)
    requires Valid(g) && g.phase == Playing && |deal| == 52
    requires |Settle(g, HandleSpace(g)).history| == |g.history| + 1
    requires Settle(g, HandleSpace(g)).phase == Playing
    ensures UndoDefined(Settle(g, HandleSpace(g)))
    ensures Step(Settle(g, HandleSpace(g)), Undo, deal).board == g.board
    ensures Step(Settle(g, HandleSpace(g)), Undo, deal).history == g.history
  {
    var i := AutoSources[FirstSortable(g.board, 0).value];
    var card := Peek(g.board[i]).value;
    var j := Accepting(g.board, card, 8).value;
    var g' := g.(board := Commit(g.board, i, j, card), sel := Idle,
                 history := g.history + [Move(i, j)]);
    assert HandleSpace(g) == Some(g');
    assert Settle(g, HandleSpace(g)) == g';
    CommitThenUndo(g, i, j, card, deal);
  }

  /** Undo right after a command that recorded a move restores every stack and the history. */
  lemma UndoAfterMove(g: Game, cmd: Command, deal: seq<Card>)
    requires Valid(g) && |deal| == 52 && g.phase == Playing
    requires |Step(g, cmd, deal).history| == |g.history| + 1
    requires Step(g, cmd, deal).phase == Playing
    ensures UndoDefined(Step(g, cmd, deal))
    ensures Step(Step(g, cmd, deal), Undo, deal).board == g.board
    ensures Step(Step(g, cmd, deal), Undo, deal).history == g.history
  {
    match cmd
    case Tab => TabUndo(g, deal);
    case Space => SpaceUndo(g, deal);
    case Undo =>
    case _ =>
  }

  /**
   * What the invariant gives every game reachable from a deal (it holds after a
   * restart and survives every step): undo never meets an empty target, and the
   * won phase means all 52 cards are home with the tableau and free cells empty.
   */
  lemma ValidConsequences(g: Game)
    requires Valid(g)
    ensures UndoDefined(g)
    ensures g.phase == Won <==> forall i :: 8 <= i < 12 ==> |g.board[i].cards| == 13
    ensures g.phase == Won ==> forall i :: 0 <= i < 8 || 12 <= i < 16 ==> g.board[i].cards == []
  {
    ValidUndoDefined(g);
    WinMeansComplete(g.board);
    if g.phase == Won {
      WonBoardEmpty(g.board);
    }
  }

}
