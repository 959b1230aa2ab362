/**
 * The earlier prototype of the game (freecell.py): eight table stacks, a
 * cursor and a trigger (the selected source stack), driven by the keys
 * 'a' and 'd' (move the cursor), 's' (select) and 'w' (move a card).
 *
 * The prototype never resets its trigger after a move. Pressing 'w' again
 * once the triggered stack has run empty reads the top of an empty list,
 * which raises IndexError. `Press` models the code as written
 * (`release == false`) and the evidently intended version that lets go of
 * the trigger once a move is done (`release == true`).
 */
module Legacy {

  import opened Maybe
  import opened Cards
  import Stacks
  import Game

  /** The table stacks, the cursor and the trigger; -1 marks an unset index. */
  datatype Table = Table(stacks: seq<seq<Card>>, cursor: int, trigger: int)

  datatype Key = A | D | S | W

  /** A key press either completes with a new table or raises IndexError. */
  datatype Outcome = Done(table: Table) | IndexError

  /** Eight stacks, and cursor and trigger each unset or naming one of them. */
  predicate Wf(t: Table)
  {
    |t.stacks| == 8 && -1 <= t.cursor < 8 && -1 <= t.trigger < 8
  }

  // ---------------------------------------------------------------- the deal

  /** All stacks' cards, stack after stack. */
  function Flat(ss: seq<seq<Card>>): seq<Card>
  {
    if |ss| == 0 then [] else Flat(ss[..|ss| - 1]) + ss[|ss| - 1]
  }

  /**
   * The prototype's deal: stack j takes the next j + 3 cards of the shuffled
   * deck, and then stack 0 is emptied again.
   */
  function Deal(shuffled: seq<Card>): (t: Table)
    requires |shuffled| == 52
    ensures Wf(t) && t.cursor == -1 && t.trigger == -1
    ensures t.stacks[0] == []
    ensures forall j :: 1 <= j < 8 ==> |t.stacks[j]| == j + 3
  {
    Table(seq(8, j requires 0 <= j < 8 => if j == 0 then [] else Game.Column(shuffled, j).cards), -1, -1)
  }

  /** The dealt stacks hold exactly the shuffled deck after its first three cards: 49 cards, each once. */
  lemma DealLeavesFortyNine(shuffled: seq<Card>)
    requires |shuffled| == 52
    ensures Flat(Deal(shuffled).stacks) == shuffled[3..]
    ensures |Flat(Deal(shuffled).stacks)| == 49
    ensures multiset(Flat(Deal(shuffled).stacks)) + multiset(shuffled[..3]) == multiset(shuffled)
  {
    DealPrefix(shuffled, 8);
    assert Deal(shuffled).stacks[..8] == Deal(shuffled).stacks;
    assert shuffled == shuffled[..3] + shuffled[3..];
  }

  /** The first n dealt stacks hold the cards from position 3 up to where stack n would start. */
  lemma {:induction false} DealPrefix(shuffled: seq<Card>, n: nat)
    requires |shuffled| == 52 && 1 <= n <= 8
    ensures Game.DealStart(n) <= 52
    ensures Flat(Deal(shuffled).stacks[..n]) == shuffled[3..Game.DealStart(n)]
  {
    Game.DealStartBound(8);
    var ss := Deal(shuffled).stacks;
    if n == 1 {
      assert ss[..1] == [[]];
      assert Flat(ss[..1]) == Flat([]) + [];
    } else {
      DealPrefix(shuffled, n - 1);
      var lo := Game.DealStart(n - 1);
      var hi := Game.DealStart(n);
      assert 3 <= lo <= hi <= 52 && hi == lo + (n - 1) + 3;
      assert ss[..n][..n - 1] == ss[..n - 1];
      assert ss[n - 1] == shuffled[lo..hi];
      assert Flat(ss[..n]) == shuffled[3..lo] + shuffled[lo..hi];
      assert shuffled[3..hi] == shuffled[3..lo] + shuffled[lo..hi];
    }
  }

  // ---------------------------------------------------------------- one move

  /**
   * `__stack_to_stack(s1, s2)`: may the top of `s1` go onto `s2`? An empty
   * target takes anything; otherwise the card must be one rank lower and of
   * the other colour class. `None` is the IndexError of reading the top of
   * an empty `s1`, which happens only when `s2` is not empty.
   */
  function StackToStack(s1: seq<Card>, s2: seq<Card>): (r: Option<bool>)
    ensures r.None? <==> s2 != [] && s1 == []
    ensures r == Some(true) <==>
      s2 == [] || (s1 != [] && s1[|s1| - 1].rank == s2[|s2| - 1].rank - 1
                   && Class(s1[|s1| - 1].suit) != Class(s2[|s2| - 1].suit))
  {
    if s2 == [] then Some(true)
    else if s1 == [] then None
    else
      var c1 := Stacks.Last(s1);
      var c2 := Stacks.Last(s2);
      if c1.rank != c2.rank - 1 then Some(false)
      else if Class(c1.suit) == Class(c2.suit) then Some(false)
      else Some(true)
  }

  /** The prototype's rule is the later game's tableau rule: it accepts a card exactly when a tableau push would. */
  lemma StackToStackIsTableauPush(s1: seq<Card>, s2: seq<Card>)
    requires s1 != []
    ensures StackToStack(s1, s2) == Some(Stacks.Push(Stacks.Stack(Stacks.Tableau, s2), Stacks.Last(s1)).Some?)
  {
  }

  /** Moves the top card of stack `i` onto stack `j`. */
  function MoveTop(ss: seq<seq<Card>>, i: int, j: int): (r: seq<seq<Card>>)
    requires 0 <= i < |ss| && 0 <= j < |ss| && i != j && ss[i] != []
    ensures |r| == |ss|
    ensures r[i] + [Stacks.Last(ss[i])] == ss[i]
    ensures r[j] == ss[j] + [Stacks.Last(ss[i])]
    ensures forall k :: 0 <= k < |ss| && k != i && k != j ==> r[k] == ss[k]
  {
    ss[j := ss[j] + [Stacks.Last(ss[i])]][i := ss[i][..|ss[i]| - 1]]
  }

  /** `cursor += d` with wrap-around: below 0 goes to the last stack, past the last to stack 0. */
  function WrapCursor(c: int): (r: int)
    ensures 0 <= r < 8
    ensures 0 <= c < 8 ==> r == c
  {
    if c < 0 then 7 else if c >= 8 then 0 else c
  }

  /**
   * `Game.on` for one key. With `release` false this is the code as written;
   * with `release` true the trigger is let go (-1) once a move is done or
   * 'w' is pressed on the triggered stack itself, as the cleared
   * per-stack trigger flag shows was meant.
   */
  function Press(t: Table, key: Key, release: bool): (r: Outcome)
    requires Wf(t)
    ensures r.Done? ==> Wf(r.table)
    ensures r.Done? ==> multiset(Flat(r.table.stacks)) == multiset(Flat(t.stacks))
    ensures r.Done? && key != W ==> r.table.stacks == t.stacks
    ensures key != S && (key == W ==> !release) && r.Done? ==> r.table.trigger == t.trigger
  {
    match key
    case A => Done(t.(cursor := WrapCursor(t.cursor - 1)))
    case D => Done(t.(cursor := WrapCursor(t.cursor + 1)))
    case S =>
      if t.cursor < 0 || t.stacks[t.cursor] == [] then Done(t)
      else Done(t.(trigger := t.cursor))
    case W =>
      var after := if release then -1 else t.trigger;
      if t.trigger < 0 || t.cursor < 0 then Done(t)
      else if t.trigger == t.cursor then Done(t.(trigger := after))
      else
        var s1 := t.stacks[t.trigger];
        var s2 := t.stacks[t.cursor];
        match StackToStack(s1, s2)
        case None => IndexError
        case Some(ok) =>
          if !ok then Done(t)
          else if s1 == [] then IndexError
          else
            MoveConserves(t.stacks, t.trigger, t.cursor);
            Done(Table(MoveTop(t.stacks, t.trigger, t.cursor), t.cursor, after))
  }

  /** The prototype's `on`, as written. */
  function On(t: Table, key: Key): (r: Outcome)
    requires Wf(t)
    ensures r.Done? ==> Wf(r.table)
  {
    Press(t, key, false)
  }

  /** The prototype's `on` with the trigger released after a move. */
  function OnFixed(t: Table, key: Key): (r: Outcome)
    requires Wf(t)
    ensures r.Done? ==> Wf(r.table)
  {
    Press(t, key, true)
  }

  /** Key presses one after another; the first IndexError ends the run. */
  function Run(t: Table, keys: seq<Key>, release: bool): (r: Outcome)
    requires Wf(t)
    ensures r.Done? ==> Wf(r.table)
    ensures r.Done? ==> multiset(Flat(r.table.stacks)) == multiset(Flat(t.stacks))
    decreases |keys|
  {
    if |keys| == 0 then Done(t)
    else
      match Press(t, keys[0], release)
      case IndexError => IndexError
      case Done(t') => Run(t', keys[1..], release)
  }

  // ---------------------------------------------------------------- conservation

  /** Replacing one stack swaps that stack's cards in the multiset of all cards. */
  lemma {:induction false} FlatUpdate(ss: seq<seq<Card>>, i: int, x: seq<Card>)
    requires 0 <= i < |ss|
    ensures multiset(Flat(ss[i := x])) == multiset(Flat(ss)) - multiset(ss[i]) + multiset(x)
    decreases |ss|
  {
    var n := |ss| - 1;
    var u := ss[i := x];
    assert u[..n] == if i < n then ss[..n][i := x] else ss[..n];
    if i < n {
      FlatUpdate(ss[..n], i, x);
      FlatPart(ss[..n], i);
    } else {
      FlatPart(ss, n);
    }
  }

  /** A stack's cards are part of all cards. */
  lemma {:induction false} FlatPart(ss: seq<seq<Card>>, i: int)
    requires 0 <= i < |ss|
    ensures multiset(ss[i]) <= multiset(Flat(ss))
    decreases |ss|
  {
    if i < |ss| - 1 {
      assert ss[..|ss| - 1][i] == ss[i];
      FlatPart(ss[..|ss| - 1], i);
    }
  }

  /** Moving a top card from one stack to another keeps every card on the table. */
  lemma MoveConserves(ss: seq<seq<Card>>, i: int, j: int)
    requires 0 <= i < |ss| && 0 <= j < |ss| && i != j && ss[i] != []
    ensures multiset(Flat(MoveTop(ss, i, j))) == multiset(Flat(ss))
  {
    var c := Stacks.Last(ss[i]);
    var rest := ss[i][..|ss[i]| - 1];
    var mid := ss[j := ss[j] + [c]];
    assert MoveTop(ss, i, j) == mid[i := rest];
    FlatUpdate(ss, j, ss[j] + [c]);
    FlatPart(ss, j);
    Grow(multiset(Flat(ss)), multiset(ss[j]), c);
    FlatUpdate(mid, i, rest);
    assert ss[i] == rest + [c];
    assert mid[i] == ss[i];
    FlatPart(ss, i);
    Shrink(multiset(Flat(ss)), multiset(rest), c);
  }

  lemma Grow<T>(f: multiset<T>, a: multiset<T>, c: T)
    requires a <= f
    ensures f - a + (a + multiset{c}) == f + multiset{c}
  {
    assert forall x :: (f - a + (a + multiset{c}))[x] == (f + multiset{c})[x];
  }

  lemma Shrink<T>(f: multiset<T>, p: multiset<T>, c: T)
    requires p + multiset{c} <= f
    ensures f + multiset{c} - (p + multiset{c}) + p == f
  {
    assert forall x :: (f + multiset{c} - (p + multiset{c}) + p)[x] == f[x];
  }

  // ---------------------------------------------------------------- the keys

  /** 'a' and 'd' step the cursor back and forth with wrap-around; from an unset cursor 'a' goes to 7 and 'd' to 0. */
  lemma CursorWraps(t: Table, release: bool)
    requires Wf(t)
    ensures Press(t, A, release) == Done(t.(cursor := if t.cursor <= 0 then 7 else t.cursor - 1))
    ensures Press(t, D, release) == Done(t.(cursor := if t.cursor == 7 then 0 else t.cursor + 1))
  {
  }

  /** On a set cursor 'a' undoes 'd' and 'd' undoes 'a'. */
  lemma CursorInverse(t: Table, release: bool)
    requires Wf(t) && t.cursor >= 0
    ensures Press(Press(t, D, release).table, A, release) == Done(t)
    ensures Press(Press(t, A, release).table, D, release) == Done(t)
  {
    CursorWraps(t, release);
    CursorWraps(Press(t, D, release).table, release);
    CursorWraps(Press(t, A, release).table, release);
  }

  /** 's' selects the cursor's stack when it has cards and is ignored otherwise; it never moves a card. */
  lemma SelectKey(t: Table, release: bool)
    requires Wf(t)
    ensures Press(t, S, release).Done?
    ensures Press(t, S, release).table.stacks == t.stacks
    ensures Press(t, S, release).table.cursor == t.cursor
    ensures t.cursor < 0 || t.stacks[t.cursor] == [] ==> Press(t, S, release) == Done(t)
    ensures t.cursor >= 0 && t.stacks[t.cursor] != [] ==>
      Press(t, S, release).table.trigger == t.cursor
  {
  }

  /**
   * 'w' as written: ignored while trigger or cursor is unset, a no-op on the
   * triggered stack itself, otherwise it moves exactly one card when
   * `__stack_to_stack` accepts and nothing when it refuses. It raises
   * IndexError exactly when the triggered stack is empty, and it never
   * touches the trigger.
   */
  lemma MoveKey(t: Table)
    requires Wf(t)
    ensures t.trigger < 0 || t.cursor < 0 || t.trigger == t.cursor ==> On(t, W) == Done(t)
    ensures On(t, W) == IndexError <==>
      t.trigger >= 0 && t.cursor >= 0 && t.trigger != t.cursor && t.stacks[t.trigger] == []
    ensures On(t, W).Done? ==> On(t, W).table.trigger == t.trigger && On(t, W).table.cursor == t.cursor
    ensures On(t, W).Done? && On(t, W).table.stacks != t.stacks ==>
      t.trigger >= 0 && t.cursor >= 0 && t.trigger != t.cursor && t.stacks[t.trigger] != []
      && StackToStack(t.stacks[t.trigger], t.stacks[t.cursor]) == Some(true)
      && On(t, W).table.stacks == MoveTop(t.stacks, t.trigger, t.cursor)
    ensures (t.trigger >= 0 && t.cursor >= 0 && t.trigger != t.cursor && t.stacks[t.trigger] != []
             && StackToStack(t.stacks[t.trigger], t.stacks[t.cursor]) == Some(false)) ==> On(t, W) == Done(t)
    ensures t.trigger >= 0 && t.cursor >= 0 && t.trigger != t.cursor && t.stacks[t.trigger] != []
            && StackToStack(t.stacks[t.trigger], t.stacks[t.cursor]) == Some(true) ==>
      On(t, W) == Done(t.(stacks := MoveTop(t.stacks, t.trigger, t.cursor)))
  {
  }

  // ---------------------------------------------------------------- the stale trigger

  /** A legitimate shuffle: the deck with its 3rd and 7th cards exchanged. */
  function Sample(): (s: seq<Card>)
    ensures |s| == 52 && Game.IsShuffle(s)
  {
    var d := Game.Deck();
    d[2 := d[6]][6 := d[2]]
  }

  /** One completed key press hands the rest of the run its table. */
  lemma RunStep(t: Table, keys: seq<Key>, release: bool, t': Table)
    requires Wf(t) && |keys| > 0 && Press(t, keys[0], release) == Done(t')
    ensures Wf(t')
    ensures Run(t, keys, release) == Run(t', keys[1..], release)
  {
  }

  /** Stack 1 ends in a card that fits on the card below it, and stack 0 is empty. */
  predicate Bounces(ss: seq<seq<Card>>)
  {
    |ss| == 8 && ss[0] == [] && |ss[1]| >= 2
    && StackToStack([Stacks.Last(ss[1])], ss[1][..|ss[1]| - 1]) == Some(true)
  }

  /** 'd', 'd', 's', 'a': select stack 1 and put the cursor on stack 0. */
  lemma StaleSelect(ss: seq<seq<Card>>)
    requires Bounces(ss)
    ensures Run(Table(ss, -1, -1), [D, D, S, A, W, S, D, W, W], false) == Run(Table(ss, 0, 1), [W, S, D, W, W], false)
  {
    RunStep(Table(ss, -1, -1), [D, D, S, A, W, S, D, W, W], false, Table(ss, 0, -1));
    RunStep(Table(ss, 0, -1), [D, S, A, W, S, D, W, W], false, Table(ss, 1, -1));
    RunStep(Table(ss, 1, -1), [S, A, W, S, D, W, W], false, Table(ss, 1, 1));
    RunStep(Table(ss, 1, 1), [A, W, S, D, W, W], false, Table(ss, 0, 1));
    assert [D, D, S, A, W, S, D, W, W][1..] == [D, S, A, W, S, D, W, W];
    assert [D, S, A, W, S, D, W, W][1..] == [S, A, W, S, D, W, W];
    assert [S, A, W, S, D, W, W][1..] == [A, W, S, D, W, W];
    assert [A, W, S, D, W, W][1..] == [W, S, D, W, W];
  }

  /** 'w', 's', 'd': move the top of stack 1 to stack 0, select stack 0, and put the cursor on stack 1. */
  lemma StaleMoveAway(ss: seq<seq<Card>>)
    requires Bounces(ss)
    ensures MoveTop(ss, 1, 0)[0] != []
    ensures Run(Table(ss, 0, 1), [W, S, D, W, W], false) == Run(Table(MoveTop(ss, 1, 0), 1, 0), [W, W], false)
  {
    var moved := MoveTop(ss, 1, 0);
    RunStep(Table(ss, 0, 1), [W, S, D, W, W], false, Table(moved, 0, 1));
    RunStep(Table(moved, 0, 1), [S, D, W, W], false, Table(moved, 0, 0));
    RunStep(Table(moved, 0, 0), [D, W, W], false, Table(moved, 1, 0));
    assert [W, S, D, W, W][1..] == [S, D, W, W];
    assert [S, D, W, W][1..] == [D, W, W];
    assert [D, W, W][1..] == [W, W];
  }

  /** 'w', 'w': the card goes back, and the second press reads the emptied stack 0. */
  lemma StaleMoveBack(ss: seq<seq<Card>>)
    requires Bounces(ss)
    ensures Run(Table(MoveTop(ss, 1, 0), 1, 0), [W, W], false) == IndexError
  {
    var moved := MoveTop(ss, 1, 0);
    assert moved[0] == [Stacks.Last(ss[1])] && moved[1] == ss[1][..|ss[1]| - 1];
    var back := MoveTop(moved, 0, 1);
    assert back[0] == [];
    RunStep(Table(moved, 1, 0), [W, W], false, Table(back, 1, 0));
    assert [W, W][1..] == [W];
  }

  /**
   * As written, on any deal whose stack 1 ends in a card that fits on the
   * card below it: select stack 1, put its top card on the empty stack 0,
   * select stack 0, put the card back, and press 'w' once more. The trigger
   * still names stack 0, now empty, so the prototype reads the top of an
   * empty list.
   */
  lemma StaleTrigger(ss: seq<seq<Card>>)
    requires Bounces(ss)
    ensures Run(Table(ss, -1, -1), [D, D, S, A, W, S, D, W, W], false) == IndexError
  {
    StaleSelect(ss);
    StaleMoveAway(ss);
    StaleMoveBack(ss);
  }

  /** The deal from `Sample` puts the ace of clubs on the two of hearts at the top of stack 1. */
  lemma SampleStackOne()
    ensures Deal(Sample()).stacks[1] == [Card(Diamonds, 1, 0), Card(Spades, 2, 0), Card(Hearts, 2, 0), Card(Clubs, 1, 0)]
  {
    var d := Game.Deck();
    assert Game.DealStart(1) == 3;
    assert Deal(Sample()).stacks[1] == Sample()[3..7];
    assert Sample()[3..7] == [d[3], d[4], d[5], d[2]];
  }

  /** A concrete shuffle on which the prototype as written raises IndexError after nine key presses. */
  lemma StaleTriggerCrashes()
    ensures Run(Deal(Sample()), [D, D, S, A, W, S, D, W, W], false) == IndexError
  {
    var t := Deal(Sample());
    SampleStackOne();
    assert t.stacks[1][..3] == [Card(Diamonds, 1, 0), Card(Spades, 2, 0), Card(Hearts, 2, 0)];
    assert Bounces(t.stacks);
    StaleTrigger(t.stacks);
  }

  // ---------------------------------------------------------------- the corrected version

  /** A trigger, when set, names a stack that has a card to give. */
  predicate Armed(t: Table)
  {
    Wf(t) && (t.trigger == -1 || t.stacks[t.trigger] != [])
  }

  /** With the trigger released after each move, every key keeps the table armed and so never raises. */
  lemma FixedKeepsArmed(t: Table, key: Key)
    requires Armed(t)
    ensures OnFixed(t, key).Done? && Armed(OnFixed(t, key).table)
  {
  }

  /** From any armed table, and in particular from every deal, the corrected prototype never raises IndexError. */
  lemma {:induction false} FixedNeverCrashes(t: Table, keys: seq<Key>)
    requires Armed(t)
    ensures Run(t, keys, true).Done? && Armed(Run(t, keys, true).table)
    decreases |keys|
  {
    if |keys| > 0 {
      FixedKeepsArmed(t, keys[0]);
      FixedNeverCrashes(OnFixed(t, keys[0]).table, keys[1..]);
    }
  }

  /** A fresh deal is armed: its trigger is unset. */
  lemma DealArmed(shuffled: seq<Card>)
    requires |shuffled| == 52
    ensures Armed(Deal(shuffled))
    ensures forall keys: seq<Key> :: Run(Deal(shuffled), keys, true).Done?
  {
    forall keys: seq<Key>
      ensures Run(Deal(shuffled), keys, true).Done?
    {
      FixedNeverCrashes(Deal(shuffled), keys);
    }
  }

  /** The correction only drops the trigger: otherwise a key does what it did as written. */
  lemma FixedAgrees(t: Table, key: Key)
    requires Wf(t) && On(t, key).Done?
    ensures OnFixed(t, key).Done?
    ensures OnFixed(t, key).table.stacks == On(t, key).table.stacks
    ensures OnFixed(t, key).table.cursor == On(t, key).table.cursor
    ensures OnFixed(t, key).table.trigger == On(t, key).table.trigger
      || (key == W && OnFixed(t, key).table.trigger == -1)
  {
  }

}
