/**
 * The celebration shown after a win (animation.py). Every animation maps a
 * frame counter `t` to a block of styled lines; the caller advances `t` and
 * redraws. Each animation reads its frame index from a timeline clamped at
 * both ends, so every integer is a valid time.
 */
module Animation {

  import opened Text
  import opened Maybe
  import opened Cards

  type Frame = seq<Line>

  /** `range(lo, lo + n)`. */
  function Up(lo: int, n: nat): (r: seq<int>)
    ensures |r| == n
    ensures forall i :: 0 <= i < n ==> r[i] == lo + i
  {
    seq(n, i => lo + i)
  }

  /** `[hi - i for i in range(n)]`. */
  function Down(hi: int, n: nat): (r: seq<int>)
    ensures |r| == n
    ensures forall i :: 0 <= i < n ==> r[i] == hi - i
  {
    seq(n, i => hi - i)
  }

  /** `get_frame_index`: the timeline entry at `t`, clamped to the first entry before the start and to the last after the end. */
  function FrameIndex(timeline: seq<int>, t: int): (r: int)
    requires |timeline| > 0
    ensures r in timeline
    ensures 0 <= t < |timeline| ==> r == timeline[t]
    ensures t < 0 ==> r == timeline[0]
    ensures t >= |timeline| ==> r == timeline[|timeline| - 1]
  {
    var l := |timeline|;
    var i := if 0 <= t < l then t else if t < 0 then 0 else l - 1;
    timeline[i]
  }

  /** A timeline that reads the same backwards gives the same index at `t` and at its mirror time. */
  lemma {:induction false} MirrorIndex(timeline: seq<int>, t: int)
    requires |timeline| > 0
    requires forall i :: 0 <= i < |timeline| ==> timeline[i] == timeline[|timeline| - 1 - i]
    ensures FrameIndex(timeline, t) == FrameIndex(timeline, |timeline| - 1 - t)
  {
    var l := |timeline|;
    if t < 0 {
      assert timeline[0] == timeline[l - 1];
    } else if t >= l {
      assert timeline[l - 1] == timeline[0];
    } else {
      assert timeline[t] == timeline[l - 1 - t];
    }
  }

  // ---------------------------------------------------------------------
  // Columns of cards

  /** Row `i` of one column: its own line while the column lasts, nine blanks after. */
  function Cell(f: Frame, i: nat): (c: Line)
    ensures i < |f| ==> c == f[i]
    ensures i >= |f| ==> Visible(c) == Spaces(9)
    ensures Uniform(f, 9) ==> Width(c) == 9
  {
    if |f| > i then f[i] else Plain(Spaces(9))
  }

  /** `max(len(frame) for frame in frames)`. */
  function MaxLen(fs: seq<Frame>): (m: nat)
    ensures forall k :: 0 <= k < |fs| ==> |fs[k]| <= m
    ensures |fs| > 0 ==> exists k :: 0 <= k < |fs| && |fs[k]| == m
    ensures |fs| == 0 ==> m == 0
  {
    if |fs| == 0 then 0
    else
      var m := MaxLen(fs[1..]);
      assert forall k :: 1 <= k < |fs| ==> fs[k] == fs[1..][k - 1];
      if |fs[0]| > m then |fs[0]| else m
  }

  /**
   * The loop shared by every multi-column animation: as many rows as the
   * longest column, row `i` joining each column's cell with three blanks.
   * Python's `max` of nothing raises, hence at least one column.
   */
  function Columns(fs: seq<Frame>): (r: Frame)
    requires |fs| > 0
    ensures |r| == MaxLen(fs)
  {
    seq(MaxLen(fs), i requires 0 <= i => Join(seq(|fs|, k requires 0 <= k < |fs| => Cell(fs[k], i)), "   "))
  }

  /** Column blocks whose lines are all nine columns wide, like card faces. */
  predicate CardColumns(fs: seq<Frame>)
  {
    |fs| > 0 && forall k :: 0 <= k < |fs| ==> Uniform(fs[k], 9)
  }

  /** Column `k` of row `i` sits at columns `12 * k .. 12 * k + 9`, and every row is `12 * n - 3` wide. */
  lemma ColumnsAt(fs: seq<Frame>, i: nat, k: nat)
    requires CardColumns(fs)
    requires i < |Columns(fs)| && k < |fs|
    ensures Width(Columns(fs)[i]) == 12 * |fs| - 3
    ensures Visible(Columns(fs)[i])[12 * k..12 * k + 9] == Visible(Cell(fs[k], i))
  {
    var parts := seq(|fs|, j requires 0 <= j < |fs| => Cell(fs[j], i));
    assert Columns(fs)[i] == Join(parts, "   ");
    assert forall j :: 0 <= j < |parts| ==> Width(parts[j]) == 9;
    JoinWidth(parts, "   ", 9);
    JoinAt(parts, "   ", 9, k, 12 * k);
  }

  lemma ColumnsUniform(fs: seq<Frame>)
    requires CardColumns(fs)
    ensures Uniform(Columns(fs), 12 * |fs| - 3)
  {
    forall i | 0 <= i < |Columns(fs)|
      ensures Width(Columns(fs)[i]) == 12 * |fs| - 3
    {
      ColumnsAt(fs, i, 0);
    }
  }

  /** `" " * left + line + " " * right` on every line of a block. */
  function PadAll(lines: Frame, left: int, right: int): (r: Frame)
    ensures |r| == |lines|
    ensures forall i :: 0 <= i < |r| ==> r[i] == Pad(left, lines[i], right)
  {
    seq(|lines|, i requires 0 <= i < |lines| => Pad(left, lines[i], right))
  }

  lemma PadUniform(lines: Frame, left: int, w: int, right: int)
    requires Uniform(lines, w) && left >= 0 && right >= 0
    ensures Uniform(PadAll(lines, left, right), left + w + right)
  {
  }

  /** A padded block of card columns shows column `k` of row `i` at `left + 12 * k`. */
  lemma PaddedAt(fs: seq<Frame>, left: nat, right: int, i: nat, k: nat, lo: nat)
    requires CardColumns(fs)
    requires i < |Columns(fs)| && k < |fs| && lo == left + 12 * k
    ensures var row := Visible(PadAll(Columns(fs), left, right)[i]);
      lo + 9 <= |row| && row[lo..lo + 9] == Visible(Cell(fs[k], i))
  {
    ColumnsAt(fs, i, k);
    var row := Visible(Columns(fs)[i]);
    SliceAfter(Spaces(left), row + Spaces(right), 12 * k, 9);
    assert (row + Spaces(right))[12 * k..12 * k + 9] == row[12 * k..12 * k + 9];
    assert Spaces(left) + row + Spaces(right) == Spaces(left) + (row + Spaces(right));
  }

  /**
   * Four card columns side by side, each row with `26 - offset` blanks before
   * it and `26 + offset` after: the layout every multi-stack animation shares.
   */
  function Stage(fs: seq<Frame>, offset: int): (r: Frame)
    requires |fs| == 4 && CardColumns(fs)
    ensures |r| == MaxLen(fs)
  {
    PadAll(Columns(fs), 26 - offset, 26 + offset)
  }

  /** Within 26 columns of centre, every row of a stage is 97 columns wide. */
  lemma StageUniform(fs: seq<Frame>, offset: int)
    requires |fs| == 4 && CardColumns(fs)
    ensures -26 <= offset <= 26 ==> Uniform(Stage(fs, offset), 97)
  {
    if -26 <= offset <= 26 {
      ColumnsUniform(fs);
      PadUniform(Columns(fs), 26 - offset, 45, 26 + offset);
    }
  }

  lemma StageRow(fs: seq<Frame>, offset: int, i: nat)
    requires |fs| == 4 && CardColumns(fs) && i < MaxLen(fs)
    ensures i < |Columns(fs)|
    ensures Stage(fs, offset)[i] == PadAll(Columns(fs), 26 - offset, 26 + offset)[i]
  {
  }

  /** Row `i` of a stage shows row `i` of column `k` from column `26 - offset + 12 * k` on. */
  lemma StageAt(fs: seq<Frame>, offset: int, i: nat, k: nat, lo: nat)
    requires |fs| == 4 && CardColumns(fs) && -26 <= offset <= 26
    requires i < MaxLen(fs) && k < 4 && lo == 26 - offset + 12 * k
    ensures var row := Visible(Stage(fs, offset)[i]); lo + 9 <= |row| && row[lo..lo + 9] == Visible(Cell(fs[k], i))
  {
    StageRow(fs, offset, i);
    PaddedAt(fs, 26 - offset, 26 + offset, i, k, lo);
  }

  lemma UniformAppend(a: Frame, b: Frame, w: int)
    requires Uniform(a, w) && Uniform(b, w)
    ensures Uniform(a + b, w)
  {
  }

  // ---------------------------------------------------------------------
  // Sparkling kings

  function King(s: Suit): Card
  {
    Card(s, 13, 0)
  }

  /** `StackSparkleAnimation`: a suit's king, highlighted on even frames and plain on odd ones. */
  function Sparkle(s: Suit, t: int): (r: Frame)
    ensures |r| == 5 && Uniform(r, 9)
  {
    if t % 2 == 0 then Render(Highlight(King(s))) else Render(King(s))
  }

  /** Blinking changes only the styling: every frame shows the king's face. */
  lemma SparkleShows(s: Suit, t: int, i: nat)
    requires i < 5
    ensures Visible(Sparkle(s, t)[i]) == FaceText(Some(s), 13)[i]
  {
    var h := if t % 2 == 0 then 1 else 0;
    assert Sparkle(s, t) == Face(Some(s), 13, h);
  }

  /** The highlighted king differs from the plain one: its lines end in reverse video. */
  lemma KingsDiffer(s: Suit)
    ensures Render(Highlight(King(s))) != Render(King(s))
  {
    var plain: Frame := Render(King(s));
    var lit: Frame := Render(Highlight(King(s)));
    HighlightReverses(King(s));
    assert |plain[0]| == 1;
    assert lit[0][0].wrappers == plain[0][0].wrappers + [Reverse];
  }

  /** The blink has period two, and the king is highlighted exactly on the even frames. */
  lemma SparkleBlinks(s: Suit, t: int)
    ensures Sparkle(s, t + 2) == Sparkle(s, t)
    ensures Sparkle(s, t + 1) != Sparkle(s, t)
    ensures Sparkle(s, t) == Render(Highlight(King(s))) <==> t % 2 == 0
  {
    KingsDiffer(s);
  }

  function SparkleColumns(t: int): (r: seq<Frame>)
    ensures |r| == 4 && CardColumns(r)
    ensures forall k :: 0 <= k < 4 ==> r[k] == Sparkle(Suits[k], t)
  {
    seq(4, k requires 0 <= k < 4 => Sparkle(Suits[k], t))
  }

  /** `StacksSparkleAnimation`: the four blinking kings side by side, shifted `offset` columns right of centre. */
  function StacksSparkle(offset: int, t: int): (r: Frame)
    ensures |r| == 5
    ensures -26 <= offset <= 26 ==> Uniform(r, 97)
  {
    StageUniform(SparkleColumns(t), offset);
    Stage(SparkleColumns(t), offset)
  }

  /** Cell `i` of the `k`-th sparkle column shows line `i` of that suit's king face. */
  lemma SparkleCell(t: int, i: nat, k: nat)
    requires i < 5 && k < 4
    ensures Visible(Cell(SparkleColumns(t)[k], i)) == FaceText(Some(Suits[k]), 13)[i]
  {
    assert Cell(SparkleColumns(t)[k], i) == Sparkle(Suits[k], t)[i];
    SparkleShows(Suits[k], t, i);
  }

  /** Line `i` of a sparkle frame shows line `i` of the `k`-th suit's king face from column `26 - offset + 12 * k`. */
  lemma StacksSparkleShows(offset: int, t: int, i: nat, k: nat)
    requires -26 <= offset <= 26 && i < 5 && k < 4
    ensures var row := Visible(StacksSparkle(offset, t)[i]); var lo := 26 - offset + 12 * k;
      lo + 9 <= |row| && row[lo..lo + 9] == FaceText(Some(Suits[k]), 13)[i]
  {
    var fs := SparkleColumns(t);
    var lo := 26 - offset + 12 * k;
    assert StacksSparkle(offset, t) == Stage(fs, offset);
    StageAt(fs, offset, i, k, lo);
    SparkleCell(t, i, k);
    var row := Visible(Stage(fs, offset)[i]);
    assert row[lo..lo + 9] == Visible(Cell(fs[k], i));
  }

  // ---------------------------------------------------------------------
  // Sliding kings

  const TranslateTimeline: seq<int> := Up(0, 9)

  /** How far right of centre the kings stand at time `t`: 24 columns at the start, 3 fewer each frame, 0 at the end. */
  function TranslateShift(t: int): (offset: int)
    ensures 0 <= offset <= 24
    ensures t <= 0 ==> offset == 24
    ensures t >= 8 ==> offset == 0
  {
    (8 - FrameIndex(TranslateTimeline, t)) * 3
  }

  /** Inside the slide the kings move three columns left per frame. */
  lemma TranslateStep(t: int)
    requires 0 <= t < 8
    ensures TranslateShift(t + 1) == TranslateShift(t) - 3
  {
  }

  /** The four highlighted kings, the lines the slide is built from. */
  function LitKings(): (r: seq<Frame>)
    ensures |r| == 4 && CardColumns(r)
  {
    seq(4, k requires 0 <= k < 4 => Render(Highlight(King(Suits[k]))))
  }

  /** `StacksTranslateAnimation`: the highlighted kings slid `TranslateShift(t)` columns right of centre. */
  function Translate(t: int): (r: Frame)
    ensures |r| == 5 && Uniform(r, 97)
  {
    StageUniform(LitKings(), TranslateShift(t));
    Stage(LitKings(), TranslateShift(t))
  }

  /** On even frames the sparkling kings are exactly the highlighted ones. */
  lemma EvenSparkleLit(t: int)
    requires t % 2 == 0
    ensures SparkleColumns(t) == LitKings()
  {
  }

  /** Every slide frame is the highlighted sparkle frame at the slide's offset. */
  lemma TranslateIsShiftedSparkle(t: int, e: int)
    requires e % 2 == 0
    ensures Translate(t) == StacksSparkle(TranslateShift(t), e)
  {
    EvenSparkleLit(e);
  }

  /** The slide picks up where the first sparkle left off (offset 24, frame -2) and ends where the second begins (offset 0, frame 10002). */
  lemma TranslateJoinsSparkles(t: int)
    ensures t <= 0 ==> Translate(t) == StacksSparkle(24, -2)
    ensures t >= 8 ==> Translate(t) == StacksSparkle(0, 10002)
  {
    if t <= 0 {
      TranslateIsShiftedSparkle(t, -2);
    } else if t >= 8 {
      TranslateIsShiftedSparkle(t, 10002);
    }
  }

  /** The kings only ever move left as time passes. */
  lemma {:induction false} TranslateMovesLeft(t: int, u: int)
    requires t <= u
    ensures TranslateShift(u) <= TranslateShift(t)
    decreases u - t
  {
    if t < u {
      TranslateMovesLeft(t, u - 1);
      if 0 <= u - 1 < 8 {
        TranslateStep(u - 1);
      }
    }
  }

  // ---------------------------------------------------------------------
  // Unfolding stacks

  /** `[t for t in range(26)] + [25 - t for t in range(26)]`: unfold, then fold back. */
  const UnfoldTimeline: seq<int> := Up(0, 26) + Down(25, 26)

  /** Blocks of five lines, nine columns wide: rendered card faces. */
  predicate Faces(cards: seq<Frame>)
  {
    forall k :: 0 <= k < |cards| ==> |cards[k]| == 5 && Uniform(cards[k], 9)
  }

  /** `card_strs`: the rendered faces of a suit's ranks 1 to 12. */
  function LowerCards(s: Suit): (r: seq<Frame>)
    ensures |r| == 12 && Faces(r)
  {
    seq(12, k requires 0 <= k < 12 => Render(Card(s, k + 1, 0)))
  }

  /** Card `k` of `card_strs` is the plain face of rank `k + 1` of the suit. */
  lemma LowerCardsRanks(s: Suit, k: nat)
    requires k < 12
    ensures LowerCards(s)[k] == Render(Card(s, k + 1, 0))
    ensures forall l :: 0 <= l < 5 ==> Visible(LowerCards(s)[k][l]) == FaceText(Some(s), k + 1)[l]
  {
  }

  /**
   * The lines the first `n` of `cards` contribute when the unfold has reached
   * card `i` with half-step `j`: the top two lines of every card below `i`, the
   * first `j` lines of card `i`, nothing of the cards above.
   */
  function Peeks(cards: seq<Frame>, i: nat, j: int, n: nat): (r: Frame)
    requires Faces(cards) && 0 <= j <= 1 && n <= |cards|
    ensures |r| == 2 * (if i < n then i else n) + (if i < n then j else 0)
    ensures Uniform(r, 9)
  {
    if n == 0 then []
    else
      var k := n - 1;
      var card := cards[k];
      Peeks(cards, i, j, k) + (if k < i then card[..2] else if k == i then card[..j] else [])
  }

  /** Each card below the reached one shows its two top lines, in order, two lines per card. */
  lemma {:induction false} PeeksAt(cards: seq<Frame>, i: nat, j: int, n: nat, k: nat)
    requires Faces(cards) && 0 <= j <= 1 && n <= |cards|
    requires k < n && k < i
    ensures 2 * k + 1 < |Peeks(cards, i, j, n)|
    ensures Peeks(cards, i, j, n)[2 * k] == cards[k][0]
    ensures Peeks(cards, i, j, n)[2 * k + 1] == cards[k][1]
  {
    var prev := Peeks(cards, i, j, n - 1);
    var card := cards[n - 1];
    var tail := if n - 1 < i then card[..2] else if n - 1 == i then card[..j] else [];
    assert Peeks(cards, i, j, n) == prev + tail;
    if k < n - 1 {
      PeeksAt(cards, i, j, n - 1, k);
    } else {
      assert tail == card[..2];
    }
  }

  /** The king that closes a stack: highlighted until the unfold reaches past the twelfth card. */
  function StackKing(s: Suit, i: int): (r: Frame)
    ensures |r| == 5 && Uniform(r, 9)
  {
    Render(if i < 13 then Highlight(King(s)) else King(s))
  }

  /** The closing king always shows the suit's king face, and is plain exactly once the unfold passes the twelfth card. */
  lemma StackKingShows(s: Suit, i: int)
    ensures forall l :: 0 <= l < 5 ==> Visible(StackKing(s, i)[l]) == FaceText(Some(s), 13)[l]
    ensures StackKing(s, i) == Render(King(s)) <==> i >= 13
  {
    KingsDiffer(s);
  }

  /** `StackUnfoldAnimation.__get_frame`: nothing before the start; otherwise the peeks of ranks 1 to 12 and the king. */
  function UnfoldAt(s: Suit, fi: int): (r: Frame)
    ensures fi < 0 ==> r == []
    ensures fi >= 0 ==> |r| == 2 * (if fi / 2 < 12 then fi / 2 else 12) + (if fi / 2 < 12 then fi % 2 else 0) + 5
    ensures fi >= 0 ==> r[|r| - 5..] == StackKing(s, fi / 2)
    ensures Uniform(r, 9)
  {
    var i := fi / 2;
    var j := fi % 2;
    if i < 0 then []
    else
      var r := Peeks(LowerCards(s), i, j, 12) + StackKing(s, i);
      assert r[|r| - 5..] == StackKing(s, i);
      r
  }

  /** `StackUnfoldAnimation.get_frame`: the king alone at the ends of the timeline, all twelve cards peeking at its middle. */
  function StackUnfold(s: Suit, t: int): (r: Frame)
    ensures 5 <= |r| <= 29 && Uniform(r, 9)
  {
    UnfoldAt(s, FrameIndex(UnfoldTimeline, t))
  }

  /** Every lookup on the unfold timeline lands in 0..25, so the unfold never passes the twelfth card. */
  lemma TimelineRange(t: int)
    ensures 0 <= FrameIndex(UnfoldTimeline, t) <= 25
  {
  }

  /** Every frame of one suit's unfold ends with the highlighted king. */
  lemma StackUnfoldKing(s: Suit, t: int)
    ensures var r := StackUnfold(s, t); r[|r| - 5..] == Render(Highlight(King(s)))
  {
    TimelineRange(t);
  }

  /** Before and after the unfold the stack is its king alone; at the turning point all twelve cards peek out. */
  lemma StackUnfoldEnds(s: Suit, t: int)
    ensures (t <= 0 || t >= 51) ==> StackUnfold(s, t) == StackKing(s, 0)
    ensures (t == 25 || t == 26) ==> |StackUnfold(s, t)| == 29
  {
    var r := StackUnfold(s, t);
    if t <= 0 || t >= 51 {
      assert FrameIndex(UnfoldTimeline, t) == 0;
      assert r == r[|r| - 5..];
    }
  }

  /** Unfolding and folding back are mirror images: time `t` and time `51 - t` look the same. */
  lemma StackUnfoldMirror(s: Suit, t: int)
    ensures StackUnfold(s, t) == StackUnfold(s, 51 - t)
  {
    MirrorIndex(UnfoldTimeline, t);
  }

  /** `[i for i in range(61)] + [(60 - i) for i in range(61)]`. */
  const UnfoldBase: seq<int> := Up(0, 61) + Down(60, 61)

  /** The four stacks at base index `fi`: each suit lags the next by four frames, Diamonds leading. */
  function UnfoldColumns(fi: int): (r: seq<Frame>)
    ensures |r| == 4 && CardColumns(r)
    ensures forall k :: 0 <= k < 4 ==> 5 <= |r[k]| <= 29
  {
    seq(4, k requires 0 <= k < 4 => Lagging(fi, k))
  }

  /** Suit `k`'s stack at base index `fi`. */
  function Lagging(fi: int, k: nat): (r: Frame)
    requires k < 4
    ensures 5 <= |r| <= 29 && Uniform(r, 9)
  {
    StackUnfold(Suits[k], fi - (3 - k) * 4)
  }

  /** Column `k` is suit `k`'s own stack, running `(3 - k) * 4` frames behind the base index. */
  lemma UnfoldColumnsAt(fi: int, k: nat)
    requires k < 4
    ensures UnfoldColumns(fi)[k] == StackUnfold(Suits[k], fi - (3 - k) * 4)
  {
  }

  /** `StacksUnfoldAnimation.get_frame`: the four stacks side by side, centred. */
  function StacksUnfold(t: int): (r: Frame)
    ensures 5 <= |r| <= 29 && Uniform(r, 97)
  {
    StageUniform(UnfoldColumns(FrameIndex(UnfoldBase, t)), 0);
    Stage(UnfoldColumns(FrameIndex(UnfoldBase, t)), 0)
  }

  /**
   * Line `i` of an unfold frame shows, from column `26 + 12 * k`, line `i` of
   * suit `k`'s own stack, running `(3 - k) * 4` frames behind the base index.
   */
  lemma StacksUnfoldShows(t: int, i: nat, k: nat)
    requires k < 4 && i < |StacksUnfold(t)|
    ensures var row := Visible(StacksUnfold(t)[i]); var lo := 26 + 12 * k;
      var col := StackUnfold(Suits[k], FrameIndex(UnfoldBase, t) - (3 - k) * 4);
      lo + 9 <= |row| && row[lo..lo + 9] == Visible(Cell(col, i))
  {
    var fs := UnfoldColumns(FrameIndex(UnfoldBase, t));
    var lo := 26 + 12 * k;
    assert StacksUnfold(t) == Stage(fs, 0);
    UnfoldColumnsAt(FrameIndex(UnfoldBase, t), k);
    StageAt(fs, 0, i, k, lo);
    var row := Visible(Stage(fs, 0)[i]);
    assert row[lo..lo + 9] == Visible(Cell(fs[k], i));
  }

  /**
   * While the unfold has reached card `fi / 2`, every card below it peeks out
   * with its two top lines, and card `k` is the plain rank `k + 1` of the suit.
   */
  lemma UnfoldPeeksRanks(s: Suit, fi: int, k: nat)
    requires 0 <= fi && k < 12 && k < fi / 2
    ensures 2 * k + 1 < |UnfoldAt(s, fi)|
    ensures UnfoldAt(s, fi)[2 * k] == Render(Card(s, k + 1, 0))[0]
    ensures UnfoldAt(s, fi)[2 * k + 1] == Render(Card(s, k + 1, 0))[1]
  {
    var cards := LowerCards(s);
    var p := Peeks(cards, fi / 2, fi % 2, 12);
    assert UnfoldAt(s, fi) == p + StackKing(s, fi / 2);
    PeeksAt(cards, fi / 2, fi % 2, 12, k);
    LowerCardsRanks(s, k);
  }

  lemma StacksUnfoldMirror(t: int)
    ensures StacksUnfold(t) == StacksUnfold(121 - t)
  {
    MirrorIndex(UnfoldBase, t);
  }

  /** The running total `t += i // 2` after step `i` of the unfold schedule. */
  function UnfoldSum(i: nat): nat
  {
    (if i == 0 then 0 else UnfoldSum(i - 1)) + i / 2
  }

  /** The schedule accelerates quadratically: after step `i` it has advanced `(i // 2) * ((i + 1) // 2)` frames. */
  lemma {:induction false} UnfoldSumClosed(i: nat)
    ensures UnfoldSum(i) == (i / 2) * ((i + 1) / 2)
  {
    if i > 0 {
      UnfoldSumClosed(i - 1);
      var h := i / 2;
      if i % 2 == 0 {
        assert (i - 1) / 2 == h - 1 && i / 2 == h && (i + 1) / 2 == h;
        assert (h - 1) * h + h == h * h;
      } else {
        assert (i - 1) / 2 == h && i / 2 == h && (i + 1) / 2 == h + 1;
        assert h * h + h == h * (h + 1);
      }
    }
  }

  /** The first `n` entries of the unfold schedule, appended one per step as the source's loop does. */
  function Schedule(n: nat): (r: seq<int>)
    ensures |r| == n
    ensures forall i :: 0 <= i < n ==> r[i] == UnfoldSum(i)
  {
    if n == 0 then [] else Schedule(n - 1) + [UnfoldSum(n - 1)]
  }

  const UnfoldSchedule: seq<int> := Schedule(23)

  /** The schedule starts folded, never moves backwards, stays inside the base timeline and ends folded again at its last entry. */
  lemma UnfoldScheduleSpans()
    ensures |UnfoldSchedule| == 23
    ensures UnfoldSchedule[0] == 0 && UnfoldSchedule[22] == |UnfoldBase| - 1
    ensures forall i :: 0 < i < 23 ==> UnfoldSchedule[i - 1] <= UnfoldSchedule[i]
    ensures forall i :: 0 <= i < 23 ==> 0 <= UnfoldSchedule[i] < |UnfoldBase|
  {
    UnfoldSumClosed(22);
    var last := UnfoldSum(22);
    assert last == 11 * 11;
    assert |UnfoldBase| == 122;
    forall i | 0 <= i < 23
      ensures UnfoldSchedule[i] <= last
    {
      UnfoldSumMono(i, 22);
    }
    forall i | 0 < i < 23
      ensures UnfoldSchedule[i - 1] <= UnfoldSchedule[i]
    {
      UnfoldSumMono(i - 1, i);
    }
  }

  /** Played along its schedule, the unfold ends where it began: all four stacks folded. */
  lemma UnfoldScheduleReturns()
    ensures StacksUnfold(UnfoldSchedule[22]) == StacksUnfold(UnfoldSchedule[0])
  {
    UnfoldScheduleSpans();
    StacksUnfoldMirror(0);
  }


  lemma {:induction false} UnfoldSumMono(i: nat, j: nat)
    requires i <= j
    ensures UnfoldSum(i) <= UnfoldSum(j)
    decreases j - i
  {
    if i < j {
      UnfoldSumMono(i, j - 1);
    }
  }

  // ---------------------------------------------------------------------
  // The congratulation

  /** The six rows of the banner's first word, each cut into short literals. */
  const FirstWord: seq<string> := [
    @"   ______   _" + @"_____   .__  " + @" __.   ______" + @"_ .______    " + @"      ___   ." + @"___________. " + @"   _______.  " + @"  __  ",
    @"  /      | / " + @" __  \  |  \ " + @"|  |  /  ____" + @"_||   _  \   " + @"     /   \  |" + @"           | " + @"  /       |  " + @" |  | ",
    @" |  ,----'|  " + @"|  |  | |   \" + @"|  | |  |  __" + @"  |  |_)  |  " + @"    /  ^  \ `" + @"---|  |----` " + @" |   (----`  " + @" |  | ",
    @" |  |     |  " + @"|  |  | |  . " + @"`  | |  | |_ " + @"| |      /   " + @"   /  /_\  \ " + @"   |  |      " + @"  \   \      " + @" |  | ",
    @" |  `----.|  " + @"`--'  | |  |\" + @"   | |  |__| " + @"| |  |\  \---" + @"-./  _____  \" + @"   |  |    .-" + @"---)   |     " + @" |__| ",
    @"  \______| \_" + @"_____/  |__| " + @"\__|  \______" + @"| | _| `.____" + @"_/__/     \__" + @"\  |__|    |_" + @"______/      " + @" (__) "
  ]

  /** The six rows of the banner's second line of lettering. */
  const SecondWord: seq<string> := [
    @"       ____  " + @"  ____  _____" + @"_    __    __" + @"     ____    " + @"__    ____  _" + @"_____   .__  " + @" __.     __  " + @"      ",
    @"       \   \ " + @" /   / /  __ " + @" \  |  |  |  " + @"|    \   \  /" + @"  \  /   / / " + @" __  \  |  \ " + @"|  |    |  | " + @"      ",
    @"        \   \" + @"/   / |  |  |" + @"  | |  |  |  " + @"|     \   \/ " + @"   \/   / |  " + @"|  |  | |   \" + @"|  |    |  | " + @"      ",
    @"         \_  " + @"  _/  |  |  |" + @"  | |  |  |  " + @"|      \     " + @"       /  |  " + @"|  |  | |  . " + @"`  |    |  | " + @"      ",
    @"           | " + @" |    |  `--'" + @"  | |  `--'  " + @"|       \    " + @"/\    /   |  " + @"`--'  | |  |\" + @"   |    |__| " + @"      ",
    @"           |_" + @"_|     \_____" + @"_/   \______/" + @"         \__/" + @"  \__/     \_" + @"_____/  |__| " + @"\__|    (__) " + @"      "
  ]

  /** Line `i` of the 25-line banner: the two words, each framed by blank rows. */
  function BannerLine(i: int): (s: string)
    requires 0 <= i < 25
    ensures |s| == 97
  {
    if 4 <= i < 10 then FirstWord[i - 4]
    else if 14 <= i < 20 then SecondWord[i - 14]
    else Spaces(97)
  }

  /** `congrats.splitlines()`, each line in the grey edge colour. */
  function Banner(): (r: Frame)
    ensures |r| == 25 && Uniform(r, 97)
    ensures forall i :: 0 <= i < 25 ==> Visible(r[i]) == BannerLine(i)
  {
    seq(25, i requires 0 <= i < 25 => Wrap(Grey, Plain(BannerLine(i))))
  }

  const Tip: string := "                                Press [ n ] To Start New Game ...                                "

  /** The timeline entry whose frame adds the restart tip. */
  const Final: int := 99999999999

  function Repeat(s: seq<int>, n: nat): (r: seq<int>)
    ensures |r| == n * |s|
  {
    if n == 0 then [] else s + Repeat(s, n - 1)
  }

  /**
   * Sparkle off-centre, slide to the centre (entries below -10000), sparkle
   * at the centre, unfold the stacks on the accelerating schedule, sparkle
   * again, and finish with the tip.
   */
  const CongratsTimeline: seq<int> := OffCentre + Slide + Hold + UnfoldSchedule + Closing + [Final]

  /** Three plain frames, then three rounds of three plain and three highlighted, off centre. */
  const OffCentre: seq<int> := [-1, -1, -1] + Repeat([-1, -1, -1, -2, -2, -2], 3)

  const Slide: seq<int> := Up(-20000, |TranslateTimeline|)

  const Hold: seq<int> := Repeat([10002], 6)

  const Closing: seq<int> := [10002, 10002, 10002, 10001, 10001, 10001]

  /** The lines for one timeline entry, before they are fitted to the screen. */
  function Scene(fi: int): (r: Frame)
    ensures Uniform(r, 97)
  {
    if fi < 0 then
      if fi < -10000 then Translate(fi + 20000) else StacksSparkle(24, fi)
    else
      var top := if fi > 10000 then StacksSparkle(0, fi) else StacksUnfold(fi);
      var tip := if fi == Final then [Wrap(Grey, Plain(Tip))] else [];
      UniformAppend(top, Banner(), 97);
      UniformAppend(top + Banner(), tip, 97);
      top + Banner() + tip
  }

  /** Any sparkle entry other than the sentinel shows the centred kings over the banner, with no tip. */
  lemma HoldScene(fi: int)
    requires 10000 < fi && fi != Final
    ensures Scene(fi) == StacksSparkle(0, fi) + Banner() + []
  {
  }

  /** Exactly 35 lines: a shorter block is padded with 97 plain blanks, a longer one cut. */
  function Fit(lines: Frame): (r: Frame)
    ensures |r| == 35
    ensures |lines| >= 35 ==> r == lines[..35]
    ensures |lines| < 35 ==> r[..|lines|] == lines
    ensures forall i :: |lines| <= i < 35 ==> r[i] == Plain(Spaces(97))
    ensures Uniform(lines, 97) ==> Uniform(r, 97)
  {
    if |lines| < 35 then lines + seq(35 - |lines|, _ => Plain(Spaces(97)))
    else lines[..35]
  }

  /** `CongratulationAnimation.get_frame`. */
  function Congratulation(t: int): (r: Frame)
    ensures |r| == 35 && Uniform(r, 97)
  {
    Fit(Scene(FrameIndex(CongratsTimeline, t)))
  }


  /** Entry `q * |s| + j` of a repeated pattern is entry `j` of the pattern. */
  lemma {:induction false} RepeatAt(s: seq<int>, n: nat, q: nat, j: nat, t: nat)
    requires j < |s| && q < n && t == q * |s| + j
    ensures t < |Repeat(s, n)| && Repeat(s, n)[t] == s[j]
    decreases n
  {
    if q > 0 {
      MulSucc(q, |s|);
      RepeatAt(s, n - 1, q - 1, j, t - |s|);
    }
  }

  /** Off centre the kings stay plain for three frames, then blink in threes: plain on -1, highlighted on -2. */
  lemma OffCentreBlinks()
    ensures |OffCentre| == 21
    ensures forall t :: 0 <= t < 21 ==> OffCentre[t] == if t < 3 || (t - 3) % 6 < 3 then -1 else -2
  {
    var p := [-1, -1, -1, -2, -2, -2];
    forall t | 3 <= t < 21
      ensures OffCentre[t] == if (t - 3) % 6 < 3 then -1 else -2
    {
      RepeatAt(p, 3, (t - 3) / 6, (t - 3) % 6, t - 3);
      assert OffCentre[t] == Repeat(p, 3)[t - 3];
    }
  }

  /** Where each stage sits in the 66-entry timeline. */
  lemma CongratsStages()
    ensures |CongratsTimeline| == 66
    ensures forall t :: 0 <= t < 21 ==> CongratsTimeline[t] == OffCentre[t]
    ensures forall t :: 21 <= t < 30 ==> CongratsTimeline[t] == t - 21 - 20000
    ensures forall t :: 30 <= t < 36 ==> CongratsTimeline[t] == 10002
    ensures forall t :: 36 <= t < 59 ==> CongratsTimeline[t] == UnfoldSchedule[t - 36]
    ensures forall t :: 59 <= t < 65 ==> CongratsTimeline[t] == Closing[t - 59]
    ensures CongratsTimeline[65] == Final
  {
    OffCentreBlinks();
    assert Hold == [10002, 10002, 10002, 10002, 10002, 10002];
    assert |Slide| == 9 && |UnfoldSchedule| == 23;
  }

  /** Frames 0 to 20: the blinking kings 24 columns right of centre, and blank lines below them. */
  lemma CongratsOpens(t: int)
    requires 0 <= t < 21
    ensures Congratulation(t)[..5] == StacksSparkle(24, OffCentre[t])
    ensures forall i :: 5 <= i < 35 ==> Congratulation(t)[i] == Plain(Spaces(97))
  {
    CongratsStages();
    OffCentreBlinks();
    assert FrameIndex(CongratsTimeline, t) == OffCentre[t];
  }

  /** Frames 21 to 29: the kings slide to the centre, with blank lines below them. */
  lemma CongratsSlides(t: int)
    requires 21 <= t < 30
    ensures Congratulation(t)[..5] == Translate(t - 21)
    ensures forall i :: 5 <= i < 35 ==> Congratulation(t)[i] == Plain(Spaces(97))
  {
    CongratsStages();
    assert FrameIndex(CongratsTimeline, t) == t - 21 - 20000;
  }

  /** Above the cut, a fitted block keeps its lines where they were. */
  lemma FitKeeps(lines: Frame, i: int)
    requires 0 <= i < |lines| && i < 35
    ensures Fit(lines)[i] == lines[i]
  {
    if |lines| < 35 {
      assert Fit(lines)[..|lines|][i] == lines[i];
    }
  }

  /** A top block of at most 35 lines survives the fit intact. */
  lemma FitTop(lines: Frame, top: Frame)
    requires |top| <= 35 && |top| <= |lines| && lines[..|top|] == top
    ensures Fit(lines)[..|top|] == top
  {
    forall i | 0 <= i < |top|
      ensures Fit(lines)[i] == top[i]
    {
      FitKeeps(lines, i);
      assert lines[..|top|][i] == lines[i];
    }
  }

  /** Below a top block, a fitted scene shows the banner from its first row. */
  lemma FitBanner(lines: Frame, top: Frame, rest: Frame, i: int)
    requires lines == top + Banner() + rest
    requires |top| <= i < 35 && i < |top| + 25
    ensures Visible(Fit(lines)[i]) == BannerLine(i - |top|)
  {
    FitKeeps(lines, i);
    assert lines[i] == Banner()[i - |top|];
  }

  /** The scene of an unfolding entry: the stacks with the banner below and no tip. */
  lemma UnfoldScene(fi: int)
    requires 0 <= fi <= 121
    ensures Scene(fi) == StacksUnfold(fi) + Banner() + []
  {
  }

  /** Frames 36 to 58: the stacks unfold on their schedule, the banner directly below them, and the screen cut at 35 lines. */
  lemma CongratsUnfolds(t: int)
    requires 36 <= t < 59
    ensures var top := StacksUnfold(UnfoldSchedule[t - 36]);
      Congratulation(t)[..|top|] == top
      && (forall i :: |top| <= i < 35 && i < |top| + 25 ==> Visible(Congratulation(t)[i]) == BannerLine(i - |top|))
      && (forall i :: |top| + 25 <= i < 35 ==> Congratulation(t)[i] == Plain(Spaces(97)))
  {
    UnfoldIndex(t);
    var fi := UnfoldSchedule[t - 36];
    var top := StacksUnfold(fi);
    UnfoldScene(fi);
    assert Congratulation(t) == Fit(top + Banner() + []);
    FitOverBanner(top);
  }

  /** A block of at most 29 lines over the banner keeps its lines, then shows the banner as far as 35 lines reach, then blanks. */
  lemma FitOverBanner(top: Frame)
    requires |top| <= 29
    ensures var f := Fit(top + Banner() + []);
      f[..|top|] == top
      && (forall i :: |top| <= i < 35 && i < |top| + 25 ==> Visible(f[i]) == BannerLine(i - |top|))
      && (forall i :: |top| + 25 <= i < 35 ==> f[i] == Plain(Spaces(97)))
  {
    var lines := top + Banner() + [];
    assert lines[..|top|] == top;
    FitTop(lines, top);
    forall i | |top| <= i < 35 && i < |top| + 25
      ensures Visible(Fit(lines)[i]) == BannerLine(i - |top|)
    {
      FitBanner(lines, top, [], i);
    }
  }

  /** The last scene: the centred plain kings, the banner, and the grey tip. */
  lemma FinalScene()
    ensures Scene(Final) == StacksSparkle(0, Final) + Banner() + [Wrap(Grey, Plain(Tip))]
  {
  }

  /** From entry 65 on the timeline is clamped at its last entry. */
  lemma FinalIndex(t: int)
    requires t >= 65
    ensures FrameIndex(CongratsTimeline, t) == Final
  {
    CongratsStages();
  }

  /** Frames 36 to 58 play the unfold schedule, whose entries all lie on the base timeline. */
  lemma UnfoldIndex(t: int)
    requires 36 <= t < 59
    ensures 0 <= UnfoldSchedule[t - 36] <= 121
    ensures FrameIndex(CongratsTimeline, t) == UnfoldSchedule[t - 36]
  {
    CongratsStages();
    UnfoldScheduleSpans();
  }

  /** The hold (frames 30..35) and the closing entries (59..64): highlighted kings on 10002, plain ones on 10001. */
  lemma HoldIndex(t: int)
    requires 30 <= t < 36 || 59 <= t < 65
    ensures (30 <= t < 36 || 59 <= t < 62) ==> FrameIndex(CongratsTimeline, t) == 10002
    ensures 62 <= t < 65 ==> FrameIndex(CongratsTimeline, t) == 10001
  {
    CongratsStages();
  }

  /**
   * Frames 30..35 and 59..64 show the centred kings (lit while the entry is
   * 10002, plain on 10001), the banner below them, and blanks under it.
   */
  lemma CongratsCloses(t: int)
    requires 30 <= t < 36 || 59 <= t < 65
    ensures var fi := FrameIndex(CongratsTimeline, t); var top := StacksSparkle(0, fi);
      fi > 10000 && fi != Final && |top| == 5
      && Congratulation(t)[..|top|] == top
      && (forall i :: |top| <= i < 35 && i < |top| + 25 ==> Visible(Congratulation(t)[i]) == BannerLine(i - |top|))
      && (forall i :: |top| + 25 <= i < 35 ==> Congratulation(t)[i] == Plain(Spaces(97)))
  {
    ClosingScene(t);
    FitOverBanner(StacksSparkle(0, FrameIndex(CongratsTimeline, t)));
  }

  /** Frames 30..35 and 59..64 fit the centred kings over the banner, without the tip. */
  lemma ClosingScene(t: int)
    requires 30 <= t < 36 || 59 <= t < 65
    ensures var fi := FrameIndex(CongratsTimeline, t);
      fi > 10000 && fi != Final && |StacksSparkle(0, fi)| == 5
      && Congratulation(t) == Fit(StacksSparkle(0, fi) + Banner() + [])
  {
    HoldIndex(t);
    SparkleOverBanner(FrameIndex(CongratsTimeline, t));
  }

  /** A sparkle entry other than the sentinel, fitted: the five king lines, the banner, then blanks. */
  lemma SparkleOverBanner(fi: int)
    requires 10000 < fi && fi != Final
    ensures |StacksSparkle(0, fi)| == 5
    ensures Fit(Scene(fi)) == Fit(StacksSparkle(0, fi) + Banner() + [])
  {
    HoldScene(fi);
  }

  /** From frame 65 on the picture holds still. */
  lemma CongratsHolds(t: int)
    requires t >= 65
    ensures Congratulation(t) == Congratulation(65)
  {
    FinalIndex(t);
    FinalIndex(65);
  }

  /** A five-line top block, the banner and one more line, fitted to the screen. */
  lemma FitClosing(lines: Frame, top: Frame, last: Line)
    requires |top| == 5 && lines == top + Banner() + [last]
    ensures Fit(lines)[..5] == top
    ensures forall i :: 5 <= i < 30 ==> Visible(Fit(lines)[i]) == BannerLine(i - 5)
    ensures Fit(lines)[30] == last
    ensures forall i :: 31 <= i < 35 ==> Fit(lines)[i] == Plain(Spaces(97))
  {
    assert lines[..5] == top;
    FitTop(lines, top);
    forall i | 5 <= i < 30
      ensures Visible(Fit(lines)[i]) == BannerLine(i - 5)
    {
      FitBanner(lines, top, [last], i);
    }
    FitKeeps(lines, 30);
    assert lines[30] == last;
  }

  /** The closing picture: centred plain kings, the banner, the tip on line 30, and blanks below. */
  lemma CongratsEnds(t: int)
    requires t >= 65
    ensures Congratulation(t)[..5] == StacksSparkle(0, Final)
    ensures forall i :: 5 <= i < 30 ==> Visible(Congratulation(t)[i]) == BannerLine(i - 5)
    ensures Visible(Congratulation(t)[30]) == Tip
    ensures forall i :: 31 <= i < 35 ==> Congratulation(t)[i] == Plain(Spaces(97))
  {
    FinalIndex(t);
    FinalScene();
    FitClosing(Scene(Final), StacksSparkle(0, Final), Wrap(Grey, Plain(Tip)));
  }

}
