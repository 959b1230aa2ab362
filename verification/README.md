# FreeCell engine and celebration timeline, in Dafny

This project models the core of a terminal FreeCell game written in Python. The model covers four parts.

- **The engine** (`freecell/game.py`), in modules `Stacks`, `Game` and `Invariants`.
  - It has three stack kinds with their own push rules:
    - a tableau column;
    - a foundation seeded with a rank-0 placeholder;
    - a one-card buffer, or free cell.
  - The board has sixteen slots under one flat index: tableau 0..7, foundations 8..11, buffers 12..15.
  - It models the deal and the grab/place selection.
  - It models the 2 x 8 wrap-around cursor.
  - It models auto-sort, which moves one card to a foundation.
  - It models undo over a (from, to) history.
  - It models the lifecycle: playing, confirming a restart, won.
  - Every handler is a pure function. `None` is the source's early `return`; `Some` is a handler that reached `refresh`, which runs the win test.
  - `Invariants.Valid` is an invariant that every command preserves (`Invariants.StepValid`). From it follow:
    - the 52 cards are conserved;
    - undo exactly reverses the last committed move;
    - the won phase coincides with four complete foundations.
- **The win celebration** (`animation.py`), in module `Animation`.
  - Frames are a pure function of the frame number.
  - Timelines are clamped at both ends.
  - The composition is:
    - the blinking kings;
    - the slide to the centre;
    - the four staggered unfold columns;
    - the banner and the final frame with the restart tip.
  - Every frame has 35 lines of 97 visible columns.
- **Cards** (`freecell/common.py`), in modules `Cards` and `Text`.
  - It models the suit colour classes and the rank label.
  - It models the five-line card face and highlighting.
  - Terminal escape codes are not spelled out. A line is a sequence of spans, each carrying its wrappers (suit colour, reverse video, grey edge colour). Only the visible text and the wrapper order are modelled.
- **The earlier prototype** (`freecell.py`), in module `Legacy`.
  - It models the prototype's deal (column 0 is emptied).
  - It models the `a`/`d`/`s`/`w` keys, and `__stack_to_stack`, the prototype's move-legality check.
  - It models the prototype's `w` crash as an explicit `IndexError` outcome, with a corrected variant (see Findings).

`maybe.dfy` holds the `Option` type.

Python integers are unbounded, and so are Dafny's. The only modulo the source applies to a possibly negative number is `t % 2` in the sparkle. Python floors it and Dafny's is Euclidean; with a positive divisor both give the same non-negative result.

Four behaviours of the code that the model keeps as written:
- Tab on the slot that holds the grab releases it (`freecell/game.py:396-406`).
- Won is sticky: in state 2 only Reset acts (`freecell/game.py:338-340`), so an undo never leaves the won phase.
- Auto-sort skips a top card that no foundation accepts and scans on to the next slot (`freecell/game.py:474-491`).
- The deal is never checked for size. A shuffle of the 52-card deck always fills the columns 3..10.

## Model

| member | source | states |
|---|---|---|
| `Cards.SuitIndex` | freecell/game.py:363-367 | every suit has one position in the suit order that the deck, the foundations and the celebration share |
| `Cards.Class` | freecell/common.py:14-17 | colour class 0 is exactly the blue suits and class 1 exactly the red ones |
| `Cards.ClassesPaired` | freecell/common.py:14-17 | Spades and Clubs form class 0, Hearts and Diamonds class 1: two suits per class |
| `Cards.RankLabel` | freecell/common.py:27-39 | the label has one or two characters; it is a blank exactly for ranks outside 1..13; on 1..13 it reads back to the rank |
| `Cards.FaceText` | freecell/common.py:41-49 | a face has five lines of nine visible characters for every rank, including the 2-character "10" and the blank label |
| `Cards.FaceLayout` | freecell/common.py:43-49 | the symbol sits on the face's diagonal; the rank is left-justified in four columns at the top and right-justified at the bottom |
| `Cards.Face` | freecell/common.py:43-56 | the wrapped lines show exactly the face text, five lines nine columns wide, whatever colour or highlight wraps them |
| `Cards.Render` | freecell/common.py:26-56 | a card renders as exactly five lines of nine visible columns |
| `Cards.Highlight` | freecell/common.py:61-62 | highlight keeps suit and rank and marks the card highlighted; a card already highlighted stays as it is |
| `Cards.HighlightReverses` | freecell/common.py:54-62 | highlight keeps suit and rank and sets h = 1; each rendered line is the plain line wrapped once more in reverse video |
| `Cards.SuitlessBlank` | freecell/common.py:41-52 | a suitless card shows a blank symbol and gets no colour wrapper, only reverse video when highlighted |
| `Text.Wrap` | freecell/common.py:50-55 | wrapping each line keeps the span count and the visible text, and adds the wrapper outermost on every span |
| `Text.LeftJustify` | freecell/common.py:45 | `<n` formatting pads with spaces to n columns and never truncates; the text stays at the front and only spaces follow it |
| `Text.RightJustify` | freecell/common.py:47 | `>n` formatting pads with spaces to n columns and never truncates; the text stays at the back and only spaces precede it |
| `Text.Pad` | animation.py:67 | padding shows the left spaces, the line, then the right spaces; a negative count adds nothing |
| `Text.JoinWidth` | animation.py:58-65 | joining n parts of width w gives n * w columns plus n - 1 separators |
| `Text.JoinAt` | animation.py:58-65 | in such a join, part k occupies the w columns from k * (w + separator width) |
| `Stacks.Peek` | freecell/game.py:112-135 | a card is shown exactly when the stored list holds more than its reserved placeholder; it is the list's last entry |
| `Stacks.Pop` | freecell/game.py:115-138 | the top real card is removed and the rest stays in order; with only a placeholder or nothing, the stack is unchanged |
| `Stacks.Append` | freecell/game.py:92-93 | the stored list grows by exactly the given card |
| `Stacks.Push` | freecell/game.py:118-189 | tableau: accepted iff empty, or one rank below the top in the other class; foundation: iff the top's suit, one rank up; buffer: iff empty; an accepted push is exactly an append |
| `Stacks.PushPop` | freecell/game.py:118-147 | after an accepted push the card is on top, and popping it gives back the stack |
| `Stacks.PopAppend` | freecell/game.py:498-501 | putting back the card just popped restores the stack |
| `Stacks.PushKeepsOk` | freecell/game.py:129-189 | accepted pushes keep a foundation as its placeholder then ranks 1..k of its suit, and a buffer at one card |
| `Stacks.PopKeepsOk` | freecell/game.py:134-138 | pops keep the same foundation and buffer shape |
| `Game.Deck` | freecell/game.py:363-364 | the deck has 52 plain cards of rank 1..13 |
| `Game.Column` | freecell/game.py:375-379 | column j is a tableau column that receives exactly j + 3 cards, and the running index plus j + 3 stays within the deck; which cards they are is stated by `Invariants.DealPrefix` and `Invariants.DealPartitions` |
| `Game.DealStartBound` | freecell/game.py:375-379 | the running index before column j is 3j + j(j-1)/2, so every column fits in 52 cards |
| `Game.DealBoard` | freecell/game.py:367-379 | columns 0..7 are dealt in order; foundations hold only their suit's placeholder; buffers are empty |
| `Game.WinTest` | freecell/game.py:332-333 | the shortest foundation list has 14 entries exactly when every foundation list has at least 14 and one has exactly 14; `Invariants.WinMeansComplete` turns this into four complete foundations |
| `Game.Refresh` | freecell/game.py:330-335 | only the phase can change, and it becomes Won exactly when the win test passes |
| `Game.Restart` | freecell/game.py:362-379 | a fresh game is playing and idle, with no history and an unset cursor; column j has j + 3 cards; foundations have their placeholder only; buffers are empty |
| `Game.Commit` | freecell/game.py:396-401 | the target gets the card on top, the source loses its top card, and every other slot is untouched |
| `Game.Undone` | freecell/game.py:498-501 | the target loses its top card, which goes onto the source without a legality check; other slots are untouched |
| `Game.HandleTab` | freecell/game.py:386-418 | unset cursor: nothing; idle: grab the top card under the cursor, or nothing on an empty slot; holding: release on the source, nothing if the target rejects, otherwise commit and record (source, target) |
| `Game.HandleEsc` | freecell/game.py:420-433 | nothing happens exactly when idle; otherwise only the grab is released |
| `Game.MoveCursor` | freecell/game.py:435-467 | the first press from the unset cursor jumps to (7,0), (0,0), (0,0) or (0,1); after that, left/right wrap the column mod 8 and up/down toggle the row |
| `Game.CursorReturns` | freecell/game.py:435-467 | on a set cursor left and right undo each other, and two up or down presses come back to the same cell |
| `Game.GrabThenEsc` | freecell/game.py:407-433 | a grab leaves board and history alone, and Esc right after it gives back the game exactly |
| `Game.Accepting` | freecell/game.py:477-478 | the first foundation that accepts the card; every earlier one rejects it, and none is returned only when all four reject |
| `Game.FirstTrue` | freecell/game.py:474-491 | the first set flag from n on: all earlier flags are clear, and none is returned only when every flag is clear |
| `Game.FirstSortable` | freecell/game.py:474-491 | the first of tableau 0..7 then buffers 12..15 whose top card some foundation accepts, with every earlier slot ineligible |
| `Game.SortableFlags` | freecell/game.py:474-491 | flag m says whether the m-th scanned slot has a top card that a foundation accepts |
| `Game.HandleSpace` | freecell/game.py:471-491 | nothing exactly while holding or when no scanned slot is eligible; otherwise the first eligible slot's top card goes to the first accepting foundation, with one history entry |
| `Game.HandleUndo` | freecell/game.py:493-502 | nothing exactly while holding or with empty history; otherwise the last record is dropped and its card moved back, keeping selection, cursor and phase |
| `Game.Settle` | freecell/game.py:386-502 | a handler that returned early leaves the game as it was; one that reached `refresh` keeps its board, history, selection and cursor, and enters Won exactly when the win test passes |
| `Game.Step` | freecell/game.py:337-360 | Won ignores all but Reset; ConfirmRestart restarts on Reset, goes back to play on Esc and ignores the rest; Playing goes to ConfirmRestart on Reset, moves the cursor on arrows, and changes history by at most one entry per command |
| `Invariants.DeckComplete` | freecell/game.py:363-364 | the deck holds exactly the plain cards of rank 1..13, with no card twice |
| `Invariants.DeckOnce` | freecell/game.py:363-364 | every deck card occurs exactly once |
| `Invariants.ShuffleSize` | freecell/game.py:365 | any shuffle of the deck has 52 cards |
| `Invariants.DealPartitions` | freecell/game.py:375-379 | the tableau, read column by column, is exactly the shuffled deck, and no other slot holds a card |
| `Invariants.DealPrefix` | freecell/game.py:375-379 | the first j columns hold exactly the shuffle's first DealStart(j) cards |
| `Invariants.DealOk` | freecell/game.py:362-379 | the dealt board has the right slot kinds, sound stacks and the 52 cards, and is not won |
| `Invariants.RestartValid` | freecell/game.py:362-379 | a new game satisfies the invariant, and every deck card is on its board exactly once |
| `Invariants.ValidUndoDefined` | freecell/game.py:493-501 | in every valid game the last move's target still shows a card, so undo never pops an empty slot |
| `Invariants.CommitUndone` | freecell/game.py:493-501 | undoing a committed move gives back the board card for card |
| `Invariants.AddsCard` | freecell/game.py:92-93 | one more card on a stack adds exactly that card to the board's cards |
| `Invariants.RemovesCard` | freecell/game.py:115-116 | taking the top card off removes exactly that card from the board's cards |
| `Invariants.MoveConserves` | freecell/game.py:398-400 | moving a top card between two stacks keeps the same multiset of cards |
| `Invariants.CommitConserves` | freecell/game.py:396-401 | a committed move keeps the board's 52 cards |
| `Invariants.CommitLayout` | freecell/game.py:383-384 | a committed move keeps every slot's kind and the foundations' suit order |
| `Invariants.CommitStacks` | freecell/game.py:396-401 | a committed move keeps every foundation ordered and every buffer at one card |
| `Invariants.CommitOk` | freecell/game.py:396-401 | a committed move keeps layout, stack shapes and the 52 cards together |
| `Invariants.CommitReplayable` | freecell/game.py:401 | after a committed move, the extended history can still be undone all the way back through sound boards |
| `Invariants.CommitValid` | freecell/game.py:396-418 | a committed move during play, then refresh, keeps the game valid |
| `Invariants.FoundationBound` | freecell/game.py:129-147 | a sound foundation holds at most the 13 cards of its suit beside its placeholder |
| `Invariants.WinMeansComplete` | freecell/game.py:330-335 | on a sound board, the shortest foundation list having 14 entries means every foundation holds 13 cards, and conversely |
| `Invariants.FoundationsFill` | freecell/game.py:330-335 | four full foundations account for all 52 cards, so the tableau and buffers are empty |
| `Invariants.WonBoardEmpty` | freecell/game.py:330-335 | when the win test passes, every tableau column and buffer is empty |
| `Invariants.RefreshValid` | freecell/game.py:330-335 | refresh during play sets Won exactly on the win test and keeps the game valid |
| `Invariants.TabPlaceValid` | freecell/game.py:396-406 | placing the held card on another slot that accepts it keeps the game valid |
| `Invariants.TabGrabValid` | freecell/game.py:407-416 | grabbing the top card under the cursor keeps the game valid |
| `Invariants.TabValid` | freecell/game.py:386-418 | every Tab during play keeps the game valid |
| `Invariants.SpaceValid` | freecell/game.py:471-491 | every auto-sort during play keeps the game valid |
| `Invariants.ReplayLast` | freecell/game.py:493-501 | the last recorded move can be undone, onto a sound board from which the rest replays |
| `Invariants.UndoValid` | freecell/game.py:493-502 | every undo during play is defined and keeps the game valid |
| `Invariants.StepValid` | freecell/game.py:337-360 | every command, in every phase, keeps a valid game valid |
| `Invariants.StepUndo` | freecell/game.py:359-360 | during play the Undo command is the undo handler followed by refresh |
| `Invariants.CommitThenUndo` | freecell/game.py:493-501 | undo right after a committed move that did not win restores the board and shortens the history by that record |
| `Invariants.TabUndo` | freecell/game.py:396-501 | a Tab that recorded a move, then Undo, restores the board and the history |
| `Invariants.SpaceUndo` | freecell/game.py:471-501 | an auto-sort that moved a card, then Undo, restores the board and the history |
| `Invariants.UndoAfterMove` | freecell/game.py:337-501 | after any command that recorded a move, Undo restores every stack and the history |
| `Invariants.ValidConsequences` | freecell/game.py:330-340 | in a valid game undo is defined; Won holds exactly when all four foundations are complete, and then the tableau and buffers are empty |
| `Animation.Up` | animation.py:86 | `range`: n consecutive integers from lo |
| `Animation.Down` | animation.py:101 | n consecutive integers counting down from hi |
| `Animation.FrameIndex` | animation.py:32-35 | the entry at t inside the timeline, the first entry before it, the last entry after it; always an entry of the timeline |
| `Animation.MirrorIndex` | animation.py:101-104 | on a palindromic timeline, looking up t and its mirror gives the same entry |
| `Animation.MaxLen` | animation.py:55 | the tallest frame's height: no frame is taller and some frame reaches it |
| `Animation.Columns` | animation.py:57-65 | the joined block is as tall as the tallest frame |
| `Animation.ColumnsAt` | animation.py:57-65 | each joined line is 12 per column minus 3 wide; column k shows that frame's line, or nine spaces past its end, from column 12k |
| `Animation.ColumnsUniform` | animation.py:57-65 | every joined line has the same width |
| `Animation.PadAll` | animation.py:67 | every line is padded by the same left and right spaces, and the count is kept |
| `Animation.PadUniform` | animation.py:67 | padding a uniform block keeps it uniform, with the padding added to the width |
| `Animation.PaddedAt` | animation.py:66-67 | after padding, column k starts left + 12k columns in |
| `Animation.Cell` | animation.py:61-64 | row i of a column is that frame's own line while it lasts and nine blanks after, nine columns wide either way |
| `Animation.Stage` | animation.py:53-68 | the staged block is as tall as the tallest of the four frames |
| `Animation.StageUniform` | animation.py:66-67 | for offsets in -26..26 every staged line is 97 columns wide |
| `Animation.StageAt` | animation.py:53-68 | the k-th frame's line sits at column 26 - offset + 12k of the staged line |
| `Animation.Sparkle` | animation.py:38-45 | a sparkle frame is five lines of nine columns |
| `Animation.SparkleShows` | animation.py:38-45 | at any time a sparkle frame shows the suit's king face |
| `Animation.KingsDiffer` | animation.py:40-42 | the highlighted king renders differently from the plain king |
| `Animation.SparkleBlinks` | animation.py:44-45 | the highlighted king shows exactly at even t (non-negative modulo), the frame alternates each step and repeats every two |
| `Animation.SparkleColumns` | animation.py:50-54 | the four frames are the sparkles of the suits in deck order, each a card column |
| `Animation.StacksSparkle` | animation.py:48-68 | five lines, each 97 columns wide for offsets in -26..26 |
| `Animation.SparkleCell` | animation.py:54-65 | cell i of column k shows line i of that suit's king face |
| `Animation.StacksSparkleShows` | animation.py:53-68 | line i shows line i of suit k's king face from column 26 - offset + 12k |
| `Animation.TranslateShift` | animation.py:86-92 | the offset is in 0..24: 24 at or before the start, 0 at or after the end |
| `Animation.TranslateStep` | animation.py:92 | inside the slide the kings move three columns left per frame |
| `Animation.TranslateMovesLeft` | animation.py:92 | the offset never grows as time goes on |
| `Animation.LitKings` | animation.py:73-74 | the four highlighted kings form card columns |
| `Animation.Translate` | animation.py:71-93 | every slide frame has five lines of 97 columns |
| `Animation.EvenSparkleLit` | animation.py:73-85 | at even times the sparkle columns are the highlighted kings the slide is built from |
| `Animation.TranslateIsShiftedSparkle` | animation.py:71-93 | each slide frame is the highlighted sparkle stage at the slide's offset |
| `Animation.TranslateJoinsSparkles` | animation.py:86-93 | the slide starts on the off-centre sparkle frame and ends on the centred one |
| `Animation.LowerCards` | animation.py:98-107 | the twelve lower cards of a suit are five-line, nine-column faces |
| `Animation.LowerCardsRanks` | animation.py:98-107 | card k of the lower cards is the plain face of rank k + 1 of the suit, showing that rank's face text |
| `Animation.Peeks` | animation.py:115-120 | the peeking lines number 2 * min(i, n), plus j for the partly shown card, all nine columns wide |
| `Animation.PeeksAt` | animation.py:116-118 | a fully passed card k shows its first two lines at positions 2k and 2k + 1 |
| `Animation.StackKing` | animation.py:122-125 | the closing king is five lines of nine columns |
| `Animation.StackKingShows` | animation.py:99-125 | the closing king always shows the suit's king face, and is the plain king exactly once the unfold index passes the twelfth card (i >= 13), highlighted before |
| `Animation.UnfoldAt` | animation.py:106-126 | negative index: no lines; otherwise 2 * min(i, 12) + (j if i < 12) + 5 lines, i = idx / 2, j = idx % 2, ending with the king |
| `Animation.UnfoldPeeksRanks` | animation.py:107-120 | while the unfold has reached card idx / 2, each card k below it peeks out with the first two lines of the plain rank k + 1 face, at positions 2k and 2k + 1 |
| `Animation.StackUnfold` | animation.py:96-126 | every frame of one suit's unfold has 5 to 29 lines of nine columns; `Animation.StackUnfoldKing` shows that it always ends with the highlighted king |
| `Animation.TimelineRange` | animation.py:101-104 | every lookup on the 52-entry unfold timeline, at any t, is an index in 0..25 |
| `Animation.StackUnfoldKing` | animation.py:99-125 | every frame of one suit's unfold, at any t, ends with the highlighted king, because the index never reaches i = 13 |
| `Animation.StackUnfoldEnds` | animation.py:101-126 | before the start and after the end only the king shows; at the turning point all 29 lines show |
| `Animation.StackUnfoldMirror` | animation.py:101-104 | the unfold plays back in reverse: time t and 51 - t give the same frame |
| `Animation.UnfoldColumns` | animation.py:142-146 | four card columns, each 5 to 29 lines tall |
| `Animation.UnfoldColumnsAt` | animation.py:144-146 | column k is suit k's own unfold, run (3 - k) * 4 frames behind the base index, so Diamonds leads and Spades trails by 12 |
| `Animation.StacksUnfold` | animation.py:129-160 | every staged unfold frame has 5 to 29 lines of 97 columns |
| `Animation.StacksUnfoldShows` | animation.py:142-160 | line i of a staged unfold frame shows, from column 26 + 12k, line i of suit k's lagging stack, or nine blanks past its end |
| `Animation.StacksUnfoldMirror` | animation.py:132 | the staged unfold is symmetric about its middle: t and 121 - t agree |
| `Animation.UnfoldSumClosed` | animation.py:133-137 | the running sum of i // 2 has the closed form (i / 2) * ((i + 1) / 2) |
| `Animation.Schedule` | animation.py:133-137 | entry i of the schedule is the running sum up to i |
| `Animation.UnfoldSumMono` | animation.py:135-136 | the running sum never decreases |
| `Animation.UnfoldScheduleSpans` | animation.py:132-137 | 23 non-decreasing entries from 0 to 121, the last base index, all inside the base timeline |
| `Animation.UnfoldScheduleReturns` | animation.py:132-140 | the schedule ends on the same folded picture it starts on |
| `Animation.BannerLine` | animation.py:3-27 | each banner line is 97 columns wide |
| `Animation.Banner` | animation.py:3-27 | the banner has 25 lines of 97 columns, showing the banner text |
| `Animation.Repeat` | animation.py:172 | repeating a pattern n times multiplies its length by n |
| `Animation.RepeatAt` | animation.py:172 | entry q * len + j of a repetition is entry j of the pattern |
| `Animation.OffCentreBlinks` | animation.py:171-172 | the 21 opening entries are three plain frames, then three rounds of three plain and three highlighted |
| `Animation.CongratsTimeline` | animation.py:170-178 | the celebration timeline: the off-centre blinks, the shifted slide, six holds, the unfold schedule, the closing entries and the sentinel; `Animation.CongratsStages` pins every one of its 66 entries |
| `Animation.CongratsStages` | animation.py:170-178 | 66 entries in stage order: 21 sparkle, 9 slide, 6 hold, 23 unfold, 6 closing, then the final sentinel |
| `Animation.Scene` | animation.py:183-196 | every line of a scene is 97 columns wide |
| `Animation.Fit` | animation.py:197-201 | exactly 35 lines: longer input is cut to its first 35 lines; shorter input is kept and followed by 97-space lines |
| `Animation.FitKeeps` | animation.py:197-201 | a line within the first 35 survives the fit unchanged |
| `Animation.FitTop` | animation.py:197-201 | the first lines of the input survive the fit |
| `Animation.FitBanner` | animation.py:194-201 | banner lines under the stacks show the banner text |
| `Animation.FitClosing` | animation.py:194-201 | five stack lines, 25 banner lines and the tip, then four blank lines |
| `Animation.Congratulation` | animation.py:180-202 | every frame has 35 lines of 97 columns |
| `Animation.CongratsOpens` | animation.py:184-188 | frames 0..20 show the sparkle stage 24 columns right of centre over 30 blank lines |
| `Animation.CongratsSlides` | animation.py:185-186 | frames 21..29 show slide frame t - 21 over blank lines |
| `Animation.UnfoldScene` | animation.py:189-194 | an unfold index shows the staged unfold with the banner under it |
| `Animation.UnfoldIndex` | animation.py:175-181 | frames 36..58 look up unfold schedule entry t - 36, which lies on the base timeline |
| `Animation.HoldScene` | animation.py:189-196 | any entry above 10000 other than the sentinel shows the centred sparkle over the banner, with no tip |
| `Animation.HoldIndex` | animation.py:170-178 | frames 30..35 and 59..61 look up 10002 (highlighted kings); frames 62..64 look up 10001 (plain kings) |
| `Animation.SparkleOverBanner` | animation.py:189-201 | for such an entry the fitted screen is the five king lines over the banner, with no tip |
| `Animation.ClosingScene` | animation.py:170-201 | frames 30..35 and 59..64 fit the centred kings of a sparkle entry over the banner |
| `Animation.CongratsCloses` | animation.py:170-201 | frames 30..35 and 59..64 show the five centred king lines, the 25 banner lines under them, then five blank lines |
| `Animation.CongratsUnfolds` | animation.py:189-201 | frames 36..58 show the staged unfold, the banner under it as far as 35 lines reach, then blank lines |
| `Animation.FitOverBanner` | animation.py:194-201 | a block of at most 29 lines over the banner keeps its lines, shows the banner lines under it up to line 35, then blank lines |
| `Animation.FinalScene` | animation.py:190-196 | the sentinel shows the centred sparkle, the banner and the grey tip |
| `Animation.FinalIndex` | animation.py:177-181 | every frame from 65 on looks up the final sentinel |
| `Animation.CongratsHolds` | animation.py:177-202 | every frame from 65 on is the same frame |
| `Animation.CongratsEnds` | animation.py:183-202 | from frame 65 on: the centred kings, the 25 banner lines, the tip on line 30, then blank lines |
| `Legacy.Deal` | freecell.py:220-233 | cursor and trigger start unset; column 0 is empty; column j has j + 3 cards |
| `Legacy.DealPrefix` | freecell.py:227-231 | after the emptied column 0, the first n columns hold the shuffle from card 3 up to the running index |
| `Legacy.DealLeavesFortyNine` | freecell.py:227-233 | the table holds exactly the shuffle minus its first three cards: 49 cards |
| `Legacy.StackToStack` | freecell.py:302-310 | accepted iff the target is empty or the source top is one rank below the target top in the other class; IndexError exactly when the target has cards and the source has none |
| `Legacy.StackToStackIsTableauPush` | freecell.py:302-310 | with a source card, the prototype's check agrees with the tableau push rule of the newer engine |
| `Legacy.MoveTop` | freecell.py:260 | the source loses its top card, the target gains it, and every other stack is untouched |
| `Legacy.WrapCursor` | freecell.py:279-283 | the cursor lands in 0..7 and is kept when already there |
| `Legacy.Press` | freecell.py:246-291 | every completed key press keeps the table well formed and its cards; only `w` moves cards; only `s` and the corrected `w` change the trigger |
| `Legacy.On` | freecell.py:246-291 | a completed press keeps the table well formed |
| `Legacy.OnFixed` | freecell.py:252-263 | a completed corrected press keeps the table well formed |
| `Legacy.Run` | freecell.py:246-291 | a completed key sequence keeps the table well formed and its cards |
| `Legacy.FlatUpdate` | freecell.py:260 | replacing one stack swaps its cards in the table's multiset |
| `Legacy.FlatPart` | freecell.py:260 | each stack's cards are among the table's cards |
| `Legacy.MoveConserves` | freecell.py:260 | moving a top card keeps the table's multiset of cards |
| `Legacy.CursorWraps` | freecell.py:275-284 | `a` steps left and `d` right, wrapping in 0..7; from unset, `a` goes to 7 and `d` to 0 |
| `Legacy.CursorInverse` | freecell.py:275-284 | on a set cursor, `d` then `a` and `a` then `d` leave the table as it was |
| `Legacy.SelectKey` | freecell.py:264-274 | `s` never moves cards or the cursor; it does nothing on an unset cursor or empty stack, otherwise sets trigger to the cursor |
| `Legacy.MoveKey` | freecell.py:252-263 | `w` does nothing with trigger or cursor unset or equal; it raises IndexError exactly on an empty trigger stack; a move happens exactly when `__stack_to_stack` accepts a move from a non-empty trigger stack, and it is that top-card move; trigger and cursor are kept |
| `Legacy.Sample` | freecell.py:221-222 | a particular 52-card shuffle of the deck |
| `Legacy.SampleStackOne` | freecell.py:227-231 | on the sample deal, column 1 is A♦ 2♠ 2♥ A♣ |
| `Legacy.StaleSelect` | freecell.py:264-284 | on any table of the crashing shape, `d d s a` selects column 1 and puts the cursor on column 0 |
| `Legacy.StaleMoveAway` | freecell.py:252-284 | the first `w` moves the top card to column 0, then `s d` selects it and moves to column 1 |
| `Legacy.StaleMoveBack` | freecell.py:252-263 | `w` moves the card back, and the second `w` from the now-empty, still-selected column raises IndexError |
| `Legacy.StaleTrigger` | freecell.py:252-291 | on every table of that shape, keys `d d s a w s d w w` raise IndexError |
| `Legacy.StaleTriggerCrashes` | freecell.py:252-291 | on the sample deal, keys `d d s a w s d w w` raise IndexError |
| `Legacy.FixedKeepsArmed` | freecell.py:252-263 | with the trigger released after `w`, every key completes and keeps the trigger on a non-empty stack |
| `Legacy.FixedNeverCrashes` | freecell.py:252-263 | with the correction, no key sequence from such a table raises an error |
| `Legacy.DealArmed` | freecell.py:220-233 | every deal starts in that safe state, so the corrected prototype never crashes |
| `Legacy.FixedAgrees` | freecell.py:246-291 | where the prototype completes a key, the correction gives the same stacks and cursor; only the trigger is released after `w` |

## Left out

- Rendering:
  - `print_cards` and every `__str__` (`freecell/game.py:43-87`, `149-243`, `313-325`; `freecell.py:100-211`). They are box drawing with no effect on legality.
  - The `focus`/`trigger`/`mode` display flags of each stack.
  - The Header/Table layouts.
- I/O and timing: `print_to_screen`, `congrats`, `conform_new_game`, and the printing and sleeping side of `refresh`. Only the win test of `refresh` is modelled.
- Randomness: `random.sample` becomes a deal parameter. `Game.IsShuffle` says it is a permutation of the deck; the prototype's deal takes any 52 cards.
- The keyboard: `freecell/main.py` and the key hooks of `freecell.py:323-337`.
  - In the prototype only the letter keys are modelled. The numeric branches (`freecell.py:285-288`) do nothing.
- Escape codes: colours, reverse video and the grey edge colour are opaque wrappers. Their bytes and the reset codes are not modelled.
- `__stack_to_A` (`freecell.py:313-320`): nothing calls it.
- The prototype's foundations and buffers: no key reaches them, so only the eight columns are modelled.
- `Game.HandleUndo`: requires that the last move's target still shows a card. Without that, the source would append `None` to the source slot. `Invariants.ValidUndoDefined` shows that every valid game meets the requirement, and `Invariants.StepValid` shows that every game reached by commands is valid.
- `Game.Step`:
  - It requires a 52-card deal, the size the shuffle always has.
  - It requires undo to be defined, as for `Game.HandleUndo`.
  - Its own contract bounds the change to the history. The exact Tab, Space and Undo effects are in `Game.HandleTab`, `Game.HandleSpace`, `Game.HandleUndo` and the `Invariants` lemmas.
- `Legacy.On`: its own contract states only well-formedness. The behaviour of each key is in `Legacy.CursorWraps`, `Legacy.SelectKey` and `Legacy.MoveKey`.
- `Legacy.OnFixed`: its own contract states only well-formedness. Its behaviour is in `Legacy.FixedAgrees` and `Legacy.FixedKeepsArmed`.
- `Animation.Scene`: its own contract states only the width. What each stage shows is in `Animation.CongratsOpens` (frames 0..20), `Animation.CongratsSlides` (21..29), `Animation.CongratsCloses` (30..35 and 59..64), `Animation.CongratsUnfolds` (36..58) and `Animation.CongratsEnds` (65 on).

## Findings

| source | as written | input that shows it | evidently intended | confidence | as-written member | corrected member |
|---|---|---|---|---|---|---|
| freecell.py:252-263 | after `w` the trigger index is written back unchanged (line 289). A later `w` moves again from that stack, even once it is empty, and `s1.cards[-1]` (line 304) raises IndexError | the deal whose column 1 is A♦ 2♠ 2♥ A♣, keys `d d s a w s d w w` | releasing the selection after `w`, as `__handle_tab` does in `freecell/game.py:402-404` | high; not executed | `Legacy.StaleTriggerCrashes` | `Legacy.FixedNeverCrashes` |
