# Maus & Käse — a Dafny model

"SKY learns Deutsch" is a canvas-only browser toy for beginner German
vocabulary. Its one piece of real logic is the Maus & Käse mini-game, a snake
variant: a mouse made of grid cells moves one cell per tick over a board whose
edges wrap, dies when its head runs into its own body, and grows by one cell
for every piece of cheese it eats. Each piece of cheese also announces a random
word from the word bank, records it as learned (once), counts towards a
lifetime cheese counter, and makes the mouse 4 ms faster, down to 70 ms per
tick.

This project models that game as pure functions over immutable values:

- `Grid` — cells, unit directions, the toroidal edge wrap, and the counting
  facts about the board that decide whether cheese can still be placed.
- `Vocabulary`, `Learning` — the word bank and the progress record the game
  writes (`totalCheeseEaten`, `learnedWords`), plus the fields the flashcards
  and the diary write.
- `MausGame` — the session record, `Reset`, `SpawnFood`, `HandleInput` and
  `Step`, and the session invariant `Wf` (body in bounds and pairwise
  distinct, cheese free, directions unit and not reversed, `|body| = score + 1`,
  `speedMs = max(70, 140 - 4·score)`).
- `Session` — the game scene of the frame loop: keys first, then the tick,
  then the crash overlay's Restart button; runs of frames keep the invariant
  and the speed ramp.
- `Flashcards`, `Diary` — the wrap-around card index and the capped,
  newest-first diary list.
- `Scenarios` — concrete ticks on small boards.

Randomness and time are parameters. `Math.random` inside `spawnFood` becomes
`draws`, the sequence of candidate cells the rejection loop would draw, each
already floored into the board; the result is the first draw off the body.
`randomWord` becomes `wordIdx`, an index below `|Words|`. The frame timestamp
is the `now: real` argument of `Step`.

## Model

| member | source | states |
|---|---|---|
| `MausGame.SpawnFood` | app.js:587-596 | the cheese lands on a board cell that is not on the body, and it is the first such cell among the draws (every earlier draw hit the body) |
| `MausGame.SpawnPossible` | app.js:587-596 | while the body has fewer segments than the board has cells, a draw exists that ends the rejection loop |
| `MausGame.SpawnImpossibleOnFullBoard` | app.js:587-596 | once a body of distinct board cells covers the board, no sequence of draws ends the rejection loop |
| `Grid.FreeCellExists` | app.js:587-596 | fewer segments than cells leaves some board cell off the body |
| `Grid.BoardCapacity` | app.js:587-596 | a body of pairwise distinct board cells has at most `cols * rows` segments |
| `MausGame.ResetHangsOnOneCellBoard` | app.js:570-596 | on a 1×1 board the new one-cell mouse covers the board, so no draws let the reset's `spawnFood` loop end |
| `MausGame.Reset` | app.js:570-585 | a fresh session satisfies the session invariant: one segment in the middle of the board, heading right with right buffered, 140 ms, score 0, alive, no current word |
| `MausGame.HandleInput` | app.js:598-603 | only `nextDir` changes; it becomes the first held direction in the order Up, Down, Left, Right that is not the reverse of `dir`, and stays as it was when none qualifies; the invariant is kept |
| `Grid.WrapTorus` | app.js:611-619 | from a board cell, one unit step with the edge wrap stays on the board and equals addition modulo the board size |
| `Grid.WrapEdges` | app.js:615-619 | crossing the right, left, bottom or top edge lands on the opposite edge in the same row or column |
| `MausGame.Step` | app.js:605-644 | gated off (dead, or less than `speedMs` since the last tick) nothing changes; otherwise the time is recorded and `nextDir` committed; a head on any current segment, tail included, kills the mouse and leaves body, score, speed, cheese and progress alone; without cheese the length stays, the tail cell is vacated and score, speed, cheese, current word and progress are unchanged; with cheese the body grows by one, score and cheese counter rise by one, the word is learned once, speed becomes `max(70, speedMs - 4)` and the new cheese is off the grown body |
| `MausGame.ShiftKeepsDistinct` | app.js:627-643 | moving a body of distinct cells onto a free cell and dropping the tail keeps its cells distinct |
| `MausGame.SpeedBounds` | app.js:639 | the speed schedule stays in 70..140 ms, never increases, and one more piece of cheese is exactly one `max(70, speedMs - 4)` step |
| `MausGame.StepPreservesWf` | app.js:605-644 | every tick keeps the session invariant |
| `Learning.Learn` | app.js:635 | a word is appended only when absent, so the learned list never gains a duplicate and loses nothing |
| `Vocabulary.WordAt` | app.js:293-295 | a draw in range picks a word of the bank |
| `Session.Tick` | app.js:786-790 | a frame (keys, tick, then the overlay's Restart click, app.js:710-712) keeps the invariant; a Restart click on a session dead after the tick yields exactly a fresh session on the board the frame's window gives (`resetGame` re-reads the canvas, app.js:571-573), with progress untouched; otherwise the board keeps its size, the committed direction never reverses, speed never rises, score never drops, the cheese counter rises exactly with the score, and a crashed session without a click changes nothing but the buffered direction |
| `Session.Run` | app.js:769-804 | no frames leave the session as it was; along any frames the invariant holds, learned words stay distinct, and the cheese counter rises by at least the score's change; along frames without a Restart click the board keeps its size, score never drops, speed never rises, the counter rises exactly with the score, and a crashed session stays crashed |
| `Session.RunExtends` | app.js:769-790 | a run is frame by frame: one frame more is exactly one more `Tick` after the run so far when that frame has its randomness, and a run that gave up stays given up |
| `Session.RunStopsAtShortFrame` | app.js:769-790 | a run comes back empty exactly when some frame, reached after the frames before it ran, lacks the randomness it uses: a word index and a free cheese draw on the board when its tick eats, or a free draw on the frame's (possibly resized) board when it restarts |
| `Session.RunFromReset` | app.js:570-644 | from a fresh session, the tick interval stays within 70..140 ms, the body has `score + 1` segments, and the cheese counter grew by at least the score (exactly the score when no Restart was clicked) |
| `Flashcards.JsRem` | app.js:387-388 | JavaScript's `%` by a positive modulus: the dividend minus the result is a multiple of the modulus, and the result lies in `[0, n)` for a non-negative dividend and in `(-n, 0]` for a negative one, which fixes it |
| `Flashcards.PagingWraps` | app.js:387-388 | on a valid card, Next and Prev stay on the bank, undo each other, and wrap from the last card to the first and back |
| `Flashcards.SpeakCard` | app.js:380-386 | the shown card's German word is appended to the learned list only when absent (so the old list stays a prefix and no word repeats) and one more review is counted |
| `Diary.TrimStart` | app.js:477-478 | what is left is a suffix of the draft, and everything dropped is white space |
| `Diary.TrimEnd` | app.js:477-478 | what is left is a prefix, and everything dropped is white space |
| `Diary.Trim` | app.js:477-478 | a non-empty trimmed draft begins and ends with a character that is not white space |
| `Diary.TrimSlice` | app.js:477 | the trimmed draft is a slice of the draft with only white space around it, and it is empty exactly when the draft is all white space |
| `Diary.PushEntry` | app.js:478-479 | the new entry is first, the older entries follow in order, and a list of at most 50 stays at most 50 (a full list drops its oldest entry) |
| `Diary.SaveDiary` | app.js:474-486 | a draft with text is stored trimmed at the front and cleared; an all-white-space draft leaves progress and draft unchanged |
| `Scenarios.EatOnTenByTen` | app.js:605-644 | on a 10×10 board the one-cell mouse at (5,5) eating at (6,5) becomes `[(6,5), (5,5)]`, scores 1, ticks at 136 ms, and the cheese goes to the first draw off the body |
| `Scenarios.WrapLeftShifts` | app.js:611-643 | `[(0,5), (1,5), (2,5)]` heading left becomes `[(9,5), (0,5), (1,5)]` |
| `Scenarios.TailCellCountsAsOccupied` | app.js:622-625 | a head moving onto the current tail cell crashes, although the tail would have been vacated |
| `Scenarios.CrashThenRestart` | app.js:786-789 | a frame whose tick crashes the mouse and whose Restart button is clicked on a window now giving a 12×8 board ends with a fresh one-cell mouse at (6,4) on that board, score 0, 140 ms |
| `Scenarios.RestartOntoWiderBoard` | app.js:571-592 | a Restart on a window grown from a 10×10 to a 30×30 board centres the mouse at (15,15) and puts the cheese at the draw (25,25), off the old board |
| `Scenarios.TooEarlyIsIgnored` | app.js:607 | a call 139.5 ms after the last tick at 140 ms per tick changes nothing |
| `Scenarios.NoReversal` | app.js:598-603 | heading right, a held Left buffers nothing, and Left with Down buffers Down |

## Left out

- Drawing (`drawGame`, `drawCheese`, `button`, `home`, `header`, `drawBackground`, `renderMultilineText`, `shade`, the canvas sizing): rendering, floating point and colour work. The one game-state effect of `drawGame`, its Restart button on a crashed session (app.js:710-712), is the `restart` field of `Session.Frame`.
- `Session.Run`: frames carry no Home click. A Home click (app.js:701, 713) only starts a scene transition (app.js:149-152) and changes no game state; the game keeps ticking during the transition frames, which are ordinary frames here, and the session is reset when the game scene is next entered (app.js:763).
- Text-to-speech (`TTS`) and `localStorage` (`loadProgress`, `saveProgress`): foreign browser APIs called fire-and-forget; progress is a plain record here and nothing is persisted.
- DOM event listeners, `requestAnimationFrame` and the non-game scenes of `loop`: I/O plumbing. The frame loop's game case is `Session.Tick`.
- Scene transitions and toasts: frame-coupled cosmetics driven by `Math.sin` and float timers. The diary's toast message is kept as a string in `SaveResult`.
- The quiz, including its `sort(() => Math.random() - 0.5)` shuffle: not a well-defined ordering.
- The streak update and the diary's ISO timestamp: the streak reads the local clock and timezone (app.js:73, 78); the diary timestamp `new Date().toISOString()` (app.js:476) reads the clock and is in UTC. `SaveDiary` takes the timestamp as a parameter.
- Deriving `cols` and `rows` from the viewport (`cols = Math.floor((w - 72) / 24)` and `rows = Math.floor((h - 160) / 24)`, app.js:571-573): they are parameters of `Reset`, at least 1 each, and every `Session.Frame` carries the board its window would give for a Restart.
- `MausGame.Reset`: on a 1×1 board (a viewport of roughly 96–119 by 184–207 pixels) the script's `resetGame` never returns, because `spawnFood` can only draw the centre cell, which the new mouse occupies. `ResetHangsOnOneCellBoard` proves that no draws meet `Reset`'s requirement then, so the model has no reset for that board.
- The `game` fields `gridSize`, `cells` and `announceCooldown`: they take part in no modelled logic (`gridSize` is the constant 24 above).
- Progress fields `name`, `streakDays`, `lastVisit` and `quizBest`: only the streak and the quiz write them.
- Timestamps are exact reals; the rounding of JavaScript's double subtraction in the timing gate is not modelled.
- `MausGame.Step`: requires a non-empty body. Every session starts with one segment and never shrinks, so the empty body is unreachable; the script would compute `NaN` coordinates there.
- `MausGame.Step`: the random draws must contain a free cell when the mouse eats. When the mouse fills the whole board by eating, the script's `spawnFood` loop never ends; `SpawnImpossibleOnFullBoard` shows that no draws can satisfy the requirement then, so the model has no step for that case.
- `Session.Run`: returns `None` at the first frame whose randomness falls short (`FrameOk`: an eating tick without a word index in range or without draws on the board that reach a free cell, or a Restart without draws on the new board that reach one); the script would keep drawing, so such a frame simply did not supply enough randomness. `RunStopsAtShortFrame` pins down exactly when that happens.
- `MausGame.Step`: eating grows the body, so a one-cell mouse that eats has two cells; a crashing tick still records `now` and commits `nextDir` (app.js:608-609) before `alive` turns false; `HandleInput` keeps buffering after a crash (app.js:787).
